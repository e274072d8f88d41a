/** Destroying a node of the runtime graph: its edges go, its children move to its
    parent, and which cached digests survive. */
module GraphDestroy {
  import opened Common
  import opened Bytes
  import opened DigestOrder
  import opened GraphEncoding
  import opened GraphState
  import opened GraphFrames
  import opened GraphEdges

  /** Part of `n` is gone: edges at `n` removed, children of `n` moved to `p`. */
  ghost predicate Leaving(s0: State, s: State, n: nat, p: nat) {
    && s.next == s0.next && s.nodes.Keys == s0.nodes.Keys
    && n in s0.nodes && p in s0.nodes && n != p
    && (forall e :: e in s.edges ==> e in s0.edges && s.edges[e] == s0.edges[e])
    && (forall e :: e in s0.edges && e !in s.edges ==> s0.edges[e].from == n || s0.edges[e].to == n)
    && (forall x :: x in s0.nodes ==> LeavingNode(s0, s, n, p, x))
    && s.nodes[p].children + s.nodes[n].children == s0.nodes[p].children + s0.nodes[n].children
  }

  ghost predicate LeavingNode(s0: State, s: State, n: nat, p: nat, x: nat)
    requires x in s0.nodes && x in s.nodes
  {
    var a, b := s0.nodes[x], s.nodes[x];
    && b == a.(parent := b.parent, children := b.children, out := Keep(a.out, s.edges.Keys),
               inn := Keep(a.inn, s.edges.Keys))
    && (b.parent == a.parent || (a.parent == Some(n) && b.parent == Some(p)))
    && (x != n && x != p ==> b.children == a.children)
  }

  lemma LeavingStart(s: State, root: nat, n: nat, p: nat)
    requires Tree(s, root) && n in s.nodes && p in s.nodes && n != p
    ensures Leaving(s, s, n, p)
  {
    forall x | x in s.nodes
      ensures LeavingNode(s, s, n, p, x)
    {
      LeavingSelf(s, root, n, p, x);
    }
  }

  lemma LeavingSelf(s: State, root: nat, n: nat, p: nat, x: nat)
    requires x in s.nodes && NodeOk(s, root, x)
    ensures LeavingNode(s, s, n, p, x)
  {
  }

  lemma LeavingRemove(s0: State, s: State, n: nat, p: nat, e: nat)
    requires Leaving(s0, s, n, p) && e in s.edges && (s.edges[e].from == n || s.edges[e].to == n)
    requires s.edges[e].from in s.nodes && s.edges[e].to in s.nodes
    requires forall x :: x in s.nodes && e in s.nodes[x].out ==> x == s.edges[e].from
    requires forall x :: x in s.nodes && e in s.nodes[x].inn ==> x == s.edges[e].to
    ensures Leaving(s0, RemoveEdge(s, e), n, p)
  {
    hide LeavingNode, Without, Keep;
    forall x | x in s0.nodes
      ensures x in RemoveEdge(s, e).nodes && LeavingNode(s0, RemoveEdge(s, e), n, p, x)
    {
      LeavingRemoveAt(s0, s, n, p, e, x);
    }
  }

  lemma LeavingRemoveAt(s0: State, s: State, n: nat, p: nat, e: nat, x: nat)
    requires e in s.edges && s.edges[e].from in s.nodes && s.edges[e].to in s.nodes
    requires x in s0.nodes && x in s.nodes && LeavingNode(s0, s, n, p, x)
    requires (e in s.nodes[x].out ==> x == s.edges[e].from) && (e in s.nodes[x].inn ==> x == s.edges[e].to)
    ensures LeavingNode(s0, RemoveEdge(s, e), n, p, x)
  {
    hide Without, Keep;
    assert RemoveEdge(s, e).edges.Keys == s.edges.Keys - {e};
    if x == s.edges[e].from {
      DropKeeps(s0.nodes[x].out, s.edges.Keys, e);
    } else {
      KeepAgain(s0.nodes[x].out, s.edges.Keys, e);
    }
    if x == s.edges[e].to {
      DropKeeps(s0.nodes[x].inn, s.edges.Keys, e);
    } else {
      KeepAgain(s0.nodes[x].inn, s.edges.Keys, e);
    }
  }

  lemma {:induction false} KeepAgain(es: seq<nat>, left: set<nat>, e: nat)
    requires e !in Keep(es, left)
    ensures Keep(es, left - {e}) == Keep(es, left)
  {
    if es != [] {
      assert es[0] != e || e !in left;
      KeepAgain(es[1..], left, e);
    }
  }

  /** Move one child of `n` to the end of its grandparent's list. */
  function Adopt(s: State, n: nat, p: nat, c: nat): (r: State)
    requires n in s.nodes && p in s.nodes && c in s.nodes && n != p && c != n && c != p
  {
    var n1 := s.nodes[n := s.nodes[n].(children := Without(s.nodes[n].children, c))];
    var n2 := n1[c := n1[c].(parent := Some(p))];
    s.(nodes := n2[p := n2[p].(children := n2[p].children + [c])])
  }

  lemma AdoptTree(s: State, root: nat, n: nat, p: nat, c: nat)
    requires Tree(s, root) && n in s.nodes && p in s.nodes && c in s.nodes && p < n < c
    requires s.nodes[n].parent == Some(p) && s.nodes[c].parent == Some(n)
    ensures Tree(Adopt(s, n, p, c), root)
  {
    hide NodeOk, EdgeOk;
    var s1 := Adopt(s, n, p, c);
    assert s1.nodes.Keys == s.nodes.Keys && s1.edges == s.edges;
    hide Adopt;
    forall x | x in s1.nodes
      ensures NodeOk(s1, root, x)
    {
      AdoptNodeOk(s, root, n, p, c, x);
    }
    forall e | e in s1.edges
      ensures EdgeOk(s1, e)
    {
      AdoptEdgeOk(s, n, p, c, e);
    }
  }

  lemma FamilyOf(s: State, root: nat, n: nat, p: nat, c: nat)
    requires Tree(s, root) && n in s.nodes && s.nodes[n].parent == Some(p) && c in s.nodes[n].children
    ensures p in s.nodes && c in s.nodes && p < n < c && s.nodes[c].parent == Some(n) && Distinct(s.nodes[n].children)
  {
    assert NodeOk(s, root, n);
    assert NodeOk(s, root, c);
  }

  lemma AdoptNodeOk(s: State, root: nat, n: nat, p: nat, c: nat, x: nat)
    requires n in s.nodes && p in s.nodes && c in s.nodes && p < n < c
    requires NodeOk(s, root, n) && NodeOk(s, root, c) && NodeOk(s, root, p) && s.nodes[n].parent == Some(p)
    requires s.nodes[c].parent == Some(n)
    requires x in s.nodes && NodeOk(s, root, x)
    ensures NodeOk(Adopt(s, n, p, c), root, x)
  {
    DistinctMore(s.nodes[x].children, c);
    hide Distinct;
  }

  lemma AdoptEdgeOk(s: State, n: nat, p: nat, c: nat, e: nat)
    requires n in s.nodes && p in s.nodes && c in s.nodes && n != p && c != n && c != p
    requires e in s.edges && EdgeOk(s, e)
    ensures EdgeOk(Adopt(s, n, p, c), e)
  {
  }

  lemma LeavingAdopt(s0: State, s: State, n: nat, p: nat, c: nat)
    requires Leaving(s0, s, n, p) && c in s.nodes && c != n && c != p
    requires s.nodes[c].parent == Some(n)
    requires s.nodes[n].children != [] && s.nodes[n].children[0] == c && Distinct(s.nodes[n].children)
    ensures Leaving(s0, Adopt(s, n, p, c), n, p)
  {
    hide LeavingNode, Keep;
    var s1 := Adopt(s, n, p, c);
    AdoptList(s, n, p, c);
    assert s1.nodes.Keys == s.nodes.Keys && s1.edges == s.edges && s1.next == s.next;
    hide Adopt, Distinct;
    forall x | x in s0.nodes
      ensures LeavingNode(s0, s1, n, p, x)
    {
      LeavingAdoptAt(s0, s, n, p, c, x);
    }
  }

  /** The first child goes over to the end of the other list. */
  lemma AdoptList(s: State, n: nat, p: nat, c: nat)
    requires n in s.nodes && p in s.nodes && c in s.nodes && n != p && c != n && c != p
    requires s.nodes[n].children != [] && s.nodes[n].children[0] == c && Distinct(s.nodes[n].children)
    ensures var s1 := Adopt(s, n, p, c);
            s1.nodes[p].children + s1.nodes[n].children == s.nodes[p].children + s.nodes[n].children
  {
    var ids := s.nodes[n].children;
    assert Without(ids, c) == ids[1..] by {
      assert c !in ids[1..];
      WithoutAbsent(ids[1..], c);
    }
    hide Without, Distinct;
    assert s.nodes[p].children + [c] + ids[1..] == s.nodes[p].children + ids;
  }

  lemma LeavingAdoptAt(s0: State, s: State, n: nat, p: nat, c: nat, x: nat)
    requires n in s.nodes && p in s.nodes && c in s.nodes && n != p && c != n && c != p && s.nodes[c].parent == Some(n)
    requires x in s0.nodes && x in s.nodes && LeavingNode(s0, s, n, p, x)
    ensures LeavingNode(s0, Adopt(s, n, p, c), n, p, x)
  {
    hide Keep, Without;
  }

  /** Forget a node that has neither children nor edges. */
  function Free(s: State, n: nat, p: nat): (r: State)
    requires p in s.nodes
  {
    s.(nodes := s.nodes[p := s.nodes[p].(children := Without(s.nodes[p].children, n))] - {n})
  }

  lemma FreeTree(s: State, root: nat, n: nat, p: nat)
    requires Tree(s, root) && n in s.nodes && s.nodes[n].parent == Some(p) && n != root && p in s.nodes && p != n
    requires s.nodes[n].children == [] && s.nodes[n].out == [] && s.nodes[n].inn == []
    ensures Tree(Free(s, n, p), root)
  {
    hide NodeOk, EdgeOk;
    var s1 := Free(s, n, p);
    assert s1.nodes.Keys == s.nodes.Keys - {n} && s1.edges == s.edges;
    hide Free;
    forall x | x in s1.nodes
      ensures NodeOk(s1, root, x)
    {
      FreeNodeOk(s, root, n, p, x);
    }
    forall e | e in s1.edges
      ensures EdgeOk(s1, e)
    {
      FreeEdgeOk(s, n, p, e);
    }
  }

  lemma FreeNodeOk(s: State, root: nat, n: nat, p: nat, x: nat)
    requires n in s.nodes && p in s.nodes && p != n && s.nodes[n].parent == Some(p) && s.nodes[n].children == []
    requires x in s.nodes && x != n && NodeOk(s, root, x)
    ensures NodeOk(Free(s, n, p), root, x)
  {
    hide Distinct;
  }

  lemma FreeEdgeOk(s: State, n: nat, p: nat, e: nat)
    requires n in s.nodes && p in s.nodes && p != n && s.nodes[n].out == [] && s.nodes[n].inn == []
    requires e in s.edges && EdgeOk(s, e)
    ensures EdgeOk(Free(s, n, p), e)
  {
  }

  /** Edge `e` into `n` is counted in the cached digest of another node. */
  ghost predicate CountsEdgeTo(s: State, n: nat, e: nat)
    requires e in s.edges
  {
    var f := s.edges[e].from;
    s.edges[e].to == n && f != n && f in s.nodes && s.nodes[f].valid
  }

  /** No cached digest outside the path that destroy invalidates counts an edge to `n`. */
  ghost predicate SourcesCovered(s: State, n: nat)
    requires n in s.nodes && (s.nodes[n].parent.Some? ==> s.nodes[n].parent.value in s.nodes)
  {
    forall e :: e in s.edges && CountsEdgeTo(s, n, e) ==> OnPathOf(s, s.edges[e].from, s.nodes[n].parent)
  }

  /** The path up from `p` is the same before and after. */
  lemma {:induction false} PathStays(s0: State, s1: State, n: nat, x: nat, y: nat)
    requires y in s0.nodes && y in s1.nodes && y < n
    requires forall z :: z in s0.nodes && z < n ==> z in s1.nodes && s1.nodes[z].parent == s0.nodes[z].parent
    requires forall z :: z in s1.nodes ==> z in s0.nodes
    ensures OnPath(s1, x, y) == OnPath(s0, x, y)
    decreases y
  {
    var p := s0.nodes[y].parent;
    if p.Some? && p.value in s0.nodes && p.value < y {
      PathStays(s0, s1, n, x, p.value);
    }
  }

  /** `s1` is what destroying `n` leaves of `s0`, before invalidation. */
  ghost predicate Gone(s0: State, s1: State, root: nat, n: nat, p: nat) {
    && Tree(s0, root) && n in s0.nodes && s0.nodes[n].parent == Some(p) && p in s0.nodes && p < n
    && s1.next == s0.next && s1.nodes.Keys == s0.nodes.Keys - {n}
    && (forall e :: e in s1.edges <==> e in s0.edges && s0.edges[e].from != n && s0.edges[e].to != n)
    && (forall e :: e in s1.edges ==> s1.edges[e] == s0.edges[e])
    && (forall x :: x in s1.nodes ==> LeavingNode(s0, s1, n, p, x))
    && s1.nodes[p].children == Without(s0.nodes[p].children, n) + s0.nodes[n].children
  }

  lemma NoEdgesAt(s: State, root: nat, n: nat)
    requires Tree(s, root) && n in s.nodes && s.nodes[n].out == [] && s.nodes[n].inn == []
    ensures forall e :: e in s.edges ==> s.edges[e].from != n && s.edges[e].to != n
  {
    hide NodeOk;
    forall e | e in s.edges
      ensures s.edges[e].from != n && s.edges[e].to != n
    {
      assert EdgeOk(s, e);
    }
  }

  lemma LeavingGone(s0: State, s: State, root: nat, n: nat, p: nat)
    requires Tree(s0, root) && Tree(s, root) && Leaving(s0, s, n, p) && s0.nodes[n].parent == Some(p) && p < n
    requires s.nodes[n].children == [] && s.nodes[n].out == [] && s.nodes[n].inn == []
    ensures Gone(s0, Free(s, n, p), root, n, p)
  {
    hide LeavingNode, Tree, Without, Distinct;
    NotOwnChild(s0, root, n);
    WithoutAppended(s0.nodes[p].children, s0.nodes[n].children, n);
    assert s.nodes[p].children == s0.nodes[p].children + s0.nodes[n].children;
    NoEdgesAt(s, root, n);
    var s1 := Free(s, n, p);
    assert s1.nodes.Keys == s.nodes.Keys - {n} && s1.edges == s.edges && s1.next == s.next;
    forall x | x in s.nodes && x != n
      ensures LeavingNode(s0, s1, n, p, x)
    {
      LeavingFreeAt(s0, s, n, p, x);
    }
    hide Free;
  }

  lemma NotOwnChild(s: State, root: nat, n: nat)
    requires Tree(s, root) && n in s.nodes
    ensures n !in s.nodes[n].children
  {
    assert NodeOk(s, root, n);
  }

  lemma LeavingFreeAt(s0: State, s: State, n: nat, p: nat, x: nat)
    requires p in s.nodes && x in s0.nodes && x in s.nodes && x != n && LeavingNode(s0, s, n, p, x)
    ensures LeavingNode(s0, Free(s, n, p), n, p, x)
  {
    hide Keep, Without;
  }

  lemma GoneKids(s0: State, s1: State, root: nat, n: nat, p: nat, x: nat)
    requires Gone(s0, s1, root, n, p) && x in s1.nodes && x != p && s1.nodes[x].valid
    ensures CarriedKids(s0, s1, x)
  {
    hide LeavingNode, Tree, Without, Keep;
    assert LeavingNode(s0, s1, n, p, x);
    LeavingOther(s0, s1, n, p, x);
    var ids := s0.nodes[x].children;
    forall c | c in ids
      ensures c in s0.nodes && c < s0.next && c in s1.nodes
      ensures s1.nodes[c].ephemeral == s0.nodes[c].ephemeral && s1.nodes[c].valid == s0.nodes[c].valid
    {
      ChildStays(s0, root, n, p, x, c);
      LeavingOther(s0, s1, n, p, c);
    }
    SameKids(s0, s1, x, ids);
  }

  lemma LeavingOther(s0: State, s1: State, n: nat, p: nat, x: nat)
    requires x in s0.nodes && x in s1.nodes && LeavingNode(s0, s1, n, p, x) && x != n
    ensures s1.nodes[x].ephemeral == s0.nodes[x].ephemeral && s1.nodes[x].valid == s0.nodes[x].valid
    ensures s1.nodes[x].digest == s0.nodes[x].digest && (x != p ==> s1.nodes[x].children == s0.nodes[x].children)
  {
    hide Keep;
  }

  lemma ChildStays(s0: State, root: nat, n: nat, p: nat, x: nat, c: nat)
    requires Tree(s0, root) && n in s0.nodes && s0.nodes[n].parent == Some(p) && x in s0.nodes && x != p
    requires c in s0.nodes[x].children
    ensures c in s0.nodes && c < s0.next && c != n
  {
    hide Distinct;
    assert NodeOk(s0, root, x);
    assert NodeOk(s0, root, c);
  }

  /** A node with no edge to `n` keeps its own hashed fields. */
  lemma GoneOwn(s0: State, s1: State, root: nat, n: nat, p: nat, x: nat)
    requires Gone(s0, s1, root, n, p) && x in s1.nodes
    requires forall e :: e in s0.edges && s0.edges[e].from == x ==> s0.edges[e].to != n
    ensures OwnOf(s1, x) == OwnOf(s0, x)
  {
    hide Keep, LeavingNode;
    var es := s0.nodes[x].out;
    forall e | e in es
      ensures e in s1.edges && EdgeView(s1, e) == EdgeView(s0, e)
    {
      assert NodeOk(s0, root, x);
      assert EdgeOk(s0, e);
      LeavingKind(s0, s1, n, p, s0.edges[e].to);
    }
    LeavingKind(s0, s1, n, p, x);
    SameEdges(s0, s1, es);
  }

  lemma LeavingKind(s0: State, s1: State, n: nat, p: nat, x: nat)
    requires x in s0.nodes && x in s1.nodes && LeavingNode(s0, s1, n, p, x)
    ensures s1.nodes[x].kind == s0.nodes[x].kind && s1.nodes[x].labelText == s0.nodes[x].labelText
    ensures s1.nodes[x].attrs == s0.nodes[x].attrs
    ensures (forall e :: e in s0.nodes[x].out ==> e in s1.edges) ==> s1.nodes[x].out == s0.nodes[x].out
  {
  }

  /** A node with an edge to `n` hashes fewer edges afterwards. */
  lemma GoneCount(s0: State, s1: State, root: nat, n: nat, p: nat, x: nat, e: nat)
    requires Gone(s0, s1, root, n, p) && x in s1.nodes
    requires e in s0.edges && s0.edges[e].from == x && s0.edges[e].to == n
    ensures |OwnOf(s1, x).edges| < |OwnOf(s0, x).edges|
  {
    assert LeavingNode(s0, s1, n, p, x);
    assert EdgeOk(s0, e);
    assert e in s0.nodes[x].out && e !in s1.edges.Keys;
  }

  /** Whatever destroy does to cached digests of others, validity stays downward closed. */
  lemma GoneDeep(s0: State, s1: State, s2: State, root: nat, n: nat, p: nat)
    requires Gone(s0, s1, root, n, p) && Tree(s1, root) && Deep(s0) && InvalidatedFrom(s1, s2, Some(p))
    ensures Deep(s2) && Tree(s2, root)
  {
    hide OnPath, Tree, Deep, KidsOf;
    PathSelf(s1, p);
    forall x | x in s1.nodes && s1.nodes[x].valid && !OnPathOf(s1, x, Some(p))
      ensures CarriedKids(s0, s1, x)
    {
      GoneKids(s0, s1, root, n, p, x);
    }
    InvalidatedDeep(s0, s1, s2, root, Some(p));
  }

  lemma ParentStays(s0: State, s1: State, root: nat, n: nat, p: nat, z: nat)
    requires Tree(s0, root) && z in s0.nodes && z in s1.nodes && z < n && LeavingNode(s0, s1, n, p, z)
    ensures s1.nodes[z].parent == s0.nodes[z].parent
  {
    hide Keep, Distinct;
    assert NodeOk(s0, root, z);
  }

  lemma SamePath(s0: State, s1: State, root: nat, n: nat, p: nat, x: nat)
    requires Gone(s0, s1, root, n, p)
    ensures OnPathOf(s1, x, Some(p)) == OnPathOf(s0, x, Some(p))
  {
    hide OnPath, LeavingNode, Tree, Without;
    forall z | z in s0.nodes && z < n
      ensures z in s1.nodes && s1.nodes[z].parent == s0.nodes[z].parent
    {
      ParentStays(s0, s1, root, n, p, z);
    }
    PathStays(s0, s1, n, x, p);
  }

  lemma CountsEdges(s: State, n: nat, x: nat)
    requires x in s.nodes && x != n && s.nodes[x].valid
    ensures forall e :: e in s.edges && s.edges[e].from == x && s.edges[e].to == n ==> CountsEdgeTo(s, n, e)
  {
  }

  /** If every counted edge to `n` is covered, all caches stay right. */
  lemma GoneCoherent(h: seq<byte> -> Digest, s0: State, s1: State, s2: State, root: nat, n: nat, p: nat)
    requires Gone(s0, s1, root, n, p) && Tree(s1, root) && Deep(s0) && InvalidatedFrom(s1, s2, Some(p))
    requires SourcesCovered(s0, n) && Coherent(h, s0)
    ensures Coherent(h, s2)
  {
    hide OnPath, Tree, Deep, KidsOf, OwnOf, Coherent;
    PathSelf(s1, p);
    forall x | x in s1.nodes && s1.nodes[x].valid && !OnPathOf(s1, x, Some(p))
      ensures Carried(s0, s1, x)
    {
      GoneKids(s0, s1, root, n, p, x);
      SamePath(s0, s1, root, n, p, x);
      CountsEdges(s0, n, x);
      GoneOwn(s0, s1, root, n, p, x);
    }
    Invalidated(s0, s1, s2, root, Some(p));
    CoherentFrame(h, s0, s2);
  }

  /** The hash does not confuse what a node hashed before and after. */
  ghost predicate NoCollision(h: seq<byte> -> Digest, s0: State, s2: State) {
    forall x :: x in s0.nodes && x in s2.nodes ==> NoCollisionAt(h, s0, s2, x)
  }

  ghost predicate NoCollisionAt(h: seq<byte> -> Digest, s0: State, s2: State, x: nat)
    requires x in s0.nodes && x in s2.nodes
  {
    && Fits(OwnOf(s0, x), Sort(ScratchAll(h, s0, x, KidsOf(s0, x))))
    && Fits(OwnOf(s2, x), Sort(ScratchAll(h, s2, x, KidsOf(s2, x))))
    && (Scratch(h, s0, x) == Scratch(h, s2, x) ==> Preimage(h, s0, x) == Preimage(h, s2, x))
  }

  /** A source of an edge to `n` that keeps its digest cannot be right both times. */
  lemma StaleSource(h: seq<byte> -> Digest, s0: State, s1: State, s2: State, root: nat, n: nat, p: nat, x: nat, e: nat)
    requires Gone(s0, s1, root, n, p) && SameShape(s1, s2) && x in s1.nodes
    requires e in s0.edges && s0.edges[e].from == x && s0.edges[e].to == n
    requires NoCollisionAt(h, s0, s2, x)
    ensures Scratch(h, s0, x) != Scratch(h, s2, x)
  {
    hide OnPath, KidsOf, OwnOf, Tree;
    GoneCount(s0, s1, root, n, p, x, e);
    ShapeKeeps(s1, s2, x);
    if Scratch(h, s0, x) == Scratch(h, s2, x) {
      EncodeInjective(OwnOf(s0, x), Sort(ScratchAll(h, s0, x, KidsOf(s0, x))),
                      OwnOf(s2, x), Sort(ScratchAll(h, s2, x, KidsOf(s2, x))));
    }
  }

  /** If one is not, its source is left with a digest that counts a vanished edge. */
  lemma GoneStale(h: seq<byte> -> Digest, s0: State, s1: State, s2: State, root: nat, n: nat, p: nat)
    requires Gone(s0, s1, root, n, p) && InvalidatedFrom(s1, s2, Some(p))
    requires Coherent(h, s0) && Coherent(h, s2) && NoCollision(h, s0, s2)
    ensures SourcesCovered(s0, n)
  {
    hide OnPath, Tree, Scratch, NoCollisionAt, LeavingNode;
    forall e | e in s0.edges && CountsEdgeTo(s0, n, e)
      ensures OnPathOf(s0, s0.edges[e].from, s0.nodes[n].parent)
    {
      var x := s0.edges[e].from;
      SamePath(s0, s1, root, n, p, x);
      StaleSource(h, s0, s1, s2, root, n, p, x, e);
      LeavingCached(s0, s1, n, p, x);
    }
  }

  lemma LeavingCached(s0: State, s1: State, n: nat, p: nat, x: nat)
    requires x in s0.nodes && x in s1.nodes && LeavingNode(s0, s1, n, p, x)
    ensures s1.nodes[x].digest == s0.nodes[x].digest && s1.nodes[x].valid == s0.nodes[x].valid
  {
  }

  /** What destroying `n` does to another node: its own fields and digest are kept, it moves up if it hung
      below `n`, edges between it and `n` are gone, and it loses validity on the path up from the parent of `n`,
      in whose list `n` is gone and the children of `n` follow in their order. */
  ghost predicate Survives(s0: State, s: State, n: nat, x: nat)
    requires n in s0.nodes && x in s0.nodes && x in s.nodes
  {
    var a, b, p := s0.nodes[x], s.nodes[x], s0.nodes[n].parent;
    && b == a.(parent := b.parent, children := b.children, out := Keep(a.out, s.edges.Keys),
               inn := Keep(a.inn, s.edges.Keys), valid := b.valid)
    && b.parent == (if a.parent == Some(n) then p else a.parent)
    && b.children == (if p == Some(x) then Without(a.children, n) + s0.nodes[n].children else a.children)
    && (p.Some? && p.value in s0.nodes ==> b.valid == (a.valid && !OnPathOf(s0, x, p)))
  }

  /** The structure after destroying `n`. */
  ghost predicate Destroyed(s0: State, s: State, n: nat)
    requires n in s0.nodes
  {
    && s.next == s0.next && s.nodes.Keys == s0.nodes.Keys - {n}
    && (forall e :: e in s.edges <==> e in s0.edges && s0.edges[e].from != n && s0.edges[e].to != n)
    && (forall e :: e in s.edges ==> s.edges[e] == s0.edges[e])
    && (forall x :: x in s.nodes ==> Survives(s0, s, n, x))
  }

  lemma GoneDestroyed(s0: State, s1: State, s2: State, root: nat, n: nat, p: nat)
    requires Gone(s0, s1, root, n, p) && InvalidatedFrom(s1, s2, Some(p))
    requires forall c :: c in s1.nodes ==>
               s1.nodes[c].parent == if s0.nodes[c].parent == Some(n) then Some(p) else s0.nodes[c].parent
    ensures Destroyed(s0, s2, n) && (AttrsSorted(s0) ==> AttrsSorted(s2))
  {
    hide OnPath, Keep, Tree, AttrsSorted, Survives, LeavingNode, Without;
    forall x | x in s2.nodes
      ensures Survives(s0, s2, n, x) && s2.nodes[x].attrs == s0.nodes[x].attrs
    {
      SamePath(s0, s1, root, n, p, x);
      GoneSurvives(s0, s1, s2, n, p, x);
    }
    KeptSorted(s0, s2);
  }

  lemma GoneSurvives(s0: State, s1: State, s2: State, n: nat, p: nat, x: nat)
    requires n in s0.nodes && p in s0.nodes && p in s1.nodes && s0.nodes[n].parent == Some(p)
    requires x in s0.nodes && x in s1.nodes && x in s2.nodes && x != n && LeavingNode(s0, s1, n, p, x)
    requires s1.nodes[p].children == Without(s0.nodes[p].children, n) + s0.nodes[n].children
    requires s1.nodes[x].parent == if s0.nodes[x].parent == Some(n) then Some(p) else s0.nodes[x].parent
    requires OnPathOf(s1, x, Some(p)) == OnPathOf(s0, x, Some(p)) && s2.edges == s1.edges
    requires s2.nodes[x] == if OnPathOf(s1, x, Some(p)) then s1.nodes[x].(valid := false) else s1.nodes[x]
    ensures Survives(s0, s2, n, x) && s2.nodes[x].attrs == s0.nodes[x].attrs
  {
    hide OnPathOf, Keep, Without;
  }

  /** What the caches are worth afterwards. */
  lemma GoneCaches(h: seq<byte> -> Digest, s0: State, s1: State, s2: State, root: nat, n: nat, p: nat)
    requires Gone(s0, s1, root, n, p) && Tree(s1, root) && Deep(s0) && InvalidatedFrom(s1, s2, Some(p))
    ensures Deep(s2) && Tree(s2, root)
    ensures Coherent(h, s0) && SourcesCovered(s0, n) ==> Coherent(h, s2)
    ensures Coherent(h, s0) && Coherent(h, s2) && NoCollision(h, s0, s2) ==> SourcesCovered(s0, n)
  {
    hide Tree, Deep, Coherent, Gone, InvalidatedFrom, NoCollision;
    assert n in s0.nodes && s0.nodes[n].parent == Some(p) && p in s0.nodes by {
      GoneParent(s0, s1, root, n, p);
    }
    hide SourcesCovered;
    GoneDeep(s0, s1, s2, root, n, p);
    if Coherent(h, s0) && SourcesCovered(s0, n) {
      GoneCoherent(h, s0, s1, s2, root, n, p);
    }
    if Coherent(h, s0) && Coherent(h, s2) && NoCollision(h, s0, s2) {
      GoneStale(h, s0, s1, s2, root, n, p);
    }
  }

  lemma GoneParent(s0: State, s1: State, root: nat, n: nat, p: nat)
    requires Gone(s0, s1, root, n, p)
    ensures n in s0.nodes && s0.nodes[n].parent == Some(p) && p in s0.nodes && p in s1.nodes
  {
  }

  /** Once the child list of `n` is empty, all its children have moved to `p`. */
  lemma Adopted(s0: State, s: State, root: nat, n: nat, p: nat)
    requires Tree(s0, root) && Tree(s, root) && Leaving(s0, s, n, p) && s.nodes[n].children == []
    ensures forall c :: c in s.nodes ==>
              s.nodes[c].parent == if s0.nodes[c].parent == Some(n) then Some(p) else s0.nodes[c].parent
  {
    forall c | c in s.nodes
      ensures s.nodes[c].parent == if s0.nodes[c].parent == Some(n) then Some(p) else s0.nodes[c].parent
    {
      assert LeavingNode(s0, s, n, p, c);
      assert NodeOk(s, root, c);
    }
  }
}
