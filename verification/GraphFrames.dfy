/** Frame lemmas for the runtime graph: what each kind of mutation leaves alone. */
module GraphFrames {
  import opened Common
  import opened Bytes
  import opened DigestOrder
  import opened GraphEncoding
  import opened GraphState

  /** Equal up to cached digests and their validity. */
  ghost predicate SameShape(s: State, s': State) {
    && s'.edges == s.edges && s'.next == s.next && s'.nodes.Keys == s.nodes.Keys
    && forall x :: x in s.nodes ==>
         s'.nodes[x] == s.nodes[x].(digest := s'.nodes[x].digest, valid := s'.nodes[x].valid)
  }

  lemma {:induction false} ShapeKids(s: State, s': State, n: nat, ids: seq<nat>)
    requires SameShape(s, s')
    ensures Kids(s', n, ids) == Kids(s, n, ids)
  {
    if ids != [] {
      ShapeKids(s, s', n, ids[1..]);
    }
  }

  lemma {:induction false} ShapeEdges(s: State, s': State, es: seq<nat>)
    requires SameShape(s, s')
    ensures EdgeViews(s', es) == EdgeViews(s, es)
  {
    if es != [] {
      ShapeEdges(s, s', es[1..]);
    }
  }

  lemma ShapeKeeps(s: State, s': State, n: nat)
    requires SameShape(s, s') && n in s.nodes
    ensures OwnOf(s', n) == OwnOf(s, n) && KidsOf(s', n) == KidsOf(s, n)
  {
    ShapeKids(s, s', n, s.nodes[n].children);
    ShapeEdges(s, s', s.nodes[n].out);
  }

  /** The graph with the attributes of one node replaced. */
  ghost function WithAttrs(s: State, n: nat, attrs: seq<Attr>): State
    requires n in s.nodes
  {
    s.(nodes := s.nodes[n := s.nodes[n].(attrs := attrs)])
  }

  /** Every attribute array is ascending and fits its slots. */
  ghost predicate AttrsSorted(s: State) {
    forall n :: n in s.nodes ==> Ascending(s.nodes[n].attrs) && |s.nodes[n].attrs| <= MAX_ATTRS
  }

  lemma KeptSorted(s: State, s': State)
    requires forall x :: x in s'.nodes ==> x in s.nodes && s'.nodes[x].attrs == s.nodes[x].attrs
    ensures AttrsSorted(s) ==> AttrsSorted(s')
  {
    hide Ascending;
  }

  lemma InvalidatedSorted(s: State, s': State, m: Option<nat>)
    requires m.Some? ==> m.value in s.nodes
    requires InvalidatedFrom(s, s', m)
    ensures AttrsSorted(s) ==> AttrsSorted(s')
  {
    hide OnPath;
    KeptSorted(s, s');
  }

  lemma SetSorted(s: State, n: nat, key: seq<byte>, val: Value)
    requires n in s.nodes && AttrsSorted(s) && |key| <= KEY_MAX
    ensures AttrsSorted(WithAttrs(s, n, SetAttr(s.nodes[n].attrs, key, val, |s.nodes[n].attrs| < MAX_ATTRS)))
  {
    hide Ascending, SetAttr;
    PutIs(s.nodes[n].attrs, key, val);
  }

  lemma ChildSorted(s: State, p: nat, n: nat, kind: u64, labelText: Str)
    requires p in s.nodes && n !in s.nodes && AttrsSorted(s)
    ensures AttrsSorted(WithChild(s, p, n, kind, labelText))
  {
    var s1 := WithChild(s, p, n, kind, labelText);
    forall x | x in s1.nodes
      ensures Ascending(s1.nodes[x].attrs) && |s1.nodes[x].attrs| <= MAX_ATTRS
    {
      if x == n {
        assert s1.nodes[x].attrs == [];
      } else {
        assert s1.nodes[x].attrs == s.nodes[x].attrs;
      }
    }
  }

  /** The structural fields of every node are the same. */
  ghost predicate SameLinks(s: State, s': State) {
    && s'.edges == s.edges && s'.next == s.next && s'.nodes.Keys == s.nodes.Keys
    && forall x :: x in s.nodes ==>
         && s'.nodes[x].parent == s.nodes[x].parent && s'.nodes[x].children == s.nodes[x].children
         && s'.nodes[x].out == s.nodes[x].out && s'.nodes[x].inn == s.nodes[x].inn
  }

  lemma LinksTree(s: State, s': State, root: nat)
    requires SameLinks(s, s') && Tree(s, root)
    ensures Tree(s', root)
  {
    forall n | n in s'.nodes
      ensures NodeOk(s', root, n)
    {
      assert NodeOk(s, root, n);
    }
    forall e | e in s'.edges
      ensures EdgeOk(s', e)
    {
      assert EdgeOk(s, e);
    }
  }

  lemma ShapeScratch(h: seq<byte> -> Digest, s: State, s': State, n: nat)
    requires SameShape(s, s') && n in s.nodes
    ensures Scratch(h, s', n) == Scratch(h, s, n)
  {
    forall x | x in s.nodes
      ensures OwnOf(s', x) == OwnOf(s, x) && KidsOf(s', x) == KidsOf(s, x)
    {
      ShapeKeeps(s, s', x);
    }
    ScratchAgree(h, s, s', s.nodes.Keys, n);
  }

  ghost predicate OnPathOf(s: State, x: nat, m: Option<nat>)
    requires m.Some? ==> m.value in s.nodes
  {
    m.Some? && OnPath(s, x, m.value)
  }

  lemma {:induction false} PathBound(s: State, x: nat, n: nat)
    requires n in s.nodes && OnPath(s, x, n)
    ensures x <= n && x in s.nodes
    decreases n
  {
    if x != n {
      PathBound(s, x, s.nodes[n].parent.value);
    }
  }

  lemma PathStep(s: State, root: nat, n: nat)
    requires Tree(s, root) && n in s.nodes
    ensures var p := s.nodes[n].parent;
            && (p.Some? ==> p.value in s.nodes && p.value < n)
            && !OnPathOf(s, n, p)
            && forall x :: OnPathOf(s, x, Some(n)) <==> x == n || OnPathOf(s, x, p)
  {
    assert NodeOk(s, root, n);
    var p := s.nodes[n].parent;
    if OnPathOf(s, n, p) {
      PathBound(s, n, p.value);
    }
  }

  /** `s'` is `s` with the digests from `m` up to the root invalidated. */
  ghost predicate InvalidatedFrom(s: State, s': State, m: Option<nat>)
    requires m.Some? ==> m.value in s.nodes
  {
    && s'.edges == s.edges && s'.next == s.next && s'.nodes.Keys == s.nodes.Keys
    && forall x :: x in s.nodes ==>
         s'.nodes[x] == if OnPathOf(s, x, m) then s.nodes[x].(valid := false) else s.nodes[x]
  }

  /** Node `x` of `s1` is as valid as it was in `s`, with the same children. */
  ghost predicate CarriedKids(s: State, s1: State, x: nat)
    requires x in s1.nodes
  {
    && x in s.nodes && s.nodes[x].valid && s1.nodes[x].digest == s.nodes[x].digest
    && KidsOf(s1, x) == KidsOf(s, x)
    && forall c :: c in KidsOf(s1, x) ==> s1.nodes[c].valid == s.nodes[c].valid
  }

  ghost predicate Carried(s: State, s1: State, x: nat)
    requires x in s1.nodes
  {
    CarriedKids(s, s1, x) && OwnOf(s1, x) == OwnOf(s, x)
  }

  lemma InvalidatedAt(s: State, s1: State, s2: State, root: nat, m: Option<nat>, x: nat)
    requires Deep(s) && Tree(s1, root)
    requires m.Some? ==> m.value in s1.nodes
    requires InvalidatedFrom(s1, s2, m) && SameShape(s1, s2)
    requires x in s1.nodes && s2.nodes[x].valid && CarriedKids(s, s1, x)
    ensures CarriedKids(s, s2, x) && (forall c :: c in KidsOf(s2, x) ==> s2.nodes[c].valid)
    ensures OwnOf(s2, x) == OwnOf(s1, x)
  {
    hide OnPath, OwnOf, Tree;
    ShapeKeeps(s1, s2, x);
    forall c | c in KidsOf(s1, x)
      ensures s2.nodes[c].valid && s.nodes[c].valid
    {
      assert c in KidsOf(s, x);
      KidIsChild(s1, root, x, c);
      if OnPathOf(s1, c, m) {
        PathUp(s1, root, x, c, m.value);
      }
    }
  }

  /** A mutation that touches only nodes on the path it then invalidates. */
  lemma Invalidated(s: State, s1: State, s2: State, root: nat, m: Option<nat>)
    requires Deep(s) && Tree(s1, root)
    requires m.Some? ==> m.value in s1.nodes
    requires InvalidatedFrom(s1, s2, m)
    requires forall x :: x in s1.nodes && s1.nodes[x].valid && !OnPathOf(s1, x, m) ==> Carried(s, s1, x)
    ensures KeepsValid(s, s2) && Tree(s2, root)
  {
    hide OnPath, KidsOf, OwnOf, Tree, CarriedKids;
    assert SameShape(s1, s2);
    LinksTree(s1, s2, root);
    forall x | x in s2.nodes && s2.nodes[x].valid
      ensures Carried(s, s2, x) && forall c :: c in KidsOf(s2, x) ==> s2.nodes[c].valid
    {
      InvalidatedAt(s, s1, s2, root, m, x);
    }
    CarriedKeeps(s, s2);
  }

  lemma CarriedKeeps(s: State, s2: State)
    requires forall x :: x in s2.nodes && s2.nodes[x].valid ==>
               Carried(s, s2, x) && forall c :: c in KidsOf(s2, x) ==> s2.nodes[c].valid
    ensures KeepsValid(s, s2)
  {
    hide OwnOf, KidsOf;
  }

  /** The same for the children alone: validity below valid nodes survives. */
  lemma InvalidatedDeep(s: State, s1: State, s2: State, root: nat, m: Option<nat>)
    requires Deep(s) && Tree(s1, root)
    requires m.Some? ==> m.value in s1.nodes
    requires InvalidatedFrom(s1, s2, m)
    requires forall x :: x in s1.nodes && s1.nodes[x].valid && !OnPathOf(s1, x, m) ==> CarriedKids(s, s1, x)
    ensures Deep(s2) && Tree(s2, root)
  {
    hide OnPath, KidsOf, OwnOf, Tree, CarriedKids;
    assert SameShape(s1, s2);
    LinksTree(s1, s2, root);
    forall x | x in s2.nodes && s2.nodes[x].valid
      ensures forall c :: c in KidsOf(s2, x) ==> s2.nodes[c].valid
    {
      InvalidatedAt(s, s1, s2, root, m, x);
    }
  }

  lemma KidIsChild(s: State, root: nat, x: nat, c: nat)
    requires Tree(s, root) && x in s.nodes && c in KidsOf(s, x)
    ensures c in s.nodes && s.nodes[c].parent == Some(x)
  {
    assert NodeOk(s, root, x);
  }

  /** Changing the attributes of one node. */
  lemma LocalChange(s: State, s1: State, root: nat, n: nat)
    requires Tree(s, root) && n in s.nodes && n in s1.nodes
    requires s1 == s.(nodes := s.nodes[n := s.nodes[n].(attrs := s1.nodes[n].attrs)])
    ensures Tree(s1, root)
    ensures forall x :: x in s1.nodes && s1.nodes[x].valid && !OnPathOf(s1, x, Some(n)) ==> Carried(s, s1, x)
  {
    hide Carried, OnPath, Tree;
    LinksTree(s, s1, root);
    PathSelf(s1, n);
    forall x | x in s1.nodes && s1.nodes[x].valid && !OnPathOf(s1, x, Some(n))
      ensures Carried(s, s1, x)
    {
      ChildrenBound(s, root, x);
      CarriedIf(s, s1, x);
    }
  }

  lemma PathSelf(s: State, n: nat)
    requires n in s.nodes
    ensures OnPath(s, n, n)
  {
  }

  lemma ChildrenBound(s: State, root: nat, x: nat)
    requires Tree(s, root) && x in s.nodes
    ensures forall c :: c in s.nodes[x].children ==> c in s.nodes && c < s.next
  {
    assert NodeOk(s, root, x);
    forall c | c in s.nodes[x].children
      ensures c in s.nodes && c < s.next
    {
      assert NodeOk(s, root, c);
    }
  }

  lemma RootAndNext(s: State, root: nat, p: nat)
    requires Tree(s, root)
    ensures root in s.nodes && s.next !in s.nodes
    ensures p in s.nodes ==> p < s.next
  {
    assert s.next in s.nodes ==> NodeOk(s, root, s.next);
    assert p in s.nodes ==> NodeOk(s, root, p);
  }

  /** The graph with a new node at the end of the children of `p`. */
  ghost function WithChild(s: State, p: nat, n: nat, kind: u64, labelText: Str): State
    requires p in s.nodes
  {
    var child := Node(kind, labelText, [], false, Some(p), [], [], [], seq(32, _ => 0), false);
    var nodes := s.nodes[n := child];
    State(nodes[p := nodes[p].(children := nodes[p].children + [n])], s.edges, s.next + 1)
  }

  ghost predicate Created(s: State, s1: State, p: nat, n: nat)
  {
    && p in s.nodes && p < n && n == s.next && n !in s.nodes && n in s1.nodes
    && s1.edges == s.edges && s1.next == s.next + 1
    && s1.nodes.Keys == s.nodes.Keys + {n}
    && s1.nodes[p] == s.nodes[p].(children := s.nodes[p].children + [n])
    && s1.nodes[n].parent == Some(p) && s1.nodes[n].children == s1.nodes[n].out == s1.nodes[n].inn == []
    && !s1.nodes[n].valid
    && forall x :: x in s.nodes && x != p ==> s1.nodes[x] == s.nodes[x]
  }

  lemma CreateTree(s: State, s1: State, root: nat, p: nat, n: nat)
    requires Tree(s, root) && Created(s, s1, p, n)
    ensures Tree(s1, root)
  {
    hide NodeOk, EdgeOk, Created;
    CreatedOk(s, s1, root, p, n);
    forall x | x in s1.nodes
      ensures NodeOk(s1, root, x)
    {
      if x != n {
        assert NodeOk(s, root, x);
        CreateNodeOk(s, s1, root, p, n, x);
      }
    }
    forall e | e in s1.edges
      ensures EdgeOk(s1, e)
    {
      assert EdgeOk(s, e);
      CreateEdgeOk(s, s1, p, n, e);
    }
  }

  lemma CreatedOk(s: State, s1: State, root: nat, p: nat, n: nat)
    requires Tree(s, root) && Created(s, s1, p, n)
    ensures s1.edges == s.edges && n in s1.nodes && forall x :: x in s1.nodes <==> x == n || x in s.nodes
    ensures NodeOk(s1, root, n)
  {
    assert NodeOk(s, root, root);
  }

  lemma CreateEdgeOk(s: State, s1: State, p: nat, n: nat, e: nat)
    requires Created(s, s1, p, n) && e in s.edges && EdgeOk(s, e)
    ensures EdgeOk(s1, e)
  {
  }

  lemma CreateNodeOk(s: State, s1: State, root: nat, p: nat, n: nat, x: nat)
    requires Created(s, s1, p, n) && x in s.nodes && NodeOk(s, root, x)
    ensures NodeOk(s1, root, x)
  {
    DistinctMore(s.nodes[x].children, n);
    hide Distinct;
  }

  lemma DistinctMore(ids: seq<nat>, n: nat)
    ensures Distinct(ids) && n !in ids ==> Distinct(ids + [n])
  {
  }

  lemma CreateCarries(s: State, s1: State, root: nat, p: nat, n: nat)
    requires Tree(s, root) && Created(s, s1, p, n) && Deep(s)
    ensures forall x :: x in s1.nodes && s1.nodes[x].valid && !OnPathOf(s1, x, Some(p)) ==> Carried(s, s1, x)
  {
    hide Carried, OnPath, Tree;
    assert p in s1.nodes;
    hide Created;
    forall x | x in s1.nodes && s1.nodes[x].valid && !OnPathOf(s1, x, Some(p))
      ensures Carried(s, s1, x)
    {
      CreatedCarries(s, s1, root, p, n, x);
    }
  }

  lemma CreatedCarries(s: State, s1: State, root: nat, p: nat, n: nat, x: nat)
    requires Tree(s, root) && Created(s, s1, p, n)
    requires x in s1.nodes && s1.nodes[x].valid && !OnPathOf(s1, x, Some(p))
    ensures Carried(s, s1, x)
  {
    hide Carried, OnPath;
    PathSelf(s1, p);
    assert x in s.nodes && x != p;
    ChildrenBound(s, root, x);
    CreatedEdges(s, s1, root, p, n, x);
    hide EdgeView, Tree;
    CarriedIf(s, s1, x);
  }

  lemma CreatedEdges(s: State, s1: State, root: nat, p: nat, n: nat, x: nat)
    requires Tree(s, root) && Created(s, s1, p, n) && x in s.nodes
    ensures forall e :: e in s.nodes[x].out ==> EdgeView(s1, e) == EdgeView(s, e)
  {
    forall e | e in s.nodes[x].out
      ensures EdgeView(s1, e) == EdgeView(s, e)
    {
      assert NodeOk(s, root, x);
      assert EdgeOk(s, e);
    }
  }

  lemma ChildTree(s: State, root: nat, p: nat, n: nat, kind: u64, labelText: Str)
    requires Tree(s, root) && p in s.nodes && n == s.next
    ensures n !in s.nodes && Created(s, WithChild(s, p, n, kind, labelText), p, n)
    ensures Tree(WithChild(s, p, n, kind, labelText), root)
  {
    hide Tree;
    RootAndNext(s, root, p);
    CreateTree(s, WithChild(s, p, n, kind, labelText), root, p, n);
  }

  /** Hanging a new node below another and invalidating up from there. */
  lemma ChildKeeps(h: seq<byte> -> Digest, s: State, s2: State, root: nat, p: nat, n: nat, kind: u64, labelText: Str)
    requires Tree(s, root) && Deep(s) && p in s.nodes && n == s.next
    requires InvalidatedFrom(WithChild(s, p, n, kind, labelText), s2, Some(p))
    ensures Tree(s2, root) && Deep(s2) && (Coherent(h, s) ==> Coherent(h, s2)) && (AttrsSorted(s) ==> AttrsSorted(s2))
  {
    hide Tree, Deep, Coherent, OnPath, OnPathOf, KeepsValid, Carried, AttrsSorted;
    var s1 := WithChild(s, p, n, kind, labelText);
    ChildTree(s, root, p, n, kind, labelText);
    CreateCarries(s, s1, root, p, n);
    if AttrsSorted(s) {
      ChildSorted(s, p, n, kind, labelText);
    }
    assert s.next <= s2.next;
    hide WithChild, Created;
    Invalidated(s, s1, s2, root, Some(p));
    InvalidatedSorted(s1, s2, Some(p));
    hide InvalidatedFrom;
    CoherentFrame(h, s, s2);
  }

  /** Node `x` keeps its own fields, and its children and edges look the same. */
  lemma CarriedIf(s: State, s1: State, x: nat)
    requires x in s.nodes && x in s1.nodes && s.next <= s1.next && s1.nodes[x].valid
    requires s1.nodes[x] == s.nodes[x].(parent := s1.nodes[x].parent, inn := s1.nodes[x].inn)
    requires forall c :: c in s.nodes[x].children ==>
               && c in s.nodes && c < s.next && c in s1.nodes
               && s1.nodes[c].ephemeral == s.nodes[c].ephemeral && s1.nodes[c].valid == s.nodes[c].valid
    requires forall e :: e in s.nodes[x].out ==> EdgeView(s1, e) == EdgeView(s, e)
    ensures Carried(s, s1, x)
  {
    SameKids(s, s1, x, s.nodes[x].children);
    SameEdges(s, s1, s.nodes[x].out);
  }

  lemma {:induction false} SameKids(s: State, s1: State, n: nat, ids: seq<nat>)
    requires s.next <= s1.next
    requires forall c ::
               c in ids ==> c in s.nodes && c < s.next && c in s1.nodes && s1.nodes[c].ephemeral == s.nodes[c].ephemeral
    ensures Kids(s1, n, ids) == Kids(s, n, ids)
  {
    if ids != [] {
      assert ids[0] in ids && forall c :: c in ids[1..] ==> c in ids;
      SameKids(s, s1, n, ids[1..]);
    }
  }

  lemma {:induction false} SameEdges(s: State, s1: State, es: seq<nat>)
    requires forall e :: e in es ==> EdgeView(s1, e) == EdgeView(s, e)
    ensures EdgeViews(s1, es) == EdgeViews(s, es)
  {
    if es != [] {
      assert es[0] in es && forall e :: e in es[1..] ==> e in es;
      SameEdges(s, s1, es[1..]);
    }
  }

  /** Storing the from-scratch digest of a node whose children are all valid. */
  ghost predicate Marked(h: seq<byte> -> Digest, s: State, s1: State, n: nat) {
    && n in s.nodes && s1.edges == s.edges && s1.next == s.next
    && s1.nodes == s.nodes[n := s.nodes[n].(digest := Scratch(h, s, n), valid := true)]
    && forall c :: c in KidsOf(s, n) ==> s.nodes[c].valid
  }

  lemma MarkValid(h: seq<byte> -> Digest, s: State, s1: State, root: nat, n: nat)
    requires Tree(s, root) && Deep(s) && Coherent(h, s) && Marked(h, s, s1, n)
    ensures SameShape(s, s1) && Tree(s1, root) && Deep(s1) && Coherent(h, s1)
  {
    hide KidsOf, Scratch, Tree;
    LinksTree(s, s1, root);
    forall x | x in s1.nodes && s1.nodes[x].valid
      ensures s1.nodes[x].digest == Scratch(h, s1, x)
    {
      ShapeScratch(h, s, s1, x);
    }
    MarkedDeep(h, s, s1, root, n);
  }

  lemma MarkedDeep(h: seq<byte> -> Digest, s: State, s1: State, root: nat, n: nat)
    requires Deep(s) && Marked(h, s, s1, n)
    ensures Deep(s1)
  {
    hide KidsOf, Scratch;
    forall x, c | x in s1.nodes && s1.nodes[x].valid && c in KidsOf(s1, x)
      ensures s1.nodes[c].valid
    {
      ShapeKeeps(s, s1, x);
    }
  }
}
