/** kernel/graph/graph.c: the runtime graph with lazily computed Merkle digests. */
module RuntimeGraph {
  import opened Common
  import opened Bytes
  import opened DigestOrder
  import opened GraphEncoding
  import opened GraphState
  import opened GraphFrames
  import opened GraphEdges
  import opened GraphDestroy
  import opened DigestSelect

  class Graph {
    const hash: seq<byte> -> Digest
    const root: nat := 1
    var nodes: map<nat, Node>
    var edges: map<nat, Edge>
    var next: nat
    var nextEdge: nat

    ghost function S(): State
      reads this
    {
      State(nodes, edges, next)
    }

    ghost predicate Valid()
      reads this
    {
      && Tree(S(), root) && Deep(S())
      && (forall e :: e in edges ==> e < nextEdge)
    }

    ghost predicate Sorted()
      reads this
    {
      AttrsSorted(S())
    }

    ghost predicate Honest()
      reads this
    {
      Coherent(hash, S())
    }

    /** An otherwise empty graph: the root has no parent. */
    constructor (hash: seq<byte> -> Digest, kind: u64, labelText: Str)
      ensures Valid() && Honest() && this.hash == hash
      ensures nodes.Keys == {root} && edges == map[] && Sorted()
    {
      this.hash := hash;
      nodes := map[1 := Node(kind, labelText, [], false, None, [], [], [], seq(32, _ => 0), false)];
      edges := map[];
      next := 2;
      nextEdge := 0;
    }

    method InvalidateUp(start: Option<nat>)
      requires Tree(S(), root)
      requires start.Some? ==> start.value in nodes
      modifies this`nodes
      ensures InvalidatedFrom(old(S()), S(), start)
    {
      hide Tree, OnPath;
      var n := start;
      ghost var s := S();
      while n.Some?
        invariant edges == s.edges && next == s.next && nodes.Keys == s.nodes.Keys
        invariant n.Some? ==> n.value in s.nodes
        invariant forall x :: x in s.nodes ==> (OnPathOf(s, x, n) ==> OnPathOf(s, x, start))
        invariant forall x :: x in s.nodes ==>
                    nodes[x] == if OnPathOf(s, x, start) && !OnPathOf(s, x, n) then s.nodes[x].(valid := false)
                                else s.nodes[x]
        decreases if n.Some? then n.value + 1 else 0
      {
        var cur := n.value;
        PathStep(s, root, cur);
        nodes := nodes[cur := nodes[cur].(valid := false)];
        n := nodes[cur].parent;
      }
    }

    /** New nodes hang below their parent, or below the root if none is named. */
    method NodeCreate(kind: u64, labelText: Str, parent: Option<nat>, memory: bool) returns (r: Option<nat>)
      requires Valid()
      requires parent.Some? ==> parent.value in nodes
      modifies this
      ensures Valid() && (old(Honest()) ==> Honest()) && (old(Sorted()) ==> Sorted())
      ensures r.None? <==> !memory
      ensures r.None? ==> S() == old(S())
      ensures r.Some? ==>
                var p := if parent.Some? then parent.value else root;
                && p in old(nodes) && r.value == old(next) && r.value !in old(nodes)
                && InvalidatedFrom(WithChild(old(S()), p, r.value, kind, labelText), S(), Some(p))
                && nodes.Keys == old(nodes).Keys + {r.value}
                && nodes[p].children == old(nodes)[p].children + [r.value] && !nodes[p].valid
                && var x := nodes[r.value];
                   && x.kind == kind && x.labelText == labelText && x.attrs == [] && !x.ephemeral && !x.valid
                   && x.parent == Some(p) && x.children == [] && x.out == [] && x.inn == []
    {
      hide Tree, Deep, Coherent, OnPath, AttrsSorted, InvalidatedFrom;
      if !memory {
        return None;
      }
      var p := if parent.Some? then parent.value else root;
      var n := next;
      ghost var s := S();
      RootAndNext(s, root, p);
      ChildTree(s, root, p, n, kind, labelText);
      next := next + 1;
      nodes := nodes[n := Node(kind, labelText, [], false, Some(p), [], [], [], seq(32, _ => 0), false)];
      nodes := nodes[p := nodes[p].(children := nodes[p].children + [n])];
      assert S() == WithChild(s, p, n, kind, labelText);
      InvalidateUp(Some(p));
      NewChild(s, S(), p, n, kind, labelText);
      hide WithChild;
      ChildKeeps(hash, s, S(), root, p, n, kind, labelText);
      r := Some(n);
    }

    /** Make room at index `i` by shifting the tail up one place, from the end. */
    method InsertAt(attrs: seq<Attr>, i: nat, a: Attr) returns (r: seq<Attr>)
      requires i <= |attrs|
      ensures r == attrs[..i] + [a] + attrs[i..]
    {
      r := attrs + [a];
      var k := |attrs|;
      while k > i
        invariant i <= k <= |attrs| && |r| == |attrs| + 1
        invariant forall j :: 0 <= j < k ==> r[j] == attrs[j]
        invariant forall j :: k < j <= |attrs| ==> r[j] == attrs[j - 1]
      {
        r := r[k := r[k - 1]];
        k := k - 1;
      }
      r := r[i := a];
    }

    /** attr_slot and the assignment through it: find the sorted position of `key`,
        make room when it is new, and store the value. */
    method AttrSlot(attrs: seq<Attr>, key: seq<byte>, val: Value) returns (r: seq<Attr>, ok: bool)
      ensures r == SetAttr(attrs, key, val, |attrs| < MAX_ATTRS)
      ensures ok <==> Held(attrs, key) || |attrs| < MAX_ATTRS
      ensures !ok ==> r == attrs
    {
      hide Less, SetAttr;
      var i := 0;
      while i < |attrs| && attrs[i].key != key && Less(attrs[i].key, key)
        invariant i <= |attrs|
        invariant forall j :: 0 <= j < i ==> attrs[j].key != key && Less(attrs[j].key, key)
      {
        i := i + 1;
      }
      SetAttrAt(attrs, i, key, val, |attrs| < MAX_ATTRS);
      if i < |attrs| && attrs[i].key == key {
        return attrs[i := Attr(attrs[i].key, val)], true;
      }
      if |attrs| >= MAX_ATTRS {
        return attrs, false;
      }
      r := InsertAt(attrs, i, Attr(Truncate(key), val));
      ok := true;
    }

    /** rk_graph_set_u64 and its siblings: one typed value under a key. A new key is refused when
        all slots are taken, and then nothing is invalidated. */
    method Set(n: nat, key: seq<byte>, val: Value)
      requires Valid() && n in nodes
      modifies this`nodes
      ensures Valid() && (old(Honest()) ==> Honest()) && (old(Sorted()) && |key| <= KEY_MAX ==> Sorted())
      ensures var attrs := old(nodes[n].attrs);
              if Held(attrs, key) || |attrs| < MAX_ATTRS then
                InvalidatedFrom(WithAttrs(old(S()), n, SetAttr(attrs, key, val, |attrs| < MAX_ATTRS)), S(), Some(n))
              else
                S() == old(S()) && SetAttr(attrs, key, val, |attrs| < MAX_ATTRS) == attrs
    {
      hide Tree, Deep, Coherent, OnPath, KeepsValid, Carried;
      hide SetAttr, Held, AttrsSorted, OnPathOf;
      var attrs, ok := AttrSlot(nodes[n].attrs, key, val);
      if ok {
        ghost var s := S();
        if Sorted() && |key| <= KEY_MAX {
          SetSorted(s, n, key, val);
        }
        nodes := nodes[n := nodes[n].(attrs := attrs)];
        ghost var s1 := S();
        LocalChange(s, s1, root, n);
        InvalidateUp(Some(n));
        Invalidated(s, s1, S(), root, Some(n));
        InvalidatedSorted(s1, S(), Some(n));
        CoherentFrame(hash, s, S());
      }
    }

    method Touch(n: nat)
      requires Valid() && n in nodes
      modifies this`nodes
      ensures Valid() && (old(Honest()) ==> Honest()) && (old(Sorted()) ==> Sorted())
      ensures InvalidatedFrom(old(S()), S(), Some(n))
    {
      hide Tree, Deep, Coherent, OnPath, KeepsValid, Carried;
      hide AttrsSorted;
      ghost var s := S();
      LocalChange(s, s, root, n);
      InvalidateUp(Some(n));
      Invalidated(s, s, S(), root, Some(n));
      InvalidatedSorted(s, S(), Some(n));
      CoherentFrame(hash, s, S());
    }

    method Link(from: nat, to: nat, kind: u64, memory: bool) returns (r: Option<nat>)
      requires Valid() && from in nodes && to in nodes
      modifies this
      ensures Valid() && (old(Honest()) ==> Honest()) && (old(Sorted()) ==> Sorted())
      ensures r.None? <==> !memory
      ensures r.None? ==> S() == old(S())
      ensures r.Some? ==>
                && r.value !in old(edges) && edges == old(edges)[r.value := Edge(from, to, kind)]
                && InvalidatedFrom(AddEdge(old(S()), r.value, from, to, kind), S(), Some(from))
                && nodes.Keys == old(nodes).Keys && nodes[from].out == old(nodes)[from].out + [r.value]
                && nodes[to].inn == old(nodes)[to].inn + [r.value] && !nodes[from].valid
    {
      hide Tree, Deep, Coherent, OnPath, KeepsValid, Carried;
      if !memory {
        return None;
      }
      var e := nextEdge;
      ghost var s := S();
      edges := edges[e := Edge(from, to, kind)];
      nodes := nodes[from := nodes[from].(out := nodes[from].out + [e])];
      nodes := nodes[to := nodes[to].(inn := nodes[to].inn + [e])];
      nextEdge := nextEdge + 1;
      ghost var s1 := S();
      assert s1 == AddEdge(s, e, from, to, kind);
      KeptSorted(s, s1);
      hide AttrsSorted, OnPathOf;
      AddEdgeTree(s, root, e, from, to, kind);
      AddCarried(s, root, e, from, to, kind);
      ghost var out, inn := nodes[from].out, nodes[to].inn;
      hide AddEdge;
      InvalidateUp(Some(from));
      FromInvalid(s1, S(), from);
      Invalidated(s, s1, S(), root, Some(from));
      InvalidatedSorted(s1, S(), Some(from));
      CoherentFrame(hash, s, S());
      r := Some(e);
    }

    method Unlink(e: nat)
      requires Valid() && e in edges
      modifies this
      ensures Valid() && (old(Honest()) ==> Honest()) && (old(Sorted()) ==> Sorted())
      ensures edges == old(edges) - {e}
      ensures old(edges)[e].from in old(nodes) && old(edges)[e].to in old(nodes)
      ensures InvalidatedFrom(RemoveEdge(old(S()), e), S(), Some(old(edges)[e].from))
    {
      hide Tree, Deep, Coherent, OnPath, KeepsValid, Carried;
      ghost var s := S();
      EdgeEnds(s, root, e);
      var f := edges[e].from;
      Detach(e);
      ghost var s1 := S();
      KeptSorted(s, s1);
      hide AttrsSorted, OnPathOf;
      RemoveEdgeTree(s, root, e);
      RemoveCarried(s, root, e);
      hide RemoveEdge;
      InvalidateUp(Some(f));
      Invalidated(s, s1, S(), root, Some(f));
      InvalidatedSorted(s1, S(), Some(f));
      CoherentFrame(hash, s, S());
    }

    /** Take an edge off both its lists and free it. */
    method Detach(e: nat)
      requires e in edges && edges[e].from in nodes && edges[e].to in nodes
      modifies this`nodes, this`edges
      ensures S() == RemoveEdge(old(S()), e)
    {
      var f, t := edges[e].from, edges[e].to;
      nodes := nodes[f := nodes[f].(out := Without(nodes[f].out, e))];
      nodes := nodes[t := nodes[t].(inn := Without(nodes[t].inn, e))];
      edges := edges - {e};
    }

    /** Destroying a node never disturbs the tree. Cached digests all stay right if,
        and barring a hash collision only if, every valid source of an edge into the
        node lies on the path from its parent to the root: edges into the node are
        removed without invalidating where they came from. */
    method NodeDestroy(n: nat)
      requires Valid() && n in nodes
      modifies this
      ensures Valid() && (old(Sorted()) ==> Sorted())
      ensures n == root ==> S() == old(S())
      ensures n != root ==> Destroyed(old(S()), S(), n)
      ensures old(Honest() && SourcesCovered(S(), n)) ==> Honest()
      ensures n != root && old(Honest()) && Honest() && NoCollision(hash, old(S()), S()) ==> old(SourcesCovered(S(), n))
    {
      hide Tree, Deep, Coherent, OnPath, Leaving, Gone, SourcesCovered, NoCollision;
      hide AttrsSorted, Destroyed, OnPathOf, InvalidatedFrom;
      if n == root {
        return;
      }
      ghost var s0 := S();
      ParentOf(s0, root, n);
      var p := nodes[n].parent.value;
      LeavingStart(s0, root, n, p);
      DropEdges(n, p, s0);
      AdoptChildren(n, p, s0);
      ghost var s := S();
      Adopted(s0, s, root, n, p);
      FreeTree(s, root, n, p);
      LeavingGone(s0, s, root, n, p);
      nodes := nodes[p := nodes[p].(children := Without(nodes[p].children, n))] - {n};
      ghost var s1 := S();
      GoneParent(s0, s1, root, n, p);
      InvalidateUp(Some(p));
      GoneDestroyed(s0, s1, S(), root, n, p);
      GoneCaches(hash, s0, s1, S(), root, n, p);
    }

    /** Remove all edges at `n`: first those going out, then those coming in. */
    method DropEdges(n: nat, p: nat, ghost s0: State)
      requires Tree(S(), root) && Leaving(s0, S(), n, p) && n in nodes
      modifies this`nodes, this`edges
      ensures Tree(S(), root) && Leaving(s0, S(), n, p)
      ensures n in nodes && nodes[n].out == [] && nodes[n].inn == []
      ensures nodes.Keys == old(nodes).Keys
      ensures nodes[n].parent == old(nodes)[n].parent && edges.Keys <= old(edges).Keys
    {
      hide Tree, Leaving;
      while nodes[n].out != []
        invariant n in nodes && Tree(S(), root) && Leaving(s0, S(), n, p)
        invariant nodes.Keys == old(nodes).Keys
        invariant nodes[n].parent == old(nodes)[n].parent && edges.Keys <= old(edges).Keys
        decreases |nodes[n].out|
      {
        var e := nodes[n].out[0];
        DropOne(n, p, e, s0);
      }
      while nodes[n].inn != []
        invariant n in nodes && Tree(S(), root) && Leaving(s0, S(), n, p) && nodes[n].out == []
        invariant nodes.Keys == old(nodes).Keys
        invariant nodes[n].parent == old(nodes)[n].parent && edges.Keys <= old(edges).Keys
        decreases |nodes[n].inn|
      {
        var e := nodes[n].inn[0];
        DropOne(n, p, e, s0);
      }
    }

    method DropOne(n: nat, p: nat, e: nat, ghost s0: State)
      requires Tree(S(), root) && Leaving(s0, S(), n, p) && n in nodes && (e in nodes[n].out || e in nodes[n].inn)
      modifies this`nodes, this`edges
      ensures Tree(S(), root) && Leaving(s0, S(), n, p)
      ensures nodes.Keys == old(nodes).Keys && edges.Keys <= old(edges).Keys
      ensures nodes[n].parent == old(nodes)[n].parent
      ensures |nodes[n].out| <= |old(nodes)[n].out| && |nodes[n].inn| <= |old(nodes)[n].inn|
      ensures e in old(nodes)[n].out ==> |nodes[n].out| < |old(nodes)[n].out|
      ensures e in old(nodes)[n].inn ==> |nodes[n].inn| < |old(nodes)[n].inn|
    {
      hide Tree, Leaving;
      EdgeAt(S(), root, n, e);
      LeavingRemove(s0, S(), n, p, e);
      RemoveEdgeTree(S(), root, e);
      Detach(e);
    }

    /** Hand the children of `n` to its parent, one at a time. */
    method AdoptChildren(n: nat, p: nat, ghost s0: State)
      requires Tree(S(), root) && Leaving(s0, S(), n, p) && n in nodes && nodes[n].parent == Some(p)
      modifies this`nodes
      ensures Tree(S(), root) && Leaving(s0, S(), n, p)
      ensures nodes.Keys == old(nodes).Keys && nodes[n] == old(nodes)[n].(children := [])
    {
      hide Tree, Leaving;
      while nodes[n].children != []
        invariant n in nodes && Tree(S(), root) && Leaving(s0, S(), n, p)
        invariant nodes.Keys == old(nodes).Keys
        invariant nodes[n] == old(nodes)[n].(children := nodes[n].children)
        decreases |nodes[n].children|
      {
        var c := nodes[n].children[0];
        ghost var s := S();
        FamilyOf(s, root, n, p, c);
        AdoptTree(s, root, n, p, c);
        LeavingAdopt(s0, s, n, p, c);
        nodes := nodes[n := nodes[n].(children := Without(nodes[n].children, c))];
        nodes := nodes[c := nodes[c].(parent := Some(p))];
        nodes := nodes[p := nodes[p].(children := nodes[p].children + [c])];
        assert S() == Adopt(s, n, p, c);
      }
    }

    // ---- digests

    /** The smallest child digest not emitted yet. */
    method NextSmallest(n: nat, prev: Option<Digest>, ghost ds: seq<Digest>) returns (best: Option<Digest>)
      requires n in nodes && ChildrenHere(S(), n) && ds == KidDigests(S(), n, nodes[n].children)
      ensures best.Some? ==> best.value in ds && Beyond(prev, best.value)
      ensures best.Some? ==> forall d :: d in ds && Beyond(prev, d) ==> AtMost(best.value, d)
      ensures best.None? ==> forall d :: d in ds ==> !Beyond(prev, d)
    {
      hide Less, KidDigests;
      var list := nodes[n].children;
      best := None;
      ghost var seen: seq<Digest> := [];
      NoDigests(S(), n);
      for i := 0 to |list|
        invariant seen == KidDigests(S(), n, list[..i])
        invariant best.Some? ==> best.value in seen && Beyond(prev, best.value)
        invariant best.Some? ==> forall d :: d in seen && Beyond(prev, d) ==> AtMost(best.value, d)
        invariant best.None? ==> forall d :: d in seen ==> !Beyond(prev, d)
      {
        assert list[..i + 1] == list[..i] + [list[i]];
        KidDigestsSnoc(S(), n, list[..i], list[i]);
        var ch := nodes[list[i]];
        ghost var before := seen;
        seen := seen + if ch.ephemeral then [] else [ch.digest];
        if ch.ephemeral || !Beyond(prev, ch.digest) {
          continue;
        }
        if best.None? || Less(ch.digest, best.value) {
          if best.Some? {
            SmallerStill(before, prev, best.value, ch.digest);
          }
          best := Some(ch.digest);
        } else {
          LessTotal(ch.digest, best.value);
        }
      }
      assert list[..|list|] == list;
    }

    /** How many children carry this digest. */
    method CountEqual(n: nat, best: Digest, ghost ds: seq<Digest>) returns (dups: nat)
      requires n in nodes && ChildrenHere(S(), n) && ds == KidDigests(S(), n, nodes[n].children)
      ensures dups == multiset(ds)[best]
    {
      hide KidDigests;
      var list := nodes[n].children;
      dups := 0;
      NoDigests(S(), n);
      for i := 0 to |list|
        invariant dups == multiset(KidDigests(S(), n, list[..i]))[best]
      {
        assert list[..i + 1] == list[..i] + [list[i]];
        KidDigestsSnoc(S(), n, list[..i], list[i]);
        var ch := nodes[list[i]];
        if !ch.ephemeral && ch.digest == best {
          dups := dups + 1;
        }
      }
      assert list[..|list|] == list;
    }

    /** Emit one digest once per occurrence. */
    method EmitRun(c1: seq<byte>, best: Digest, dups: nat, done: nat, nkids: nat, ghost c0: seq<byte>,
            ghost sel: seq<Digest>)
        returns (c: seq<byte>, emitted: nat)
      requires done == |sel| && done + dups <= nkids && c1 == c0 + Concat(sel)
      ensures emitted == done + dups && c == c0 + Concat(sel + Copies(best, dups))
    {
      hide Concat;
      c, emitted := c1, done;
      var k := 0;
      assert sel + Copies(best, 0) == sel;
      while k < dups && emitted < nkids
        invariant k <= dups && emitted == done + k && emitted + (dups - k) <= nkids
        invariant c == c0 + Concat(sel + Copies(best, k))
      {
        ConcatAppend(sel + Copies(best, k), best);
        assert sel + Copies(best, k + 1) == (sel + Copies(best, k)) + [best];
        c := c + best;
        k, emitted := k + 1, emitted + 1;
      }
    }

    /** Feed the child digests to the hash in ascending order, with multiplicity,
        using no memory beyond the last digest emitted. */
    method EmitChildren(n: nat, c0: seq<byte>, nkids: nat, ghost ds: seq<Digest>) returns (c: seq<byte>)
      requires n in nodes && ChildrenHere(S(), n) && ds == KidDigests(S(), n, nodes[n].children) && nkids == |ds|
      ensures c == c0 + Concat(Sort(ds))
    {
      hide Picked, Beyond, AtMost, KidDigests;
      c := c0;
      var prev: Option<Digest> := None;
      var emitted := 0;
      ghost var sel: seq<Digest> := [];
      PickedStart(ds);
      while emitted < nkids
        invariant emitted == |sel| <= nkids && c == c0 + Concat(sel) && Picked(ds, sel, prev)
        decreases nkids - emitted
      {
        var best := NextSmallest(n, prev, ds);
        if best.None? {
          break;
        }
        var dups := CountEqual(n, best.value, ds);
        PickedFits(ds, sel, prev, best.value);
        PickedNext(ds, sel, prev, best.value);
        c, emitted := EmitRun(c, best.value, dups, emitted, nkids, c0, sel);
        sel := sel + Copies(best.value, dups);
        prev := best;
      }
      PickedAll(ds, sel, prev);
    }

    method PutAttrs(attrs: seq<Attr>, c0: seq<byte>) returns (c: seq<byte>)
      ensures c == c0 + EncAttrs(attrs)
    {
      hide EncAttr;
      c := c0;
      assert attrs[..0] == [];
      for i := 0 to |attrs|
        invariant c == c0 + EncAttrs(attrs[..i])
      {
        assert attrs[..i + 1] == attrs[..i] + [attrs[i]];
        AttrsSnoc(attrs[..i], attrs[i]);
        Assoc(c0, EncAttrs(attrs[..i]), EncAttr(attrs[i]));
        c := c + EncAttr(attrs[i]);
      }
      assert attrs[..|attrs|] == attrs;
    }

    method PutEdges(n: nat, c0: seq<byte>) returns (c: seq<byte>)
      requires n in nodes && forall e :: e in nodes[n].out ==> e in edges && edges[e].to in nodes
      ensures c == c0 + EncEdges(EdgeViews(S(), nodes[n].out))
    {
      hide Be64;
      c := c0;
      var es := nodes[n].out;
      assert es[..0] == [];
      for i := 0 to |es|
        invariant c == c0 + EncEdges(EdgeViews(S(), es[..i]))
      {
        assert es[..i + 1] == es[..i] + [es[i]];
        ViewsSnoc(S(), es[..i], es[i]);
        ghost var v := EdgeView(S(), es[i]);
        ghost var done := EncEdges(EdgeViews(S(), es[..i]));
        EdgesSnoc(EdgeViews(S(), es[..i]), v);
        Assoc(c0, done, Be64(v.0));
        Assoc(c0, done + Be64(v.0), Be64(v.1));
        c := c + Be64(edges[es[i]].kind);
        c := c + Be64(nodes[edges[es[i]].to].kind);
      }
      assert es[..|es|] == es;
    }

    /** Make every child digest that takes part valid, and count them. */
    method FreshenChildren(n: nat) returns (nkids: nat)
      requires Valid() && Honest() && n in nodes
      modifies this`nodes
      ensures Valid() && Honest() && SameShape(old(S()), S())
      ensures forall x :: x in nodes && old(nodes)[x].valid ==> nodes[x] == old(nodes)[x]
      ensures forall c :: c in KidsOf(S(), n) ==> nodes[c].valid
      ensures nkids == |KidsOf(S(), n)|
      decreases next - n, 0
    {
      hide Tree, Deep, Coherent, Scratch, Kids;
      var list := nodes[n].children;
      nkids := 0;
      ghost var s0 := S();
      ChildrenAreHere(s0, root, n);
      KidsNone(s0, n);
      for i := 0 to |list|
        invariant Valid() && Honest() && SameShape(s0, S())
        invariant forall x :: x in nodes && s0.nodes[x].valid ==> nodes[x] == s0.nodes[x]
        invariant forall c :: c in Kids(s0, n, list[..i]) ==> nodes[c].valid
        invariant nkids == |Kids(s0, n, list[..i])|
      {
        var ch := list[i];
        assert list[..i + 1] == list[..i] + [ch];
        KidsSnoc(s0, n, list[..i], ch);
        if nodes[ch].ephemeral {
          continue;
        }
        Refresh(ch);
        nkids := nkids + 1;
      }
      assert list[..|list|] == list;
      ShapeKeeps(s0, S(), n);
    }

    /** node_digest_locked: the digest of a subtree, reusing every valid cache below. */
    method NodeDigest(n: nat) returns (out: Digest)
      requires Valid() && Honest() && n in nodes
      modifies this`nodes
      ensures Valid() && Honest() && SameShape(old(S()), S())
      ensures forall x :: x in nodes && old(nodes)[x].valid ==> nodes[x] == old(nodes)[x]
      ensures forall c :: c in KidsOf(S(), n) ==> nodes[c].valid
      ensures out == Scratch(hash, S(), n)
      decreases next - n, 1
    {
      hide Tree, Deep, Coherent, Encode, EncAttrs, EncEdges, Be64, PutBytes;
      var c := Be64(nodes[n].kind) + PutBytes(nodes[n].labelText) + Be64(Count(|nodes[n].attrs|));
      c := PutAttrs(nodes[n].attrs, c);
      var nkids := FreshenChildren(n);
      ghost var s := S();
      ChildrenAreHere(s, root, n);
      ghost var ds := KidDigests(s, n, nodes[n].children);
      KidDigestsRight(hash, s, n, nodes[n].children);
      c := c + Be64(Count(nkids));
      c := EmitChildren(n, c, nkids, ds);
      EdgesAreHere(s, root, n);
      c := c + Be64(Count(|nodes[n].out|));
      c := PutEdges(n, c);
      SortSorts(ds);
      assert |Sort(ds)| == |multiset(Sort(ds))| == |ds|;
      EncodeFlat(OwnOf(s, n), Sort(ds));
      out := hash(c);
    }

    /** Compute and store a digest that is not valid. */
    method Refresh(n: nat)
      requires Valid() && Honest() && n in nodes
      modifies this`nodes
      ensures Valid() && Honest() && SameShape(old(S()), S()) && nodes[n].valid
      ensures forall x :: x in nodes && old(nodes)[x].valid ==> nodes[x] == old(nodes)[x]
      decreases next - n, 2
    {
      hide Tree, Deep, Scratch, KidsOf, Coherent;
      if !nodes[n].valid {
        var d := NodeDigest(n);
        ghost var s := S();
        nodes := nodes[n := nodes[n].(digest := d, valid := true)];
        MarkValid(hash, s, S(), root, n);
      }
    }

    /** rk_graph_digest: whatever happened before, the caller gets the digest a
        from-scratch recursion over the subtree would compute. */
    method GetDigest(n: nat) returns (out: Digest)
      requires Valid() && Honest() && n in nodes
      modifies this`nodes
      ensures Valid() && Honest() && SameShape(old(S()), S())
      ensures nodes[n].valid && out == nodes[n].digest == Scratch(hash, old(S()), n)
      ensures forall x :: x in nodes && old(nodes)[x].valid ==> nodes[x] == old(nodes)[x]
    {
      hide Tree, Deep, Scratch, KidsOf;
      ghost var s0 := S();
      Refresh(n);
      ShapeScratch(hash, s0, S(), n);
      out := nodes[n].digest;
    }
  }

  lemma ChildrenAreHere(s: State, root: nat, n: nat)
    requires Tree(s, root) && n in s.nodes
    ensures ChildrenHere(s, n)
  {
    assert NodeOk(s, root, n);
    forall c | c in s.nodes[n].children
      ensures c in s.nodes && n < c < s.next
    {
      assert NodeOk(s, root, c);
    }
  }

  lemma NoDigests(s: State, n: nat)
    ensures KidDigests(s, n, []) == []
  {
  }

  lemma KidsNone(s: State, n: nat)
    ensures Kids(s, n, []) == []
  {
  }

  lemma EdgesAreHere(s: State, root: nat, n: nat)
    requires Tree(s, root) && n in s.nodes
    ensures forall e :: e in s.nodes[n].out ==> e in s.edges && s.edges[e].to in s.nodes
  {
    assert NodeOk(s, root, n);
    forall e | e in s.nodes[n].out
      ensures e in s.edges && s.edges[e].to in s.nodes
    {
      assert EdgeOk(s, e);
    }
  }

  /** Every child is a live node with a larger id. */
  ghost predicate ChildrenHere(s: State, n: nat)
    requires n in s.nodes
  {
    forall c :: c in s.nodes[n].children ==> c in s.nodes && n < c < s.next
  }

  lemma SmallerStill(ds: seq<Digest>, prev: Option<Digest>, best: Digest, d: Digest)
    requires forall x :: x in ds && Beyond(prev, x) ==> AtMost(best, x)
    requires Less(d, best)
    ensures forall x :: x in ds && Beyond(prev, x) ==> AtMost(d, x)
  {
    forall x | x in ds && Beyond(prev, x)
      ensures AtMost(d, x)
    {
      AtMostTransitive(d, best, x);
    }
  }

  lemma FromInvalid(s: State, s': State, n: nat)
    requires n in s.nodes && InvalidatedFrom(s, s', Some(n))
    ensures n in s'.nodes && !s'.nodes[n].valid
    ensures forall x :: x in s.nodes ==>
              x in s'.nodes && s'.nodes[x] == s.nodes[x].(valid := s'.nodes[x].valid)
  {
    PathSelf(s, n);
  }

  lemma NewChild(s: State, s': State, p: nat, n: nat, kind: u64, labelText: Str)
    requires p in s.nodes && n !in s.nodes && InvalidatedFrom(WithChild(s, p, n, kind, labelText), s', Some(p))
    ensures s'.nodes.Keys == s.nodes.Keys + {n}
    ensures p in s'.nodes && s'.nodes[p].children == s.nodes[p].children + [n] && !s'.nodes[p].valid
    ensures n in s'.nodes
            && var x := s'.nodes[n];
               && x.kind == kind && x.labelText == labelText && x.attrs == [] && !x.ephemeral && !x.valid
               && x.parent == Some(p) && x.children == [] && x.out == [] && x.inn == []
  {
    hide InvalidatedFrom;
    FromInvalid(WithChild(s, p, n, kind, labelText), s', p);
    InvalidKeys(WithChild(s, p, n, kind, labelText), s', p);
  }

  lemma InvalidKeys(s: State, s': State, n: nat)
    requires n in s.nodes && InvalidatedFrom(s, s', Some(n))
    ensures s'.nodes.Keys == s.nodes.Keys
    ensures forall x :: x in s.nodes && !s.nodes[x].valid ==> x in s'.nodes && !s'.nodes[x].valid
  {
    hide OnPathOf;
  }

  lemma ParentOf(s: State, root: nat, n: nat)
    requires Tree(s, root) && n in s.nodes && n != root
    ensures s.nodes[n].parent.Some? && s.nodes[n].parent.value in s.nodes && s.nodes[n].parent.value < n
  {
    assert NodeOk(s, root, n);
  }

  lemma EdgeAt(s: State, root: nat, n: nat, e: nat)
    requires Tree(s, root) && n in s.nodes && (e in s.nodes[n].out || e in s.nodes[n].inn)
    ensures e in s.edges && (s.edges[e].from == n || s.edges[e].to == n)
    ensures s.edges[e].from in s.nodes && s.edges[e].to in s.nodes
    ensures e in s.nodes[n].out ==> s.edges[e].from == n
    ensures e in s.nodes[n].inn ==> s.edges[e].to == n
    ensures forall x :: x in s.nodes && e in s.nodes[x].out ==> x == s.edges[e].from
    ensures forall x :: x in s.nodes && e in s.nodes[x].inn ==> x == s.edges[e].to
  {
    hide Distinct;
    assert NodeOk(s, root, n);
    assert EdgeOk(s, e);
    forall x | x in s.nodes
      ensures e in s.nodes[x].out ==> x == s.edges[e].from
      ensures e in s.nodes[x].inn ==> x == s.edges[e].to
    {
      assert NodeOk(s, root, x);
    }
  }
}
