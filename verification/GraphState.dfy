/** The runtime graph as data: nodes, edges, and the digest a from-scratch recursion
    over a subtree would compute. Nodes and edges are named by their ids. */
module GraphState {
  import opened Common
  import opened Bytes
  import opened DigestOrder
  import opened GraphEncoding

  datatype Node = Node(kind: u64, labelText: Str, attrs: seq<Attr>, ephemeral: bool,
                       parent: Option<nat>, children: seq<nat>, out: seq<nat>, inn: seq<nat>,
                       digest: Digest, valid: bool)

  datatype Edge = Edge(from: nat, to: nat, kind: u64)

  datatype State = State(nodes: map<nat, Node>, edges: map<nat, Edge>, next: nat)

  /** Parent links and child lists agree and ids grow downwards; edge lists agree
      with the edges. Ids grow because a node is created under an existing parent
      and is only ever moved to its grandparent. */
  ghost predicate Tree(s: State, root: nat) {
    && root in s.nodes
    && (forall n :: n in s.nodes ==> NodeOk(s, root, n))
    && (forall e :: e in s.edges ==> EdgeOk(s, e))
  }

  ghost predicate NodeOk(s: State, root: nat, n: nat)
    requires n in s.nodes
  {
    var x := s.nodes[n];
    && n < s.next
    && (x.parent.None? <==> n == root)
    && (x.parent.Some? ==> x.parent.value in s.nodes && x.parent.value < n && n in s.nodes[x.parent.value].children)
    && (forall c :: c in x.children ==> c in s.nodes && s.nodes[c].parent == Some(n))
    && (forall e :: e in x.out ==> e in s.edges && s.edges[e].from == n)
    && (forall e :: e in x.inn ==> e in s.edges && s.edges[e].to == n)
    && Distinct(x.children) && Distinct(x.out) && Distinct(x.inn)
  }

  ghost predicate EdgeOk(s: State, e: nat)
    requires e in s.edges
  {
    var x := s.edges[e];
    x.from in s.nodes && x.to in s.nodes && e in s.nodes[x.from].out && e in s.nodes[x.to].inn
  }

  /** The children that take part in the digest. */
  ghost function Kids(s: State, n: nat, ids: seq<nat>): (r: seq<nat>)
    ensures forall c :: c in r ==> c in ids && c in s.nodes && n < c < s.next && !s.nodes[c].ephemeral
  {
    if ids == [] then []
    else if ids[0] in s.nodes && n < ids[0] < s.next && !s.nodes[ids[0]].ephemeral then [ids[0]] + Kids(s, n, ids[1..])
    else Kids(s, n, ids[1..])
  }

  ghost function KidsOf(s: State, n: nat): (r: seq<nat>)
    requires n in s.nodes
    ensures forall c :: c in r ==> c in s.nodes[n].children && c in s.nodes && n < c < s.next && !s.nodes[c].ephemeral
  {
    Kids(s, n, s.nodes[n].children)
  }

  ghost function EdgeView(s: State, e: nat): (u64, u64) {
    if e in s.edges && s.edges[e].to in s.nodes then (s.edges[e].kind, s.nodes[s.edges[e].to].kind) else (0, 0)
  }

  ghost function EdgeViews(s: State, es: seq<nat>): (r: seq<(u64, u64)>)
    ensures |r| == |es|
  {
    if es == [] then [] else [EdgeView(s, es[0])] + EdgeViews(s, es[1..])
  }

  ghost function OwnOf(s: State, n: nat): Own
    requires n in s.nodes
  {
    Own(s.nodes[n].kind, s.nodes[n].labelText, s.nodes[n].attrs, EdgeViews(s, s.nodes[n].out))
  }

  /** The digest of the subtree at `n`, computed from scratch. */
  ghost function Scratch(h: seq<byte> -> Digest, s: State, n: nat): Digest
    requires n in s.nodes
    decreases s.next - n, 1, 0
  {
    h(Preimage(h, s, n))
  }

  ghost function Preimage(h: seq<byte> -> Digest, s: State, n: nat): seq<byte>
    requires n in s.nodes
    decreases s.next - n, 0, |KidsOf(s, n)| + 1
  {
    Encode(OwnOf(s, n), Sort(ScratchAll(h, s, n, KidsOf(s, n))))
  }

  ghost function ScratchAll(h: seq<byte> -> Digest, s: State, n: nat, ids: seq<nat>): (r: seq<Digest>)
    requires forall c :: c in ids ==> c in s.nodes && n < c < s.next
    ensures |r| == |ids|
    decreases s.next - n, 0, |ids|
  {
    if ids == [] then []
    else
      assert ids[0] in ids && forall c :: c in ids[1..] ==> c in ids;
      [Scratch(h, s, ids[0])] + ScratchAll(h, s, n, ids[1..])
  }

  /** Every cached digest is the one a from-scratch recursion would compute. */
  ghost predicate Coherent(h: seq<byte> -> Digest, s: State) {
    forall n :: n in s.nodes && s.nodes[n].valid ==> s.nodes[n].digest == Scratch(h, s, n)
  }

  /** Below a valid digest everything that went into it is valid. */
  ghost predicate Deep(s: State) {
    forall n, c :: n in s.nodes && s.nodes[n].valid && c in KidsOf(s, n) ==> s.nodes[c].valid
  }

  /** `x` is `n` or one of its ancestors. */
  ghost predicate OnPath(s: State, x: nat, n: nat)
    requires n in s.nodes
    decreases n
  {
    x == n ||
    (s.nodes[n].parent.Some? && s.nodes[n].parent.value in s.nodes && s.nodes[n].parent.value < n
     && OnPath(s, x, s.nodes[n].parent.value))
  }

  lemma {:induction false} PathUp(s: State, root: nat, x: nat, c: nat, n: nat)
    requires Tree(s, root) && n in s.nodes && c in s.nodes && s.nodes[c].parent == Some(x)
    requires OnPath(s, c, n)
    ensures OnPath(s, x, n)
    decreases n
  {
    assert NodeOk(s, root, n);
    if c == n {
      assert OnPath(s, x, x);
    } else {
      PathUp(s, root, x, c, s.nodes[n].parent.value);
    }
  }

  /** On a set of nodes closed under "child of", equal contents give equal digests. */
  ghost predicate Agree(s: State, s': State, u: set<nat>) {
    forall x :: x in u ==>
      && x in s.nodes && x in s'.nodes
      && OwnOf(s', x) == OwnOf(s, x) && KidsOf(s', x) == KidsOf(s, x)
      && forall c :: c in KidsOf(s, x) ==> c in u
  }

  lemma {:induction false} ScratchAgree(h: seq<byte> -> Digest, s: State, s': State, u: set<nat>, n: nat)
    requires Agree(s, s', u) && n in u && s.next <= s'.next
    ensures Scratch(h, s', n) == Scratch(h, s, n)
    decreases s.next - n, 1, 0
  {
    ScratchAllAgree(h, s, s', u, n, KidsOf(s, n));
  }

  lemma {:induction false} ScratchAllAgree(h: seq<byte> -> Digest, s: State, s': State, u: set<nat>, n: nat,
                                           ids: seq<nat>)
    requires Agree(s, s', u) && s.next <= s'.next
    requires forall c :: c in ids ==> c in u && n < c < s.next && c in s.nodes && c in s'.nodes
    ensures ScratchAll(h, s', n, ids) == ScratchAll(h, s, n, ids)
    decreases s.next - n, 0, |ids|
  {
    if ids != [] {
      assert ids[0] in ids && forall c :: c in ids[1..] ==> c in ids;
      ScratchAgree(h, s, s', u, ids[0]);
      ScratchAllAgree(h, s, s', u, n, ids[1..]);
    }
  }

  /** What a mutation must do to keep the caches honest: a node that is still valid
      afterwards was valid before, has the same digest and contents, and only valid
      children. */
  ghost predicate KeepsValid(s: State, s': State) {
    forall x :: x in s'.nodes && s'.nodes[x].valid ==>
      && x in s.nodes && s.nodes[x].valid && s'.nodes[x].digest == s.nodes[x].digest
      && OwnOf(s', x) == OwnOf(s, x) && KidsOf(s', x) == KidsOf(s, x)
      && forall c :: c in KidsOf(s', x) ==> s'.nodes[c].valid
  }

  lemma CoherentFrame(h: seq<byte> -> Digest, s: State, s': State)
    requires KeepsValid(s, s') && s.next <= s'.next
    ensures Deep(s')
    ensures Coherent(h, s) ==> Coherent(h, s')
  {
    var u := set x | x in s'.nodes && s'.nodes[x].valid;
    assert Agree(s, s', u);
    forall n | n in u && Coherent(h, s)
      ensures s'.nodes[n].digest == Scratch(h, s', n)
    {
      ScratchAgree(h, s, s', u, n);
    }
  }

  ghost function OneDigest(s: State, n: nat, c: nat): (r: seq<Digest>) {
    if c in s.nodes && n < c < s.next && !s.nodes[c].ephemeral then [s.nodes[c].digest] else []
  }

  /** The digests stored in the children that take part. */
  ghost function KidDigests(s: State, n: nat, ids: seq<nat>): (r: seq<Digest>)
    ensures |r| == |Kids(s, n, ids)|
  {
    if ids == [] then [] else OneDigest(s, n, ids[0]) + KidDigests(s, n, ids[1..])
  }

  lemma {:induction false} KidDigestsSnoc(s: State, n: nat, ids: seq<nat>, x: nat)
    requires x in s.nodes && n < x < s.next
    ensures KidDigests(s, n, ids + [x]) ==
            KidDigests(s, n, ids) + (if s.nodes[x].ephemeral then [] else [s.nodes[x].digest])
  {
    if ids == [] {
      assert ids + [x] == [x];
      assert KidDigests(s, n, [x]) == OneDigest(s, n, x) + [];
    } else {
      hide OneDigest;
      KidDigestsSnoc(s, n, ids[1..], x);
      assert (ids + [x])[1..] == ids[1..] + [x];
    }
  }

  lemma {:induction false} KidDigestsRight(h: seq<byte> -> Digest, s: State, n: nat, ids: seq<nat>)
    requires Coherent(h, s) && forall c :: c in Kids(s, n, ids) ==> s.nodes[c].valid
    ensures KidDigests(s, n, ids) == ScratchAll(h, s, n, Kids(s, n, ids))
  {
    if ids != [] {
      assert forall c :: c in Kids(s, n, ids[1..]) ==> c in Kids(s, n, ids);
      KidDigestsRight(h, s, n, ids[1..]);
      if ids[0] in s.nodes && n < ids[0] < s.next && !s.nodes[ids[0]].ephemeral {
        assert ids[0] in Kids(s, n, ids);
        assert Kids(s, n, ids)[1..] == Kids(s, n, ids[1..]);
      }
    }
  }

  lemma {:induction false} ViewsSnoc(s: State, es: seq<nat>, e: nat)
    ensures EdgeViews(s, es + [e]) == EdgeViews(s, es) + [EdgeView(s, e)]
  {
    if es == [] {
      assert es + [e] == [e];
    } else {
      assert (es + [e])[1..] == es[1..] + [e];
      ViewsSnoc(s, es[1..], e);
    }
  }

  lemma {:induction false} KidsSnoc(s: State, n: nat, ids: seq<nat>, x: nat)
    requires x in s.nodes && n < x < s.next
    ensures Kids(s, n, ids + [x]) == Kids(s, n, ids) + (if s.nodes[x].ephemeral then [] else [x])
  {
    if ids == [] {
      assert ids + [x] == [x];
    } else {
      KidsSnoc(s, n, ids[1..], x);
      assert (ids + [x])[1..] == ids[1..] + [x];
    }
  }

  ghost function KidInputs(h: seq<byte> -> Digest, s: State, n: nat): seq<Digest>
    requires n in s.nodes
  {
    ScratchAll(h, s, n, KidsOf(s, n))
  }

  /** Node identity: barring a collision of the two hashed strings, digests are equal
      exactly when kind, label, attributes and edges are equal and the child digests
      are equal as multisets. Sibling order never matters. */
  lemma DigestIdentity(h: seq<byte> -> Digest, s: State, x: nat, t: State, y: nat)
    requires x in s.nodes && y in t.nodes
    requires Fits(OwnOf(s, x), KidInputs(h, s, x)) && Fits(OwnOf(t, y), KidInputs(h, t, y))
    requires Scratch(h, s, x) == Scratch(h, t, y) ==> Preimage(h, s, x) == Preimage(h, t, y)
    ensures Scratch(h, s, x) == Scratch(h, t, y) <==>
            OwnOf(s, x) == OwnOf(t, y) && multiset(KidInputs(h, s, x)) == multiset(KidInputs(h, t, y))
  {
    hide Encode, KidsOf, OwnOf;
    var ka, kb := KidInputs(h, s, x), KidInputs(h, t, y);
    SortCanonical(ka, kb);
    SortLength(ka);
    SortLength(kb);
    if Preimage(h, s, x) == Preimage(h, t, y) {
      EncodeInjective(OwnOf(s, x), Sort(ka), OwnOf(t, y), Sort(kb));
    }
  }
}
