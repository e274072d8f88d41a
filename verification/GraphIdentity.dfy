/** Identity of whole subtrees of the runtime graph (kernel/graph/graph.c): what a digest stands for once
    the cached fields and the order of siblings are forgotten, and which orders of setting attributes show. */
module GraphIdentity {
  import opened Bytes
  import opened DigestOrder
  import opened AttrOrder
  import opened GraphEncoding
  import opened GraphState
  import opened GraphFrames

  // ---- what a node hashes, in terms of the graph

  /** The edges out of a node are there, with their targets. */
  ghost predicate Joined(s: State, n: nat) {
    n in s.nodes && forall e :: e in s.nodes[n].out ==> e in s.edges && s.edges[e].to in s.nodes
  }

  ghost predicate Whole(s: State) {
    forall n :: n in s.nodes ==> Joined(s, n)
  }

  lemma TreeWhole(s: State, root: nat)
    requires Tree(s, root)
    ensures Whole(s)
  {
    forall n | n in s.nodes
      ensures Joined(s, n)
    {
      assert NodeOk(s, root, n);
      forall e | e in s.nodes[n].out
        ensures e in s.edges && s.edges[e].to in s.nodes
      {
        assert EdgeOk(s, e);
      }
    }
  }

  /** The kind of each edge out of a node and of what it points to. */
  ghost function Links(s: State, n: nat): seq<(u64, u64)>
    requires Joined(s, n)
  {
    var out := s.nodes[n].out;
    seq(|out|, i requires 0 <= i < |out| => (s.edges[out[i]].kind, s.nodes[s.edges[out[i]].to].kind))
  }

  lemma {:induction false} ViewsAre(s: State, es: seq<nat>)
    requires forall e :: e in es ==> e in s.edges && s.edges[e].to in s.nodes
    ensures forall i :: 0 <= i < |es| ==> EdgeViews(s, es)[i] == (s.edges[es[i]].kind, s.nodes[s.edges[es[i]].to].kind)
  {
    if es != [] {
      assert es[0] in es && forall e :: e in es[1..] ==> e in es;
      ViewsAre(s, es[1..]);
      forall i | 0 <= i < |es|
        ensures EdgeViews(s, es)[i] == (s.edges[es[i]].kind, s.nodes[s.edges[es[i]].to].kind)
      {
        if i > 0 {
          assert es[i] == es[1..][i - 1];
        }
      }
    }
  }

  lemma OwnIs(s: State, n: nat)
    requires Joined(s, n)
    ensures OwnOf(s, n) == Own(s.nodes[n].kind, s.nodes[n].labelText, s.nodes[n].attrs, Links(s, n))
  {
    ViewsAre(s, s.nodes[n].out);
  }

  /** In a tree the children that count are those that are not ephemeral, in their order. */
  lemma KidsAre(s: State, root: nat, n: nat)
    requires Tree(s, root) && n in s.nodes
    ensures forall c :: c in KidsOf(s, n) <==> c in s.nodes[n].children && !s.nodes[c].ephemeral
    ensures (forall c :: c in s.nodes[n].children ==> !s.nodes[c].ephemeral) ==> KidsOf(s, n) == s.nodes[n].children
  {
    assert NodeOk(s, root, n);
    forall c | c in s.nodes[n].children
      ensures c in s.nodes && n < c < s.next
    {
      assert NodeOk(s, root, c);
    }
    KidsIn(s, n, s.nodes[n].children);
  }

  lemma {:induction false} KidsIn(s: State, n: nat, ids: seq<nat>)
    requires forall c :: c in ids ==> c in s.nodes && n < c < s.next
    ensures forall c :: c in Kids(s, n, ids) <==> c in ids && !s.nodes[c].ephemeral
    ensures (forall c :: c in ids ==> !s.nodes[c].ephemeral) ==> Kids(s, n, ids) == ids
  {
    if ids != [] {
      assert ids == [ids[0]] + ids[1..];
      assert forall c :: c in ids <==> c == ids[0] || c in ids[1..];
      KidsIn(s, n, ids[1..]);
      if forall c :: c in ids ==> !s.nodes[c].ephemeral {
        assert ids[0] in ids && forall c :: c in ids[1..] ==> c in ids;
        assert Kids(s, n, ids[1..]) == ids[1..];
      }
    }
  }

  /** Barring a collision of the two hashed strings, digests are equal exactly when kind, label and attributes are,
      the edges agree in order by their kind and the kind of what they point to, and the digests of the children
      that count are equal as multisets. */
  lemma DigestTells(h: seq<byte> -> Digest, s: State, x: nat, t: State, y: nat)
    requires Joined(s, x) && Joined(t, y)
    requires Fits(OwnOf(s, x), KidInputs(h, s, x)) && Fits(OwnOf(t, y), KidInputs(h, t, y))
    requires Scratch(h, s, x) == Scratch(h, t, y) ==> Preimage(h, s, x) == Preimage(h, t, y)
    ensures Scratch(h, s, x) == Scratch(h, t, y) <==>
            var a, b := s.nodes[x], t.nodes[y];
            && a.kind == b.kind && a.labelText == b.labelText && a.attrs == b.attrs && |a.out| == |b.out|
            && (forall i :: 0 <= i < |a.out| ==>
                  && s.edges[a.out[i]].kind == t.edges[b.out[i]].kind
                  && s.nodes[s.edges[a.out[i]].to].kind == t.nodes[t.edges[b.out[i]].to].kind)
            && multiset(ScratchAll(h, s, x, KidsOf(s, x))) == multiset(ScratchAll(h, t, y, KidsOf(t, y)))
  {
    DigestIdentity(h, s, x, t, y);
    OwnIs(s, x);
    OwnIs(t, y);
    LinksAgree(s, x, t, y);
    hide Scratch, ScratchAll, KidsOf, Preimage, OwnOf, Links, Fits;
  }

  /** What a node hashes fits its words, attributes always. */
  lemma AlwaysFits(h: seq<byte> -> Digest, s: State, n: nat)
    requires n in s.nodes && AttrsSorted(s)
    requires |s.nodes[n].out| < 0x1_0000_0000_0000_0000 && |KidsOf(s, n)| < 0x1_0000_0000_0000_0000
    ensures Fits(OwnOf(s, n), KidInputs(h, s, n))
  {
    hide Scratch, Kids;
  }

  lemma LinksAgree(s: State, x: nat, t: State, y: nat)
    requires Joined(s, x) && Joined(t, y)
    ensures Links(s, x) == Links(t, y) <==>
            var a, b := s.nodes[x].out, t.nodes[y].out;
            && |a| == |b|
            && forall i :: 0 <= i < |a| ==>
                 && s.edges[a[i]].kind == t.edges[b[i]].kind
                 && s.nodes[s.edges[a[i]].to].kind == t.nodes[t.edges[b[i]].to].kind
  {
    var a, b := s.nodes[x].out, t.nodes[y].out;
    if Links(s, x) == Links(t, y) {
      assert |a| == |Links(s, x)| == |Links(t, y)| == |b|;
      forall i | 0 <= i < |a|
        ensures s.edges[a[i]].kind == t.edges[b[i]].kind
        ensures s.nodes[s.edges[a[i]].to].kind == t.nodes[t.edges[b[i]].to].kind
      {
        assert Links(s, x)[i] == Links(t, y)[i];
        assert a[i] in a && b[i] in b;
      }
    } else if |a| == |b| {
      var i :| 0 <= i < |a| && Links(s, x)[i] != Links(t, y)[i];
      assert a[i] in a && b[i] in b;
    }
  }

  // ---- whole subtrees

  /** A node's own fields, its edges by kind and kind of target, and, in no order, the subtrees below it. */
  datatype Subtree = Subtree(kind: u64, labelText: Str, attrs: seq<Attr>, links: seq<(u64, u64)>,
                             kids: multiset<Subtree>)

  ghost function Meaning(s: State, n: nat): Subtree
    requires Whole(s) && n in s.nodes
    decreases s.next - n, 1, 0
  {
    Subtree(s.nodes[n].kind, s.nodes[n].labelText, s.nodes[n].attrs, Links(s, n),
            multiset(MeaningAll(s, n, KidsOf(s, n))))
  }

  ghost function MeaningAll(s: State, n: nat, ids: seq<nat>): (r: seq<Subtree>)
    requires Whole(s)
    requires forall c :: c in ids ==> c in s.nodes && n < c < s.next
    ensures |r| == |ids|
    decreases s.next - n, 0, |ids|
  {
    if ids == [] then []
    else
      assert ids[0] in ids && forall c :: c in ids[1..] ==> c in ids;
      [Meaning(s, ids[0])] + MeaningAll(s, n, ids[1..])
  }

  lemma {:induction false} EachOf(h: seq<byte> -> Digest, s: State, n: nat, ids: seq<nat>)
    requires Whole(s)
    requires forall c :: c in ids ==> c in s.nodes && n < c < s.next
    ensures forall i :: 0 <= i < |ids| ==> ids[i] in s.nodes && n < ids[i] < s.next
    ensures forall i :: 0 <= i < |ids| ==> MeaningAll(s, n, ids)[i] == Meaning(s, ids[i])
    ensures forall i :: 0 <= i < |ids| ==> ScratchAll(h, s, n, ids)[i] == Scratch(h, s, ids[i])
  {
    hide Scratch, Meaning;
    if ids != [] {
      assert ids[0] in ids && forall c :: c in ids[1..] ==> c in ids;
      EachOf(h, s, n, ids[1..]);
      forall i | 0 <= i < |ids|
        ensures MeaningAll(s, n, ids)[i] == Meaning(s, ids[i])
        ensures ScratchAll(h, s, n, ids)[i] == Scratch(h, s, ids[i])
      {
        if i > 0 {
          assert ids[i] == ids[1..][i - 1];
        }
      }
    }
  }

  /** The hash confuses no two strings hashed for nodes of the two graphs, and counts fit their words. */
  ghost predicate Clear(h: seq<byte> -> Digest, s: State, t: State) {
    && (forall x :: x in s.nodes ==> Fits(OwnOf(s, x), KidInputs(h, s, x)))
    && (forall y :: y in t.nodes ==> Fits(OwnOf(t, y), KidInputs(h, t, y)))
    && forall x, y :: x in s.nodes && y in t.nodes && Scratch(h, s, x) == Scratch(h, t, y) ==>
         Preimage(h, s, x) == Preimage(h, t, y)
  }

  /** Two lists in which equal places have equal labels, and the other way round, are equal as multisets
      exactly when their lists of labels are. */
  lemma {:induction false} Relabelled<A, B>(a: seq<A>, b: seq<A>, f: seq<B>, g: seq<B>)
    requires |a| == |f| && |b| == |g|
    requires forall i, j :: 0 <= i < |a| && 0 <= j < |b| ==> (a[i] == b[j] <==> f[i] == g[j])
    ensures multiset(a) == multiset(b) <==> multiset(f) == multiset(g)
  {
    if multiset(a) == multiset(b) {
      OneWay(a, b, f, g);
    }
    if multiset(f) == multiset(g) {
      OneWay(f, g, a, b);
    }
  }

  lemma {:induction false} OneWay<A, B>(a: seq<A>, b: seq<A>, f: seq<B>, g: seq<B>)
    requires |a| == |f| && |b| == |g| && multiset(a) == multiset(b)
    requires forall i, j :: 0 <= i < |a| && 0 <= j < |b| ==> (a[i] == b[j] <==> f[i] == g[j])
    ensures multiset(f) == multiset(g)
    decreases |a|
  {
    assert |multiset(a)| == |a| && |multiset(b)| == |b|;
    if a == [] {
      assert f == [] && g == [];
    } else {
      assert a[0] in multiset(b);
      var j :| 0 <= j < |b| && b[j] == a[0];
      Removed(a, 0);
      Removed(f, 0);
      Removed(b, j);
      Removed(g, j);
      Cancelled(multiset(Minus(a, 0)), multiset(Minus(b, j)), a[0]);
      Shrunk(a, b, f, g, j);
      OneWay(Minus(a, 0), Minus(b, j), Minus(f, 0), Minus(g, j));
      assert f[0] == g[j];
    }
  }

  lemma Cancelled<T>(x: multiset<T>, y: multiset<T>, e: T)
    requires x + multiset{e} == y + multiset{e}
    ensures x == y
  {
    assert x == (x + multiset{e}) - multiset{e};
    assert y == (y + multiset{e}) - multiset{e};
  }

  lemma Shrunk<A, B>(a: seq<A>, b: seq<A>, f: seq<B>, g: seq<B>, j: nat)
    requires |a| == |f| > 0 && |b| == |g| && j < |b|
    requires forall i, j :: 0 <= i < |a| && 0 <= j < |b| ==> (a[i] == b[j] <==> f[i] == g[j])
    ensures forall k, l :: 0 <= k < |a| - 1 && 0 <= l < |b| - 1 ==>
              (Minus(a, 0)[k] == Minus(b, j)[l] <==> Minus(f, 0)[k] == Minus(g, j)[l])
  {
    forall k, l | 0 <= k < |a| - 1 && 0 <= l < |b| - 1
      ensures Minus(a, 0)[k] == Minus(b, j)[l] <==> Minus(f, 0)[k] == Minus(g, j)[l]
    {
      var l' := if l < j then l else l + 1;
      assert Minus(a, 0)[k] == a[k + 1] && Minus(f, 0)[k] == f[k + 1];
      assert Minus(b, j)[l] == b[l'] && Minus(g, j)[l] == g[l'];
    }
  }

  function Minus<T>(s: seq<T>, i: nat): (r: seq<T>)
    requires i < |s|
    ensures |r| == |s| - 1
  {
    s[..i] + s[i + 1..]
  }

  lemma Removed<T>(s: seq<T>, i: nat)
    requires i < |s|
    ensures multiset(s) == multiset(Minus(s, i)) + multiset{s[i]}
  {
    assert s == s[..i] + [s[i]] + s[i + 1..];
  }

  /** Identity of subtrees: two nodes have the same digest exactly when everything below them is the same,
      the order of siblings aside. */
  lemma {:induction false} SubtreeIdentity(h: seq<byte> -> Digest, s: State, x: nat, t: State, y: nat)
    requires Whole(s) && Whole(t) && x in s.nodes && y in t.nodes && Clear(h, s, t)
    ensures Scratch(h, s, x) == Scratch(h, t, y) <==> Meaning(s, x) == Meaning(t, y)
    decreases s.next - x
  {
    hide Preimage, KidsOf, OwnOf, Fits, Clear, Scratch, ScratchAll, MeaningAll, Links;
    var a, b := KidsOf(s, x), KidsOf(t, y);
    forall i, j | 0 <= i < |a| && 0 <= j < |b|
      ensures Scratch(h, s, a[i]) == Scratch(h, t, b[j]) <==> Meaning(s, a[i]) == Meaning(t, b[j])
    {
      assert a[i] in a && b[j] in b;
      SubtreeIdentity(h, s, a[i], t, b[j]);
    }
    KidsMatch(h, s, x, t, y, a, b);
    ClearAt(h, s, x, t, y);
    OwnIs(s, x);
    OwnIs(t, y);
    DigestIdentity(h, s, x, t, y);
  }

  lemma KidsMatch(h: seq<byte> -> Digest, s: State, x: nat, t: State, y: nat, a: seq<nat>, b: seq<nat>)
    requires Whole(s) && Whole(t)
    requires forall c :: c in a ==> c in s.nodes && x < c < s.next
    requires forall c :: c in b ==> c in t.nodes && y < c < t.next
    requires forall i, j :: 0 <= i < |a| && 0 <= j < |b| ==>
               (Scratch(h, s, a[i]) == Scratch(h, t, b[j]) <==> Meaning(s, a[i]) == Meaning(t, b[j]))
    ensures multiset(ScratchAll(h, s, x, a)) == multiset(ScratchAll(h, t, y, b)) <==>
            multiset(MeaningAll(s, x, a)) == multiset(MeaningAll(t, y, b))
  {
    hide Scratch, Meaning;
    EachOf(h, s, x, a);
    EachOf(h, t, y, b);
    hide ScratchAll, MeaningAll;
    Relabelled(ScratchAll(h, s, x, a), ScratchAll(h, t, y, b), MeaningAll(s, x, a), MeaningAll(t, y, b));
  }

  lemma ClearAt(h: seq<byte> -> Digest, s: State, x: nat, t: State, y: nat)
    requires x in s.nodes && y in t.nodes && Clear(h, s, t)
    ensures Fits(OwnOf(s, x), KidInputs(h, s, x)) && Fits(OwnOf(t, y), KidInputs(h, t, y))
    ensures Scratch(h, s, x) == Scratch(h, t, y) ==> Preimage(h, s, x) == Preimage(h, t, y)
  {
  }

  // ---- the order in which attributes are set

  /** `s'` is `s` after a key was set at node `n`, validity aside. */
  ghost predicate SetAt(s: State, s': State, n: nat, key: seq<byte>, val: Value)
    requires n in s.nodes
  {
    SameShape(WithAttrs(s, n, Put(s.nodes[n].attrs, key, val)), s')
  }

  lemma SetAtTwice(s: State, s1: State, s2: State, n: nat, k: seq<byte>, v: Value, l: seq<byte>, w: Value)
    requires n in s.nodes && SetAt(s, s1, n, k, v) && n in s1.nodes && SetAt(s1, s2, n, l, w)
    ensures SameShape(WithAttrs(s, n, Put(Put(s.nodes[n].attrs, k, v), l, w)), s2)
  {
    hide Put;
    var once := Put(s.nodes[n].attrs, k, v);
    assert s1.nodes[n].attrs == once;
    ReplacedTwice(s, s1, s2, n, once, Put(once, l, w));
  }

  lemma ReplacedTwice(s: State, s1: State, s2: State, n: nat, a: seq<Attr>, b: seq<Attr>)
    requires n in s.nodes && SameShape(WithAttrs(s, n, a), s1) && n in s1.nodes && SameShape(WithAttrs(s1, n, b), s2)
    ensures SameShape(WithAttrs(s, n, b), s2)
  {
    var t, t1, t2 := WithAttrs(s, n, b), WithAttrs(s, n, a), WithAttrs(s1, n, b);
    forall x | x in t.nodes
      ensures s2.nodes[x] == t.nodes[x].(digest := s2.nodes[x].digest, valid := s2.nodes[x].valid)
    {
      assert s1.nodes[x] == t1.nodes[x].(digest := s1.nodes[x].digest, valid := s1.nodes[x].valid);
      assert s2.nodes[x] == t2.nodes[x].(digest := s2.nodes[x].digest, valid := s2.nodes[x].valid);
    }
  }

  /** Two keys, of any length, set at a node in either order leave every digest of the graph the same when the
      order does not show in the array; when it does, barring a collision, the node's digest tells it. */
  lemma SetOrder(h: seq<byte> -> Digest, s: State, n: nat, k: seq<byte>, v: Value, l: seq<byte>, w: Value,
          sk: State, skl: State, sl: State, slk: State)
    requires n in s.nodes && n in sk.nodes && n in sl.nodes && k != l && |s.nodes[n].attrs| <= MAX_ATTRS
    requires SetAt(s, sk, n, k, v) && SetAt(sk, skl, n, l, w)
    requires SetAt(s, sl, n, l, w) && SetAt(sl, slk, n, k, v)
    ensures skl.nodes.Keys == slk.nodes.Keys == s.nodes.Keys
    ensures !OrderShows(s.nodes[n].attrs, k, v, l, w) ==>
              forall x :: x in s.nodes ==> Scratch(h, skl, x) == Scratch(h, slk, x)
    ensures OrderShows(s.nodes[n].attrs, k, v, l, w) && Clear(h, skl, slk) ==>
              Scratch(h, skl, n) != Scratch(h, slk, n)
  {
    hide Put, Scratch, OrderShows, Clear, SameShape;
    var attrs := s.nodes[n].attrs;
    var a, b := Put(Put(attrs, k, v), l, w), Put(Put(attrs, l, w), k, v);
    PutOrder(attrs, k, v, l, w);
    SetAtTwice(s, sk, skl, n, k, v, l, w);
    SetAtTwice(s, sl, slk, n, l, w, k, v);
    hide SetAt;
    ReplacedScratch(h, s, skl, n, a);
    ReplacedScratch(h, s, slk, n, b);
    if OrderShows(attrs, k, v, l, w) && Clear(h, skl, slk) {
      ClearAt(h, skl, n, slk, n);
      DigestIdentity(h, skl, n, slk, n);
    }
  }

  lemma ReplacedScratch(h: seq<byte> -> Digest, s: State, s': State, n: nat, attrs: seq<Attr>)
    requires n in s.nodes && SameShape(WithAttrs(s, n, attrs), s')
    ensures s'.nodes.Keys == s.nodes.Keys && OwnOf(s', n).attrs == attrs
    ensures forall x :: x in s.nodes ==> Scratch(h, s', x) == Scratch(h, WithAttrs(s, n, attrs), x)
  {
    hide Scratch;
    forall x | x in s.nodes
      ensures Scratch(h, s', x) == Scratch(h, WithAttrs(s, n, attrs), x)
    {
      ShapeScratch(h, WithAttrs(s, n, attrs), s', x);
    }
  }
}
