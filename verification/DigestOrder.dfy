/** Digests and their canonical order. */
module DigestOrder {
  import opened Bytes

  type Digest = d: seq<byte> | |d| == 32 witness seq(32, _ => 0)

  predicate AtMost(a: Digest, b: Digest) {
    a == b || Less(a, b)
  }

  ghost predicate Sorted(s: seq<Digest>) {
    forall i, j :: 0 <= i < j < |s| ==> AtMost(s[i], s[j])
  }

  /** The digests of `s` in ascending order, with multiplicity. */
  function Sort(s: seq<Digest>): (r: seq<Digest>) {
    if s == [] then [] else Insert(s[0], Sort(s[1..]))
  }

  function Insert(d: Digest, s: seq<Digest>): (r: seq<Digest>) {
    if s == [] || AtMost(d, s[0]) then [d] + s else [s[0]] + Insert(d, s[1..])
  }

  lemma AtMostTransitive(a: Digest, b: Digest, c: Digest)
    requires AtMost(a, b) && AtMost(b, c)
    ensures AtMost(a, c)
  {
    if a != b && b != c {
      LessTransitive(a, b, c);
    }
  }

  lemma {:induction false} InsertSorted(d: Digest, s: seq<Digest>)
    requires Sorted(s)
    ensures Sorted(Insert(d, s)) && multiset(Insert(d, s)) == multiset(s) + multiset{d}
  {
    if s == [] {
    } else if AtMost(d, s[0]) {
      forall j | 0 <= j < |s|
        ensures AtMost(d, s[j])
      {
        if j > 0 {
          AtMostTransitive(d, s[0], s[j]);
        }
      }
    } else {
      LessTotal(d, s[0]);
      InsertSorted(d, s[1..]);
      assert s == [s[0]] + s[1..];
      var r := Insert(d, s[1..]);
      forall j | 0 <= j < |r|
        ensures AtMost(s[0], r[j])
      {
        assert r[j] in multiset(r);
        assert r[j] in multiset(s[1..]) || r[j] == d;
        if r[j] != d {
          var k :| 0 <= k < |s[1..]| && s[1..][k] == r[j];
          assert s[k + 1] == r[j];
        }
      }
    }
  }

  lemma {:induction false} SortSorts(s: seq<Digest>)
    ensures Sorted(Sort(s)) && multiset(Sort(s)) == multiset(s)
  {
    if s != [] {
      SortSorts(s[1..]);
      InsertSorted(s[0], Sort(s[1..]));
      assert s == [s[0]] + s[1..];
    }
  }

  lemma SortLength(s: seq<Digest>)
    ensures |Sort(s)| == |s|
  {
    SortSorts(s);
    assert |Sort(s)| == |multiset(Sort(s))| && |s| == |multiset(s)|;
  }

  lemma FirstIsLeast(s: seq<Digest>, d: Digest)
    requires Sorted(s) && d in multiset(s)
    ensures AtMost(s[0], d)
  {
    var i :| 0 <= i < |s| && s[i] == d;
  }

  lemma SameFirst(a: seq<Digest>, b: seq<Digest>)
    requires a != [] && Sorted(a) && Sorted(b) && multiset(a) == multiset(b)
    ensures b != [] && a[0] == b[0]
  {
    assert a[0] in multiset(b);
    assert b[0] in multiset(a);
    FirstIsLeast(a, b[0]);
    FirstIsLeast(b, a[0]);
    if a[0] != b[0] {
      LessAsymmetric(a[0], b[0]);
    }
  }

  lemma Tail(s: seq<Digest>)
    requires s != [] && Sorted(s)
    ensures s == [s[0]] + s[1..] && Sorted(s[1..]) && multiset(s[1..]) == multiset(s) - multiset{s[0]}
  {
    assert s == [s[0]] + s[1..];
  }

  /** A sorted sequence is determined by its multiset. */
  lemma {:induction false} SortedUnique(a: seq<Digest>, b: seq<Digest>)
    requires Sorted(a) && Sorted(b) && multiset(a) == multiset(b)
    ensures a == b
  {
    hide AtMost, Sorted;
    if a == [] {
      assert |multiset(b)| == 0;
    } else {
      SameFirst(a, b);
      Tail(a);
      Tail(b);
      SortedUnique(a[1..], b[1..]);
    }
  }

  /** The canonical order forgets the order things were listed in. */
  lemma SortCanonical(a: seq<Digest>, b: seq<Digest>)
    ensures Sort(a) == Sort(b) <==> multiset(a) == multiset(b)
  {
    SortSorts(a);
    SortSorts(b);
    if multiset(a) == multiset(b) {
      SortedUnique(Sort(a), Sort(b));
    }
  }

  function Concat(s: seq<Digest>): (r: seq<byte>) {
    if s == [] then [] else Concat(s[..|s| - 1]) + s[|s| - 1]
  }

  lemma {:induction false} ConcatLength(s: seq<Digest>)
    ensures |Concat(s)| == 32 * |s|
  {
    if s != [] {
      ConcatLength(s[..|s| - 1]);
    }
  }

  lemma {:induction false} ConcatInjective(a: seq<Digest>, x: seq<byte>, b: seq<Digest>, y: seq<byte>)
    requires |a| == |b| && Concat(a) + x == Concat(b) + y
    ensures a == b && x == y
  {
    ConcatLength(a);
    ConcatLength(b);
    SplitEqual(Concat(a), x, Concat(b), y);
    if a != [] {
      var a', b' := a[..|a| - 1], b[..|b| - 1];
      ConcatLength(a');
      ConcatLength(b');
      SplitEqual(Concat(a'), a[|a| - 1], Concat(b'), b[|b| - 1]);
      ConcatInjective(a', [], b', []);
      assert a == a' + [a[|a| - 1]] && b == b' + [b[|b| - 1]];
    }
  }
}
