/** The selection loop that folds child digests in ascending order, as multisets. */
module DigestSelect {
  import opened Common
  import opened Bytes
  import opened DigestOrder

  function Copies(d: Digest, n: nat): (r: seq<Digest>)
    ensures |r| == n && forall i :: 0 <= i < n ==> r[i] == d
  {
    seq(n, _ => d)
  }

  lemma {:induction false} CopiesCount(d: Digest, n: nat)
    ensures multiset(Copies(d, n)) == multiset{}[d := n]
  {
    if n > 0 {
      CopiesCount(d, n - 1);
      assert Copies(d, n) == Copies(d, n - 1) + [d];
    }
  }

  /** `d` has not been emitted yet when everything up to `prev` has. */
  predicate Beyond(prev: Option<Digest>, d: Digest) {
    prev.None? || !AtMost(d, prev.value)
  }

  /** `sel` holds exactly the digests of `ds` up to `prev`, each as often as it occurs. */
  ghost predicate Picked(ds: seq<Digest>, sel: seq<Digest>, prev: Option<Digest>) {
    && Sorted(sel)
    && forall d :: multiset(sel)[d] == if Beyond(prev, d) then 0 else multiset(ds)[d]
  }

  lemma PickedStart(ds: seq<Digest>)
    ensures Picked(ds, [], None)
  {
  }

  lemma PickedFits(ds: seq<Digest>, sel: seq<Digest>, prev: Option<Digest>, best: Digest)
    requires Picked(ds, sel, prev) && Beyond(prev, best)
    ensures |sel| + multiset(ds)[best] <= |ds|
  {
    var more := sel + Copies(best, multiset(ds)[best]);
    CopiesCount(best, multiset(ds)[best]);
    assert multiset(more) <= multiset(ds);
    SubsetSize(multiset(more), multiset(ds));
  }

  lemma SubsetSize(a: multiset<Digest>, b: multiset<Digest>)
    requires a <= b
    ensures |a| <= |b| && (|a| == |b| ==> a == b)
  {
    assert b == a + (b - a);
    if |a| == |b| {
      assert |b - a| == 0;
    }
  }

  /** Emitting all occurrences of the least digest not emitted yet. */
  lemma PickedNext(ds: seq<Digest>, sel: seq<Digest>, prev: Option<Digest>, best: Digest)
    requires Picked(ds, sel, prev) && Beyond(prev, best) && best in ds
    requires forall d :: d in ds && Beyond(prev, d) ==> AtMost(best, d)
    ensures Picked(ds, sel + Copies(best, multiset(ds)[best]), Some(best))
  {
    var n := multiset(ds)[best];
    CopiesCount(best, n);
    var more := sel + Copies(best, n);
    forall d
      ensures multiset(more)[d] == if Beyond(Some(best), d) then 0 else multiset(ds)[d]
    {
      PickedNextAt(ds, sel, prev, best, d);
    }
    forall i | 0 <= i < |sel|
      ensures AtMost(sel[i], best)
    {
      assert multiset(sel)[sel[i]] > 0;
      LessTotal(best, prev.value);
      AtMostTransitive(sel[i], prev.value, best);
    }
  }

  lemma PickedNextAt(ds: seq<Digest>, sel: seq<Digest>, prev: Option<Digest>, best: Digest, d: Digest)
    requires Picked(ds, sel, prev) && Beyond(prev, best) && best in ds
    requires forall d :: d in ds && Beyond(prev, d) ==> AtMost(best, d)
    ensures d == best || multiset(sel)[d] == if Beyond(Some(best), d) then 0 else multiset(ds)[d]
    ensures multiset(sel)[best] == 0
  {
    if d != best {
      if !Beyond(prev, d) {
        // d is at most prev, and prev is below best
        LessTotal(best, prev.value);
        AtMostTransitive(d, prev.value, best);
      } else if d in ds && AtMost(d, best) {
        LessAsymmetric(d, best);
      }
    }
  }

  lemma PickedAll(ds: seq<Digest>, sel: seq<Digest>, prev: Option<Digest>)
    requires Picked(ds, sel, prev)
    requires |sel| == |ds| || forall d :: d in ds ==> !Beyond(prev, d)
    ensures sel == Sort(ds)
  {
    assert multiset(sel) <= multiset(ds);
    SubsetSize(multiset(sel), multiset(ds));
    SortSorts(ds);
    if |sel| != |ds| {
      assert multiset(sel) == multiset(ds);
    }
    SortedUnique(sel, Sort(ds));
  }

  lemma {:induction false} ConcatAppend(a: seq<Digest>, d: Digest)
    ensures Concat(a + [d]) == Concat(a) + d
  {
    assert (a + [d])[..|a|] == a;
  }
}
