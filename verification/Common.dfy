/** Small datatypes, lists without repeats and word sizes shared by every component. */
module Common {
  const U16: nat := 0x1_0000
  const U32: nat := 0x1_0000_0000
  const U64: nat := 0x1_0000_0000_0000_0000

  const S63: int := 0x8000_0000_0000_0000

  /** The low 64 bits read as a signed number: what a cast to 64 bits keeps. */
  function ToS64(x: int): (r: int)
    ensures -S63 <= r < S63 && (-S63 <= x < S63 ==> r == x)
  {
    (x + S63) % (2 * S63) - S63
  }

  /** A 32-bit counter goes on by one where it wraps. */
  lemma NextCount(n: nat)
    ensures (n % U32 + 1) % U32 == (n + 1) % U32
  {
  }

  datatype Option<+T> = None | Some(value: T)

  function Get<K, V>(m: map<K, V>, k: K): Option<V> {
    if k in m then Some(m[k]) else None
  }

  predicate Distinct<T(==, !new)>(s: seq<T>) {
    forall i, j :: 0 <= i < j < |s| ==> s[i] != s[j]
  }

  /** The list with an element unlinked. */
  function Without<T(==, !new)>(s: seq<T>, x: T): (r: seq<T>)
    ensures forall y :: y in r <==> y in s && y != x
    ensures Distinct(s) ==> Distinct(r)
    ensures |r| <= |s| && (x in s ==> |r| < |s|)
  {
    if s == [] then []
    else
      var rest := Without(s[1..], x);
      assert forall y :: y in s <==> y == s[0] || y in s[1..];
      if s[0] == x then rest else
      assert Distinct(s) ==> s[0] !in s[1..];
      [s[0]] + rest
  }

  lemma {:induction false} WithoutAbsent<T(!new)>(s: seq<T>, x: T)
    requires x !in s
    ensures Without(s, x) == s
  {
    if s != [] {
      WithoutAbsent(s[1..], x);
    }
  }

  lemma {:induction false} WithoutAppended<T(!new)>(s: seq<T>, t: seq<T>, x: T)
    requires x !in t
    ensures Without(s + t, x) == Without(s, x) + t
  {
    if s == [] {
      assert s + t == t;
      WithoutAbsent(t, x);
    } else {
      assert (s + t)[1..] == s[1..] + t;
      WithoutAppended(s[1..], t, x);
    }
  }

  /** A list without repeats drawn from another is no longer than it. */
  lemma {:induction false} DistinctLength<T(!new)>(s: seq<T>, t: seq<T>)
    requires Distinct(s) && forall x :: x in s ==> x in t
    ensures |s| <= |t|
    decreases |s|
  {
    if s != [] {
      assert s[0] in t;
      var k :| 0 <= k < |t| && t[k] == s[0];
      var t' := t[..k] + t[k + 1..];
      forall x | x in s[1..]
        ensures x in t'
      {
        var i :| 1 <= i < |s| && s[i] == x;
        assert x in t && x != t[k];
        var j :| 0 <= j < |t| && t[j] == x;
        assert if j < k then t'[j] == x else t'[j - 1] == x;
      }
      DistinctLength(s[1..], t');
    }
  }
}
