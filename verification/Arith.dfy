/** Division, remainders and powers of two. */
module Arith {
  predicate Pow2(a: nat) {
    a == 1 || (a > 1 && a % 2 == 0 && Pow2(a / 2))
  }

  lemma {:induction false} Pow2Divides(a: nat, b: nat)
    requires Pow2(a) && Pow2(b) && a <= b
    ensures b % a == 0
  {
    if a > 1 {
      Pow2Divides(a / 2, b / 2);
      var q := (b / 2) / (a / 2);
      assert b / 2 == q * (a / 2);
      assert b == q * a by {
        assert a == 2 * (a / 2);
      }
      MultipleOf(q, a);
    }
  }

  function Magnitude(x: int): nat {
    if x < 0 then -x else x
  }

  /** The quotient rounded toward zero. */
  function Truncated(n: int, d: int): int
    requires d != 0
  {
    var q := Magnitude(n) / Magnitude(d);
    if (n < 0) != (d < 0) then 0 - q else q
  }

  lemma MultipleOf(q: nat, a: nat)
    requires a > 0
    ensures (q * a) % a == 0
  {
    ModUnique(q * a, q, 0, a);
  }

  lemma RemainderOf(b: nat, r: nat, m: nat)
    requires m > 0 && b % m == 0 && r < m
    ensures (b + r) % m == r
  {
    var q := b / m;
    assert b == q * m;
    ModUnique(b + r, q, r, m);
  }

  lemma ModUnique(x: nat, q: nat, r: nat, m: nat)
    requires m > 0 && x == q * m + r && r < m
    ensures x % m == r && x / m == q
  {
    assert x == (x / m) * m + x % m;
    SameParts(x / m, x % m, q, r, m);
  }

  /** A multiple of `m` is zero or at least `m` away from it. */
  lemma Multiples(d: int, m: int)
    requires m > 0
    ensures d == 0 || d * m >= m || d * m <= -m
  {
    if d >= 1 {
      assert (d - 1) * m >= 0;
    } else if d <= -1 {
      assert (-1 - d) * m >= 0;
    }
  }

  lemma Grows(q: nat, q': nat, m: nat)
    requires q <= q'
    ensures q * m <= q' * m
  {
    assert (q' - q) * m >= 0;
  }

  lemma Through(x: nat, m: nat, d: nat)
    requires m > 0 && d > 0 && x % m == 0 && m % d == 0
    ensures x % d == 0
  {
    var q, r := x / m, m / d;
    assert x == q * m && m == r * d;
    assert x == (q * r) * d;
    MultipleOf(q * r, d);
  }

  lemma SumOf(x: nat, y: nat, d: nat)
    requires d > 0 && x % d == 0 && y % d == 0
    ensures (x + y) % d == 0
  {
    assert x == (x / d) * d && y == (y / d) * d;
    assert x + y == (x / d + y / d) * d;
    MultipleOf(x / d + y / d, d);
  }

  lemma ModLess(a: nat, m: nat)
    requires m > 0
    ensures a % m <= a
  {
    assert a == (a / m) * m + a % m;
    assert (a / m) * m >= 0;
  }

  /** A sum of multiples and a small rest has the rest as its remainder, negative multiples included. */
  lemma Quotient(x: int, q: int, r: int, m: int)
    requires m > 0 && x == q * m + r && 0 <= r < m
    ensures x / m == q && x % m == r
  {
    assert x == (x / m) * m + x % m;
    SameParts(x / m, x % m, q, r, m);
  }

  lemma SameParts(q: int, r: int, q': int, r': int, m: int)
    requires q * m + r == q' * m + r' && 0 <= r < m && 0 <= r' < m
    ensures q == q' && r == r'
  {
    Multiples(q - q', m);
    assert (q - q') * m == q * m - q' * m;
  }

  /** Numbers closer together than `m` have different remainders. */
  lemma CloseApart(i: nat, j: nat, m: nat)
    requires m > 0 && i < j < i + m
    ensures i % m != j % m
  {
    var d := j / m - i / m;
    assert i == (i / m) * m + i % m && j == (j / m) * m + j % m;
    assert d * m == (j / m) * m - (i / m) * m;
    Multiples(d, m);
  }

  lemma Products(q: nat, k: nat, c: nat, m: nat)
    ensures q * (k * m) + c * m == (q * k + c) * m
  {
  }

  /** Reducing by a multiple first does not change the remainder. */
  lemma RemainderVia(n: nat, big: nat, m: nat)
    requires m > 0 && big > 0 && big % m == 0
    ensures (n % big) % m == n % m
  {
    var k, q, r := big / m, n / big, n % big;
    var c, d := r / m, r % m;
    Parts(n, big);
    Parts(big, m);
    Parts(r, m);
    Products(q, k, c, m);
    Rebuilt(n, q, k, c, d, big, m);
  }

  lemma Parts(x: nat, m: nat)
    requires m > 0
    ensures x == (x / m) * m + x % m
  {
  }

  lemma Rebuilt(n: nat, q: nat, k: nat, c: nat, d: nat, big: nat, m: nat)
    requires m > 0 && big == k * m && n == q * big + (c * m + d) && d < m && q * (k * m) + c * m == (q * k + c) * m
    ensures n % m == d
  {
    ModUnique(n, q * k + c, d, m);
  }
}
