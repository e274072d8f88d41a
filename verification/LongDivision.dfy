/** 128-bit shift-and-subtract division and its signed wrappers (kernel/lib/int128.c). */
module LongDivision {
  import opened Arith

  const TWO64: int := 0x1_0000_0000_0000_0000
  const TWO127: int := 0x8000_0000_0000_0000_0000_0000_0000_0000
  const TWO128: int := 0x1_0000_0000_0000_0000_0000_0000_0000_0000

  function Exp2(k: nat): (r: nat)
    ensures r >= 1
  {
    if k == 0 then 1 else 2 * Exp2(k - 1)
  }

  lemma {:induction false} Exp2Sum(a: nat, b: nat)
    ensures Exp2(a + b) == Exp2(a) * Exp2(b)
  {
    if a > 0 {
      Exp2Sum(a - 1, b);
      assert 2 * (Exp2(a - 1) * Exp2(b)) == (2 * Exp2(a - 1)) * Exp2(b);
    }
  }

  lemma Exp2At128()
    ensures Exp2(128) == TWO128
  {
    Exp2At8();
    hide Exp2;
    Exp2Sum(8, 8);
    Exp2Sum(16, 16);
    Exp2Sum(32, 32);
    Exp2Sum(64, 64);
  }

  lemma Exp2At8()
    ensures Exp2(8) == 256
  {
    assert Exp2(4) == 16;
  }

  /** The bits of `n` from bit `k` up, with the next lower one brought in. */
  lemma TopBits(n: nat, k: nat)
    requires k > 0
    ensures n / Exp2(k - 1) == 2 * (n / Exp2(k)) + n / Exp2(k - 1) % 2
  {
    HalfStep(n, Exp2(k - 1));
  }

  lemma HalfStep(n: nat, m: nat)
    requires m > 0
    ensures n / m == 2 * (n / (2 * m)) + n / m % 2
  {
    var h, low := n / m, n % m;
    var hi, bit := h / 2, h % 2;
    Parts(n, m);
    Regroup(hi, bit, m);
    SmallSum(bit, m, low);
    ModUnique(n, hi, bit * m + low, 2 * m);
  }

  lemma Regroup(hi: nat, bit: nat, m: nat)
    ensures (2 * hi + bit) * m == hi * (2 * m) + bit * m
  {
  }

  lemma SmallSum(bit: nat, m: nat, low: nat)
    requires bit < 2 && low < m
    ensures 0 <= bit * m + low < 2 * m
  {
  }

  lemma Top(n: nat)
    requires n < TWO128
    ensures n / Exp2(128) == 0 && n / Exp2(0) == n
  {
    Exp2At128();
    ModUnique(n, 0, n, TWO128);
    ModUnique(n, n, 0, 1);
  }

  /** One bit of the division: from `hi == q * d + r` to the same for `2 * hi + bit`. */
  lemma DivideBit(hi: nat, q: nat, r: nat, d: nat, bit: nat)
    requires hi == q * d + r && r < d && bit < 2
    ensures var s := 2 * r + bit;
            if s >= d then 2 * hi + bit == (2 * q + 1) * d + (s - d) && s - d < d else 2 * hi + bit == (2 * q) * d + s
  {
    assert (2 * q) * d == 2 * (q * d);
    assert (2 * q + 1) * d == 2 * (q * d) + d;
  }

  /** The quotient and remainder, for every divisor but zero; with zero, all ones and nothing. */
  method UDivMod(n: nat, d: nat) returns (quotient: nat, rem: nat)
    requires n < TWO128 && d < TWO128
    ensures d == 0 ==> quotient == TWO128 - 1 && rem == 0
    ensures d > 0 ==> n == quotient * d + rem && rem < d && quotient <= n
  {
    if d == 0 {
      return TWO128 - 1, 0;
    }
    if n < TWO64 && d < TWO64 {
      Parts(n, d);
      quotient, rem := n / d, n % d;
      QuotientSmall(quotient, d, n, rem);
      return;
    }
    quotient, rem := LongDivide(n, d);
    QuotientSmall(quotient, d, n, rem);
  }

  /** Shift and subtract, a bit at a time from the top. */
  method LongDivide(n: nat, d: nat) returns (quotient: nat, rem: nat)
    requires n < TWO128 && 0 < d < TWO128
    ensures n == quotient * d + rem && rem < d
  {
    hide Exp2, Divided;
    quotient, rem := 0, 0;
    ghost var q: nat := 0;
    var k: nat := 128;
    Begin(n, d);
    while k > 0
      invariant k <= 128 && quotient == q * Exp2(k) && Divided(n, d, k, q, rem)
    {
      SetBit(q, k);
      NextBit(n, d, k, q, rem);
      k := k - 1;
      rem := (2 * rem + n / Exp2(k) % 2) % TWO128;
      q := 2 * q;
      if rem >= d {
        rem := rem - d;
        quotient := quotient + Exp2(k);
        q := q + 1;
      }
    }
    Finish(n, d, q, rem);
  }

  lemma Begin(n: nat, d: nat)
    requires n < TWO128 && d > 0
    ensures Divided(n, d, 128, 0, 0) && 0 * Exp2(128) == 0
  {
    Top(n);
  }

  lemma Finish(n: nat, d: nat, q: nat, r: nat)
    requires n < TWO128 && d > 0 && Divided(n, d, 0, q, r)
    ensures n == q * d + r && r < d && q * Exp2(0) == q
  {
    Top(n);
  }

  /** The bits of `n` from bit `k` up are `q` times `d` and a remainder, itself no more than those bits. */
  ghost predicate Divided(n: nat, d: nat, k: nat, q: nat, r: nat) {
    n / Exp2(k) == q * d + r && r < d && r <= n / Exp2(k)
  }

  /** Bringing in a bit: the shifted remainder fits 128 bits, and at most one subtraction is due. */
  lemma NextBit(n: nat, d: nat, k: nat, q: nat, r: nat)
    requires n < TWO128 && d > 0 && k > 0 && Divided(n, d, k, q, r)
    ensures var s := 2 * r + n / Exp2(k - 1) % 2;
            && s < TWO128 && s % TWO128 == s
            && if s >= d then Divided(n, d, k - 1, 2 * q + 1, s - d) else Divided(n, d, k - 1, 2 * q, s)
  {
    TopBits(n, k);
    Fits(n, k - 1);
    hide Exp2;
    DivideBit(n / Exp2(k), q, r, d, n / Exp2(k - 1) % 2);
    ModUnique(2 * r + n / Exp2(k - 1) % 2, 0, 2 * r + n / Exp2(k - 1) % 2, TWO128);
  }

  lemma QuotientSmall(q: nat, d: nat, n: nat, r: nat)
    requires d > 0 && n == q * d + r
    ensures q <= n
  {
    assert q * (d - 1) >= 0;
  }

  /** No bit is lost by the shift: the remainder is no more than the bits brought in so far. */
  lemma Fits(n: nat, k: nat)
    requires n < TWO128
    ensures n / Exp2(k) < TWO128
  {
    QuotientBound(n, Exp2(k));
  }

  lemma SetBit(q: nat, k: nat)
    requires k > 0
    ensures q * Exp2(k) == (2 * q) * Exp2(k - 1) && (2 * q + 1) * Exp2(k - 1) == q * Exp2(k) + Exp2(k - 1)
  {
  }

  /** The low 128 bits read as a signed number. */
  function Signed(x: int): (r: int)
    ensures -TWO127 <= r < TWO127 && (r - x) % TWO128 == 0
    ensures -TWO127 <= x < TWO127 ==> r == x
  {
    var m := x % TWO128;
    if m >= TWO127 then m - TWO128 else m
  }

  function Unsigned(x: int): nat {
    x % TWO128
  }

  /** The signed quotient is the one rounded toward zero, except for the one pair whose quotient is not
      a signed 128-bit number. */
  method SDiv(n: int, d: int) returns (r: int)
    requires -TWO127 <= n < TWO127 && -TWO127 <= d < TWO127
    ensures d != 0 ==> (r == Truncated(n, d) <==> !(n == -TWO127 && d == -1))
    ensures d == 0 ==> r == if n < 0 then 1 else -1
  {
    var negate := false;
    var a, b := n, d;
    if a < 0 {
      a := Signed(-a);
      negate := !negate;
    }
    if b < 0 {
      b := Signed(-b);
      negate := !negate;
    }
    AbsOk(n);
    AbsOk(d);
    hide Signed, Unsigned;
    var q, u := UDivMod(Unsigned(a), Unsigned(b));
    r := if negate then Signed(-Signed(q)) else Signed(q);
    if d != 0 {
      ModUniqueOf(Magnitude(n), q, Magnitude(d));
      QuotientBound(Magnitude(n), Magnitude(d));
      SignOk(q);
    } else {
      AllOnes();
    }
  }

  lemma AbsOk(x: int)
    requires -TWO127 <= x < TWO127
    ensures Unsigned(if x < 0 then Signed(-x) else x) == Magnitude(x)
  {
  }

  lemma SignOk(q: nat)
    requires q <= TWO127
    ensures q < TWO127 ==> Signed(q) == q && Signed(-Signed(q)) == 0 - q
    ensures q == TWO127 ==> Signed(q) == 0 - q && Signed(-Signed(q)) == 0 - q
  {
  }

  lemma AllOnes()
    ensures Signed(TWO128 - 1) == -1 && Signed(-Signed(TWO128 - 1)) == 1
  {
  }

  /** The signed remainder has the dividend's sign and completes the truncated quotient. */
  method SMod(n: int, d: int) returns (r: int)
    requires -TWO127 <= n < TWO127 && -TWO127 <= d < TWO127
    ensures d != 0 ==> n == Truncated(n, d) * d + r && Magnitude(r) < Magnitude(d) && (r == 0 || (r < 0 <==> n < 0))
    ensures d == 0 ==> r == 0
  {
    var a := if n < 0 then Signed(-n) else n;
    var b := if d < 0 then Signed(-d) else d;
    AbsOk(n);
    AbsOk(d);
    hide Unsigned;
    var q, u := UDivMod(Unsigned(a), Unsigned(b));
    r := if n < 0 then Signed(-Signed(u)) else Signed(u);
    if d != 0 {
      ModUniqueOf(Magnitude(n), q, Magnitude(d));
      SignedParts(n, d, q, u);
    }
  }

  lemma ModUniqueOf(n: nat, q: nat, m: nat)
    requires m > 0 && 0 <= n - q * m < m
    ensures n / m == q && n % m == n - q * m
  {
    ModUnique(n, q, n - q * m, m);
  }

  lemma QuotientBound(n: nat, m: nat)
    requires m > 0
    ensures n / m <= n && (m >= 2 ==> n / m <= n / 2)
  {
    Parts(n, m);
    Bounded(n / m, m, n, n % m);
  }

  lemma Bounded(q: nat, m: nat, n: nat, r: nat)
    requires m > 0 && n == q * m + r
    ensures q <= n && (m >= 2 ==> 2 * q <= n)
  {
    assert q * (m - 1) >= 0;
    if m >= 2 {
      assert q * (m - 2) >= 0;
    }
  }

  lemma SignedParts(n: int, d: int, q: nat, u: nat)
    requires d != 0 && Magnitude(n) == q * Magnitude(d) + u && Magnitude(n) / Magnitude(d) == q
    ensures n == Truncated(n, d) * d + (if n < 0 then 0 - u else u)
  {
    assert (0 - q) * (-d) == q * d && (0 - q) * d == 0 - q * d && q * (-d) == 0 - q * d;
  }
}
