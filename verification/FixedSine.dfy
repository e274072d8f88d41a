/** Fixed-point sine in Q32.32 and the clock transform built on it (kernel/crypto/kaalka.c, include/rk/kaalka.h). */
module FixedSine {
  import opened Arith
  import opened Bytes
  import opened Common

  const ONE: int := 0x1_0000_0000
  const DEG2RAD: int := 74961321
  const FULL: int := 360 * ONE
  const HALF: int := 180 * ONE
  const RIGHT: int := 90 * ONE
  /** The radians of ninety degrees as the code rounds them. */
  const MAX_RAD: int := 6746518890

  /** The 128-bit product shifted right, rounding down. */
  function Mul(a: int, b: int): (r: int)
    ensures a >= 0 && b >= 0 ==> r >= 0
  {
    NonNegative(a, b);
    a * b / ONE
  }

  lemma NonNegative(a: int, b: int)
    ensures a >= 0 && b >= 0 ==> a * b >= 0
  {
  }

  /** What each term of the series is divided by to get the next. */
  function Divisor(n: nat): (r: nat)
    ensures r > 0
  {
    if n == 0 then 1 else 4 * n * n + 2 * n
  }

  /** The code's term of degree 2n + 1. */
  function Term(rad: nat, n: nat): nat {
    if n == 0 then rad else NextTerm(Term(rad, n - 1), Mul(rad, rad), Divisor(n))
  }

  /** The next term from one, the squared argument and the divisor. */
  function NextTerm(t: nat, t2: nat, c: nat): nat
    requires c > 0
  {
    NaturalQuotient(Mul(t, t2), c);
    Mul(t, t2) / c
  }

  lemma NaturalQuotient(a: nat, c: nat)
    requires c > 0
    ensures a / c >= 0
  {
  }

  /** The code's alternating sum up to degree 2n + 1. */
  function Sum(rad: nat, n: nat): int {
    if n == 0 then rad else if n % 2 == 1 then Sum(rad, n - 1) - Term(rad, n) else Sum(rad, n - 1) + Term(rad, n)
  }

  /** The Taylor term of degree 2n + 1 at rad / 2^32, in units of 2^-32, exactly. */
  ghost function ExactTerm(rad: nat, n: nat): real {
    if n == 0 then rad as real
    else Ratio(ExactTerm(rad, n - 1), Square(rad), Divisor(n) as real)
  }

  ghost function Ratio(e: real, s: real, c: real): real
    requires c > 0.0
  {
    e * s / c
  }

  /** The error of a term from that of the one before. */
  ghost function Carried(e: real, s: real, x: real, c: real): real
    requires c > 0.0
  {
    (e * s + x + 1.0) / c + 1.0
  }

  ghost function Square(rad: nat): real {
    (rad as real / 4294967296.0) * (rad as real / 4294967296.0)
  }

  ghost function ExactSum(rad: nat, n: nat): real {
    if n == 0 then rad as real
    else if n % 2 == 1 then ExactSum(rad, n - 1) - ExactTerm(rad, n)
    else ExactSum(rad, n - 1) + ExactTerm(rad, n)
  }

  // ---- the polynomial, by powers and factorials

  ghost function Power(s: real, n: nat): real {
    if n == 0 then 1.0 else Times(Power(s, n - 1), s)
  }

  ghost function Times(a: real, b: real): real {
    a * b
  }

  ghost function Factorial(n: nat): (r: nat)
    ensures r > 0
  {
    if n == 0 then 1
    else
      Positive(Factorial(n - 1), n);
      Factorial(n - 1) * n
  }

  lemma Positive(a: nat, b: nat)
    requires a > 0 && b > 0
    ensures a * b > 0
  {
  }

  /** The term of degree 2n + 1 at the angle x: x (x^2)^n / (2n + 1)!, all in units of 2^-32. */
  ghost function Taylor(rad: nat, n: nat): real {
    var x := rad as real / 4294967296.0;
    Share(rad as real, Power(x * x, n), Factorial(2 * n + 1) as real)
  }

  ghost function Share(x: real, p: real, f: real): real
    requires f > 0.0
  {
    x * p / f
  }

  lemma {:induction false} TermIsTaylor(rad: nat, n: nat)
    ensures ExactTerm(rad, n) == Taylor(rad, n)
  {
    hide Taylor, Divisor, Square;
    if n == 0 {
      FirstTaylor(rad);
    } else {
      TermIsTaylor(rad, n - 1);
      NextTaylor(rad, n);
    }
  }

  lemma FirstTaylor(rad: nat)
    ensures Taylor(rad, 0) == rad as real
  {
    assert Factorial(1) == 1;
  }

  lemma NextTaylor(rad: nat, n: nat)
    requires n > 0
    ensures Taylor(rad, n) == Ratio(Taylor(rad, n - 1), Square(rad), Divisor(n) as real)
  {
    NextFactorial(n);
    hide Taylor, Share, Ratio, Square, Divisor, Factorial, Times;
    var f, c, s, p := Factorial(2 * n - 1), Divisor(n), Square(rad), Power(Square(rad), n - 1);
    assert Power(s, n) == Times(p, s);
    hide Power;
    TaylorIs(rad, n - 1);
    TaylorIs(rad, n);
    NextShare(rad as real, p, s, f, c, Factorial(2 * n + 1));
  }

  lemma TaylorIs(rad: nat, n: nat)
    ensures Taylor(rad, n) == Share(rad as real, Power(Square(rad), n), Factorial(2 * n + 1) as real)
  {
    hide Power, Factorial, Share;
  }

  lemma NextShare(x: real, p: real, s: real, f: nat, c: nat, g: nat)
    requires f > 0 && c > 0 && g > 0 && g == f * c
    ensures Share(x, Times(p, s), g as real) == Ratio(Share(x, p, f as real), s, c as real)
  {
    RealProduct(f, c);
    NextQuotient(x * p, f as real, s, c as real);
    Regroup(x, p, s);
  }

  lemma NextFactorial(n: nat)
    requires n > 0
    ensures Factorial(2 * n + 1) == Factorial(2 * n - 1) * Divisor(n)
  {
    var f := Factorial(2 * n - 1);
    assert Factorial(2 * n) == f * (2 * n) && Factorial(2 * n + 1) == Factorial(2 * n) * (2 * n + 1);
    TwoFactors(f, n);
  }

  lemma TwoFactors(f: nat, n: nat)
    ensures f * (2 * n) * (2 * n + 1) == f * (4 * n * n + 2 * n)
  {
    assert (2 * n) * (2 * n + 1) == 4 * n * n + 2 * n;
    Regrouped(f, 2 * n, 2 * n + 1);
  }

  lemma Regrouped(a: int, b: int, c: int)
    ensures a * b * c == a * (b * c)
  {
  }

  lemma Regroup(a: real, b: real, c: real)
    ensures a * b * c == a * (b * c)
  {
  }

  lemma NextQuotient(a: real, f: real, s: real, c: real)
    requires f > 0.0 && c > 0.0
    ensures f * c > 0.0 && a / f * s / c == a * s / (f * c)
  {
    var q := a / f;
    assert a == q * f;
    assert a * s == (q * s) * f;
    var p := q * s / c;
    assert q * s == p * c;
    assert a * s == p * (f * c);
  }

  /** What the series approximates: the Taylor polynomial of the sine up to the seventeenth power. */
  lemma Polynomial(rad: nat)
    ensures ExactSum(rad, 8) == Taylor(rad, 0) - Taylor(rad, 1) + Taylor(rad, 2) - Taylor(rad, 3) + Taylor(rad, 4)
                                - Taylor(rad, 5) + Taylor(rad, 6) - Taylor(rad, 7) + Taylor(rad, 8)
  {
    hide Taylor;
    for n := 0 to 9
      invariant forall i: nat :: i < n ==> ExactTerm(rad, i) == Taylor(rad, i)
    {
      TermIsTaylor(rad, n);
    }
    hide ExactTerm;
    assert ExactSum(rad, 0) == rad as real == Taylor(rad, 0) by {
      TermIsTaylor(rad, 0);
      FirstExact(rad);
    }
    assert ExactSum(rad, 2) == ExactSum(rad, 0) - ExactTerm(rad, 1) + ExactTerm(rad, 2);
    assert ExactSum(rad, 4) == ExactSum(rad, 2) - ExactTerm(rad, 3) + ExactTerm(rad, 4);
    assert ExactSum(rad, 6) == ExactSum(rad, 4) - ExactTerm(rad, 5) + ExactTerm(rad, 6);
    assert ExactSum(rad, 8) == ExactSum(rad, 6) - ExactTerm(rad, 7) + ExactTerm(rad, 8);
  }

  lemma FirstExact(rad: nat)
    ensures ExactTerm(rad, 0) == rad as real
  {
  }

  lemma RealProduct(q: int, c: int)
    ensures (q * c) as real == q as real * c as real
  {
  }

  lemma DivMono(a: real, b: real, c: real)
    requires a <= b && c > 0.0
    ensures a / c <= b / c
  {
  }

  lemma MulMono(a: real, b: real, k: real)
    requires a <= b && 0.0 <= k
    ensures a * k <= b * k
  {
  }

  lemma SumOver(a: real, b: real, c: real)
    requires c > 0.0
    ensures (a + b) / c == a / c + b / c
  {
  }

  lemma Whole(q: real, c: real)
    requires c > 0.0
    ensures q * c / c == q
  {
  }

  lemma Fraction(r: real, c: real)
    requires 0.0 <= r < c
    ensures 0.0 <= r / c < 1.0
  {
  }

  /** Division rounding down loses less than one. */
  lemma DivReal(a: nat, c: nat)
    requires c > 0
    ensures (a / c) as real <= a as real / c as real < (a / c) as real + 1.0
  {
    var q, r := a / c, a % c;
    assert a == q * c + r;
    RealProduct(q, c);
    RealParts(a as real, q as real, r as real, c as real);
  }

  lemma RealParts(a: real, q: real, r: real, c: real)
    requires c > 0.0 && a == q * c + r && 0.0 <= r < c
    ensures q <= a / c < q + 1.0
  {
    SumOver(q * c, r, c);
    Whole(q, c);
    Fraction(r, c);
  }

  /** The product with the squared argument: below the exact one by its own rounding and the carried error. */
  lemma ProductError(t: nat, exact: real, e: real, t2: nat, s: real)
    requires 0.0 <= exact - t as real <= e && 0.0 <= s
    requires 0.0 <= s - t2 as real / 4294967296.0 <= 1.0 / 4294967296.0
    ensures 0.0 <= exact * s - (t * t2 / ONE) as real <= e * s + t as real / 4294967296.0 + 1.0
  {
    var x, y := t as real, t2 as real / 4294967296.0;
    DivReal(t * t2, ONE);
    RealProduct(t, t2);
    Scaled(x, t2 as real);
    ExactProduct(x, y, exact, s, e);
  }

  lemma Scaled(x: real, y: real)
    ensures x * y / 4294967296.0 == x * (y / 4294967296.0)
  {
  }

  lemma ExactProduct(x: real, y: real, exact: real, s: real, e: real)
    requires 0.0 <= exact - x <= e && 0.0 <= s && 0.0 <= s - y <= 1.0 / 4294967296.0 && 0.0 <= x
    ensures 0.0 <= exact * s - x * y <= e * s + x / 4294967296.0
  {
    var d, g := exact - x, s - y;
    assert exact * s - x * y == d * s + x * g by {
      assert exact == x + d && y == s - g;
    }
    MulMono(0.0, d, s);
    MulMono(d, e, s);
    MulMono(0.0, g, x);
    MulMono(g, 1.0 / 4294967296.0, x);
  }

  /** One step: the code's term is below the exact one by an error that shrinks. `t2` and `s` are the squared
      argument as the code has it and exactly. */
  lemma StepError(t: nat, exact: real, e: real, t2: nat, s: real, c: nat)
    requires c > 0 && 0.0 <= exact - t as real <= e && 0.0 <= s
    requires 0.0 <= s - t2 as real / 4294967296.0 <= 1.0 / 4294967296.0
    ensures var short := Ratio(exact, s, c as real) - NextTerm(t, t2, c) as real;
            0.0 <= short <= Carried(e, s, t as real / 4294967296.0, c as real)
  {
    var p := Mul(t, t2);
    ProductError(t, exact, e, t2, s);
    DivReal(p, c);
    var gap := exact * s - p as real;
    SumOver(p as real, gap, c as real);
    DivMono(0.0, gap, c as real);
    DivMono(gap, e * s + t as real / 4294967296.0 + 1.0, c as real);
    Zero(c as real);
  }

  lemma Zero(c: real)
    requires c > 0.0
    ensures 0.0 / c == 0.0
  {
  }

  /** The squared argument is rounded down by less than a unit. */
  lemma SquareError(rad: nat)
    requires rad <= MAX_RAD
    ensures 0.0 <= Square(rad) - Mul(rad, rad) as real / 4294967296.0 <= 1.0 / 4294967296.0
    ensures 0.0 <= Square(rad) <= 2.4675
  {
    hide Square, Mul;
    SquareRounded(rad);
    SquareSmall(rad);
  }

  lemma SquareRounded(rad: nat)
    ensures 0.0 <= Square(rad) - Mul(rad, rad) as real / 4294967296.0 <= 1.0 / 4294967296.0
  {
    var r, v := rad as real, (rad * rad) as real;
    DivReal(rad * rad, ONE);
    RealProduct(rad, rad);
    SquareOf(r);
    var p := Mul(rad, rad) as real;
    assert p <= v / 4294967296.0 < p + 1.0;
  }

  lemma SquareOf(r: real)
    ensures (r / 4294967296.0) * (r / 4294967296.0) == r * r / 4294967296.0 / 4294967296.0
  {
    Scaled(r, r / 4294967296.0);
    Scaled(r, r);
  }

  lemma SquareSmall(rad: nat)
    requires rad <= MAX_RAD
    ensures 0.0 <= Square(rad) <= 2.4675
  {
    var x := rad as real / 4294967296.0;
    assert 0.0 <= x <= 1.5708;
    MulMono(0.0, x, x);
    MulMono(x, 1.5708, x);
    MulMono(x, 1.5708, 1.5708);
    assert Square(rad) == x * x;
    assert x * x <= 1.5708 * x && x * 1.5708 <= 1.5708 * 1.5708 <= 2.4675;
  }

  /** How far below the exact term the code's can be, in units of 2^-32. */
  ghost function Bound(n: nat): real {
    if n == 0 then 0.0 else if n == 1 then 1.4286 else if n == 2 then 1.26 else 1.1134
  }

  /** How large a term can be, as a number. */
  ghost function Size(n: nat): real {
    if n == 0 then 1.5708 else 0.6461
  }

  lemma DivisorGrows(n: nat)
    requires n >= 1
    ensures Divisor(n) >= 6 && (n >= 2 ==> Divisor(n) >= 20) && (n >= 3 ==> Divisor(n) >= 42)
  {
    if n >= 3 {
      assert n * n >= 3 * n;
    } else if n == 2 {
      assert Divisor(2) == 20;
    }
  }

  lemma {:induction false} TermError(rad: nat, n: nat)
    requires rad <= MAX_RAD
    ensures 0.0 <= ExactTerm(rad, n) - Term(rad, n) as real <= Bound(n) && ExactTerm(rad, n) / 4294967296.0 <= Size(n)
  {
    if n > 0 {
      TermError(rad, n - 1);
      TermStep(rad, n);
    }
  }

  lemma TermStep(rad: nat, n: nat)
    requires rad <= MAX_RAD && n > 0
    requires 0.0 <= ExactTerm(rad, n - 1) - Term(rad, n - 1) as real <= Bound(n - 1)
    requires ExactTerm(rad, n - 1) / 4294967296.0 <= Size(n - 1)
    ensures 0.0 <= ExactTerm(rad, n) - Term(rad, n) as real <= Bound(n) && ExactTerm(rad, n) / 4294967296.0 <= Size(n)
  {
    hide Divisor, Mul, NextTerm, Square, Bound, Size, Term, ExactTerm, Ratio, Carried;
    TermParts(rad, n);
    ErrorStep(rad, n);
    SquareError(rad);
    DivisorGrows(n);
    SizeShrinks(n, ExactTerm(rad, n - 1), Square(rad), Divisor(n) as real);
  }

  lemma TermParts(rad: nat, n: nat)
    requires n > 0
    ensures ExactTerm(rad, n) == Ratio(ExactTerm(rad, n - 1), Square(rad), Divisor(n) as real)
    ensures Term(rad, n) == NextTerm(Term(rad, n - 1), Mul(rad, rad), Divisor(n))
  {
  }

  lemma ErrorStep(rad: nat, n: nat)
    requires rad <= MAX_RAD && n > 0
    requires 0.0 <= ExactTerm(rad, n - 1) - Term(rad, n - 1) as real <= Bound(n - 1)
    requires ExactTerm(rad, n - 1) / 4294967296.0 <= Size(n - 1)
    ensures 0.0 <= ExactTerm(rad, n) - Term(rad, n) as real <= Bound(n)
  {
    hide Divisor, Mul, NextTerm, Square, Bound, Size, Term, ExactTerm, Ratio, Carried;
    TermParts(rad, n);
    SquareError(rad);
    DivisorGrows(n);
    var t := Term(rad, n - 1) as real;
    StepError(Term(rad, n - 1), ExactTerm(rad, n - 1), Bound(n - 1), Mul(rad, rad), Square(rad), Divisor(n));
    DivMono(t, ExactTerm(rad, n - 1), 4294967296.0);
    ErrorShrinks(n, t / 4294967296.0, Square(rad), Divisor(n) as real);
  }

  lemma ErrorShrinks(n: nat, x: real, s: real, c: real)
    requires n >= 1 && 0.0 <= s <= 2.4675 && 0.0 <= x <= Size(n - 1)
    requires c >= 6.0 && (n >= 2 ==> c >= 20.0) && (n >= 3 ==> c >= 42.0)
    ensures Carried(Bound(n - 1), s, x, c) <= Bound(n)
  {
    var low := if n == 1 then 6.0 else if n == 2 then 20.0 else 42.0;
    MulMono(s, 2.4675, Bound(n - 1));
    var top := Bound(n - 1) * 2.4675 + Size(n - 1) + 1.0;
    DivMono(Bound(n - 1) * s + x + 1.0, top, c);
    LargerDivisor(top, low, c);
  }

  lemma LargerDivisor(a: real, c: real, d: real)
    requires 0.0 <= a && 0.0 < c <= d
    ensures a / d <= a / c
  {
    Whole(a / d, c);
    MulMono(c, d, a / d) by {
      DivMono(0.0, a, d);
      Zero(d);
    }
    Undo(a, d);
    DivMono(a / d * c, a, c);
  }

  lemma Undo(a: real, d: real)
    requires d > 0.0
    ensures a / d * d == a
  {
  }

  lemma Ordered(e: real, s: real)
    requires 0.0 <= e && 0.0 <= s <= 2.4675
    ensures 0.0 <= e * s <= e * 2.4675
  {
    MulMono(0.0, e, s);
    MulMono(s, 2.4675, e);
    assert e * s == s * e && e * 2.4675 == 2.4675 * e;
  }

  lemma SizeShrinks(n: nat, e: real, s: real, c: real)
    requires n >= 1 && 0.0 <= s <= 2.4675 && 0.0 <= e && e / 4294967296.0 <= Size(n - 1) && c >= 6.0
    ensures 0.0 <= Ratio(e, s, c) && Ratio(e, s, c) / 4294967296.0 <= Size(n)
  {
    Ordered(e, s);
    DivMono(0.0, e * s, c);
    Zero(c);
    DivMono(e * s, e * 2.4675, c);
    LargerDivisor(e * 2.4675, 6.0, c);
  }

  ghost function Above(n: nat): real {
    if n == 0 then 0.0 else Above(n - 1) + (if n % 2 == 1 then Bound(n) else 0.0)
  }

  ghost function Below(n: nat): real {
    if n == 0 then 0.0 else Below(n - 1) + (if n % 2 == 1 then 0.0 else Bound(n))
  }

  lemma {:induction false} SumError(rad: nat, n: nat)
    requires rad <= MAX_RAD
    ensures -Below(n) <= Sum(rad, n) as real - ExactSum(rad, n) <= Above(n)
  {
    if n > 0 {
      SumError(rad, n - 1);
      TermError(rad, n);
    }
  }

  lemma EightTerms()
    ensures Above(8) < 5.0 && Below(8) < 5.0
  {
    assert Above(2) == 1.4286 && Below(2) == 1.26;
    assert Above(4) == 2.542 && Below(4) == 2.3734;
    assert Above(6) == 3.6554 && Below(6) == 3.4868;
  }

  lemma {:induction false} ZeroTerms(rad: nat, n: nat, m: nat)
    requires n <= m && Term(rad, n) == 0
    ensures Term(rad, m) == 0 && Sum(rad, m) == Sum(rad, n)
  {
    if n < m {
      ZeroTerms(rad, n, m - 1);
    }
  }

  lemma TermSmall(rad: nat, n: nat)
    requires rad <= MAX_RAD
    ensures Term(rad, n) <= MAX_RAD + 20000
  {
    TermError(rad, n);
  }

  lemma {:induction false} SumSmall(rad: nat, n: nat)
    requires rad <= MAX_RAD
    ensures -(n + 1) * 7000000000 <= Sum(rad, n) <= (n + 1) * 7000000000
  {
    TermSmall(rad, n);
    if n > 0 {
      SumSmall(rad, n - 1);
    }
  }

  /** A product of a term and the squared argument fits with room to spare. */
  lemma ProductSmall(rad: nat, n: nat)
    requires rad <= MAX_RAD
    ensures 0 <= Mul(rad, rad) < 11_000_000_000 && 0 <= Mul(Term(rad, n), Mul(rad, rad)) < 20_000_000_000
  {
    hide Term;
    TermSmall(rad, n);
    QuotientBound(rad, MAX_RAD, rad, MAX_RAD);
    QuotientBound(Term(rad, n), MAX_RAD + 20000, Mul(rad, rad), 11_000_000_000);
  }

  lemma QuotientBound(a: nat, top: nat, b: nat, top': nat)
    requires a <= top && b <= top'
    ensures 0 <= Mul(a, b) <= top * top' / ONE
  {
    assert a * b <= top * b <= top * top';
  }

  /** For every reduced argument the sum, early exit included, is within five units of 2^-32 of the Taylor
      polynomial of degree seventeen. Every product, term and partial sum is cut to 64 bits as it is stored,
      and no cut changes it. */
  method SinSeries(rad: nat) returns (sum: int)
    requires rad <= MAX_RAD
    ensures sum == Sum(rad, 8)
    ensures -5.0 < sum as real - ExactSum(rad, 8) < 5.0
    ensures -S63 <= sum < S63
  {
    hide Mul, Term, Sum, ExactSum, ToS64, Divisor;
    SumError(rad, 8);
    EightTerms();
    SumSmall(rad, 8);
    FirstTerm(rad);
    ProductSmall(rad, 0);
    var term := rad;
    sum := rad;
    var rad2 := ToS64(Mul(rad, rad));
    var n := 1;
    while n <= 8
      invariant 1 <= n <= 9 && term == Term(rad, n - 1) && sum == Sum(rad, n - 1)
    {
      NextParts(rad, n);
      ProductSmall(rad, n - 1);
      TermSmall(rad, n);
      SumSmall(rad, n);
      term := ToS64(Mul(term, rad2));
      term := term / Divisor(n);
      sum := ToS64(if n % 2 == 1 then sum - term else sum + term);
      if term == 0 {
        ZeroTerms(rad, n, 8);
        break;
      }
      n := n + 1;
    }
  }

  lemma FirstTerm(rad: nat)
    ensures Term(rad, 0) == Sum(rad, 0) == rad
  {
  }

  lemma NextParts(rad: nat, n: nat)
    requires n > 0
    ensures Term(rad, n) == Mul(Term(rad, n - 1), Mul(rad, rad)) / Divisor(n)
    ensures Sum(rad, n) == if n % 2 == 1 then Sum(rad, n - 1) - Term(rad, n) else Sum(rad, n - 1) + Term(rad, n)
  {
  }

  /** The remainder toward zero, brought into a full turn. */
  function Normalize(d: int): (r: int)
    ensures 0 <= r < FULL && r == d % FULL
  {
    var m := if d >= 0 then d % FULL else -((-d) % FULL);
    if m < 0 then m + FULL else m
  }

  /** The argument folded into the first quadrant. */
  function Folded(d: int): (r: nat)
    ensures r <= RIGHT
  {
    var n := Normalize(d);
    var h := if n >= HALF then n - HALF else n;
    if h > RIGHT then HALF - h else h
  }

  lemma FoldedFits(d: nat)
    requires d <= RIGHT
    ensures 0 <= Mul(d, DEG2RAD) <= MAX_RAD
  {
    assert d * DEG2RAD <= RIGHT * DEG2RAD;
  }

  function KqSin(d: int): int {
    var v := Series(Folded(d));
    if Normalize(d) >= HALF then -v else v
  }

  /** The series at an angle of the first quadrant. */
  function Series(d: nat): int
    requires d <= RIGHT
  {
    FoldedFits(d);
    Sum(Mul(d, DEG2RAD), 8)
  }

  function KqCos(d: int): int {
    KqSin(d + RIGHT)
  }

  method Sine(d: int) returns (r: int)
    ensures r == KqSin(d)
    ensures var rad := Mul(Folded(d), DEG2RAD); rad >= 0 && var e := ExactSum(rad, 8);
            -5.0 < (if Normalize(d) >= HALF then -r else r) as real - e < 5.0
    ensures 0 <= d <= 90 * 0x1_0000_0000 ==>
              var rad := d * 74961321 / 0x1_0000_0000;
              rad >= 0 && -5.0 < r as real - ExactSum(rad, 8) < 5.0
  {
    var n, sign := Normalize(d), 1;
    if n >= HALF {
      n := n - HALF;
      sign := -1;
    }
    if n > RIGHT {
      n := HALF - n;
    }
    FoldedFits(n);
    var v := SinSeries(Mul(n, DEG2RAD));
    r := if sign > 0 then v else -v;
    hide Mul, ExactSum, Sum;
    assert n == Folded(d) && (sign > 0 <==> Normalize(d) < HALF);
    hide Folded, Normalize;
    if 0 <= d <= RIGHT {
      FirstQuadrant(d);
    }
  }

  lemma FirstQuadrant(d: int)
    requires 0 <= d <= RIGHT
    ensures Folded(d) == d && Normalize(d) == d && Mul(d, DEG2RAD) == d * 74961321 / 0x1_0000_0000
  {
  }

  lemma ZeroSum(n: nat)
    ensures Sum(0, n) == 0 && Term(0, n) == 0
  {
    if n > 0 {
      ZeroSum(n - 1);
    }
  }

  /** Turning by full circles changes nothing; turning the other way changes the sign; and the sine of an
      angle is that of its supplement. All exactly, rounding included. */
  lemma SineSymmetries(d: int, turns: int)
    ensures KqSin(d + turns * FULL) == KqSin(d)
    ensures KqSin(-d) == -KqSin(d)
    ensures KqSin(HALF - d) == KqSin(d)
    ensures KqCos(-d) == KqCos(d)
  {
    hide KqSin, Series;
    WholeTurns(d, turns);
    Opposite(d);
    Supplement(d);
    Opposite(d - RIGHT);
    Supplement(RIGHT - d);
    assert HALF - (RIGHT - d) == d + RIGHT && -d + RIGHT == -(d - RIGHT);
  }

  lemma WholeTurns(d: int, turns: int)
    ensures KqSin(d + turns * FULL) == KqSin(d)
  {
    hide Series;
    assert (d + turns * FULL) % FULL == d % FULL;
  }

  lemma SeriesZero()
    ensures Series(0) == 0
  {
    ZeroSum(8);
    assert Mul(0, DEG2RAD) == 0;
  }

  lemma Opposite(d: int)
    ensures KqSin(-d) == -KqSin(d)
  {
    hide Series;
    SeriesZero();
    var n := d % FULL;
    assert (-d) % FULL == if n == 0 then 0 else FULL - n;
  }

  lemma Supplement(d: int)
    ensures KqSin(HALF - d) == KqSin(d)
  {
    hide Series;
    SeriesZero();
    var n := d % FULL;
    assert (HALF - d) % FULL == if n <= HALF then HALF - n else HALF - n + FULL;
  }

  // ---- tangents and the clock

  /** Tangents are cut off here. */
  const CLAMP: int := 0x10_0000_0000_0000

  /** The 128-bit quotient of fixed-point numbers, cut to 64 bits. */
  function KqDiv(a: int, b: int): (r: int)
    ensures -S63 <= r < S63
  {
    if b == 0 then 0 else ToS64(Truncated(a * ONE, b))
  }

  function Clamped(t: int): (r: int)
    ensures (-CLAMP <= t <= CLAMP ==> r == t) && (t > CLAMP ==> r == CLAMP) && (t < -CLAMP ==> r == -CLAMP)
  {
    if t > CLAMP then CLAMP else if t < -CLAMP then -CLAMP else t
  }

  /** A quotient of trigonometric values as the code has it: cut to 64 bits, then clamped. */
  function Cut(a: int, b: int): int {
    if b == 0 then (if a >= 0 then CLAMP else -CLAMP) else Clamped(KqDiv(a, b))
  }

  /** The same without the cut, as the clamp is meant. */
  function Uncut(a: int, b: int): int {
    if b == 0 then (if a >= 0 then CLAMP else -CLAMP) else Clamped(Truncated(a * ONE, b))
  }

  function KqTan(d: int): int {
    Cut(KqSin(d), KqCos(d))
  }

  function KqCot(d: int): int {
    Cut(KqCos(d), KqSin(d))
  }

  /** The quadrant picks the function. */
  function SelectTrig(angle: int): int {
    var a := Normalize(angle);
    match a / RIGHT
    case 0 => KqSin(a)
    case 1 => KqCos(a)
    case 2 => KqTan(a)
    case _ => KqCot(a)
  }

  /** The hands of a clock. */
  datatype Clock = Clock(hour: nat, min: nat, sec: nat)

  function SetTime(h: int, m: int, s: int): (r: Clock)
    ensures OnDial(r) && (h - r.hour) % 12 == 0 && (m - r.min) % 60 == 0 && (s - r.sec) % 60 == 0
  {
    Clock(h % 12, m % 60, s % 60)
  }

  predicate OnDial(k: Clock) {
    k.hour < 12 && k.min < 60 && k.sec < 60
  }

  /** The separation of two hands, the short way round. */
  function Apart(a: int, b: int): int {
    var d := if a > b then a - b else b - a;
    if d < FULL - d then d else FULL - d
  }

  function HourHand(k: Clock): int {
    30 * k.hour * ONE + KqDiv(k.min * ONE, 2 * ONE) + KqDiv(k.sec * ONE, 120 * ONE)
  }

  function MinuteHand(k: Clock): int {
    6 * k.min * ONE + KqDiv(k.sec * ONE, 10 * ONE)
  }

  function SecondHand(k: Clock): int {
    6 * k.sec * ONE
  }

  /** What moves the bytes: the trigonometric values of the three angles between the hands. */
  function Trig(k: Clock): int {
    var h, m, s := HourHand(k), MinuteHand(k), SecondHand(k);
    SelectTrig(Apart(h, m)) + SelectTrig(Apart(m, s)) + SelectTrig(Apart(h, s))
  }

  // ---- where the tangent's quotient wraps

  /** Terms beyond the second shrink at least eightfold. */
  lemma TermShrinks(rad: nat, n: nat)
    requires rad <= MAX_RAD && n >= 2
    ensures 8 * Term(rad, n) <= Term(rad, n - 1)
  {
    hide Term, Divisor, Mul;
    NextParts(rad, n);
    DivisorGrows(n);
    var t, t2 := Term(rad, n - 1), Mul(rad, rad);
    QuotientBound(rad, MAX_RAD, rad, MAX_RAD);
    MulFloor(t, t2);
    ProductBound(t, t2, 10_600_000_000);
    Eighth(t, Mul(t, t2), t * t2, Divisor(n));
  }

  lemma Eighth(t: nat, m: nat, product: nat, c: nat)
    requires m * ONE <= product <= t * 10_600_000_000 && c >= 20
    ensures 8 * (m / c) <= t
  {
    SmallerQuotient(m, 20, c);
  }

  lemma MulFloor(a: nat, b: nat)
    ensures 0 <= a * b && Mul(a, b) * ONE <= a * b < Mul(a, b) * ONE + ONE
  {
  }

  lemma ProductBound(a: nat, b: nat, top: nat)
    requires b <= top
    ensures a * b <= a * top
  {
  }

  lemma SmallerQuotient(a: nat, c: nat, d: nat)
    requires 0 < c <= d
    ensures a / d <= a / c
  {
    Parts(a, d);
    Parts(a, c);
    Grows(c, d, a / d);
    NoMore(a / d, a / c, c, a);
  }

  lemma NoMore(q: nat, p: nat, c: nat, a: nat)
    requires c * q <= a && a < p * c + c
    ensures q <= p
  {
    assert (p + 1) * c == p * c + c;
    if q > p {
      Grows(p + 1, q, c);
    }
  }

  /** The alternating sum lies between its first partial sums. */
  lemma SumBetween(rad: nat)
    requires rad <= MAX_RAD
    ensures rad - Term(rad, 1) <= Sum(rad, 8) <= rad - Term(rad, 1) + Term(rad, 2)
  {
    hide Term, Sum;
    FirstTerm(rad);
    TermShrinks(rad, 2);
    TermShrinks(rad, 3);
    TermShrinks(rad, 4);
    TermShrinks(rad, 5);
    TermShrinks(rad, 6);
    TermShrinks(rad, 7);
    TermShrinks(rad, 8);
    SumParts(rad);
  }

  lemma SumParts(rad: nat)
    ensures Sum(rad, 8) == rad - Term(rad, 1) + Term(rad, 2) - Term(rad, 3) + Term(rad, 4) - Term(rad, 5)
                           + Term(rad, 6) - Term(rad, 7) + Term(rad, 8)
  {
    hide Term;
    FirstTerm(rad);
    NextParts(rad, 1);
    NextParts(rad, 2);
    NextParts(rad, 3);
    NextParts(rad, 4);
    NextParts(rad, 5);
    NextParts(rad, 6);
    NextParts(rad, 7);
    NextParts(rad, 8);
    hide Sum;
  }

  /** The second term is less than five twelfths of the argument, and more than a third near the right angle. */
  lemma SecondTerm(rad: nat)
    requires rad <= MAX_RAD
    ensures 12 * Term(rad, 1) <= 5 * rad
    ensures 2 * rad >= 3 * ONE ==> 3 * Term(rad, 1) >= rad
  {
    hide Mul, Term;
    NextParts(rad, 1);
    FirstTerm(rad);
    assert Divisor(1) == 6;
    var t2 := Mul(rad, rad);
    MulFloor(rad, rad);
    ProductBound(rad, rad, MAX_RAD);
    assert t2 * ONE <= rad * MAX_RAD <= MAX_RAD * MAX_RAD;
    assert t2 <= 10_597_407_150;
    MulFloor(rad, t2);
    ProductBound(rad, t2, 10_597_407_150);
    if 2 * rad >= 3 * ONE {
      assert rad * rad >= 3 * ONE / 2 * rad by {
        ProductBound(rad, 3 * ONE / 2, rad);
      }
      assert 3 * ONE / 2 * rad >= 3 * ONE / 2 * (3 * ONE / 2);
      assert t2 >= 9_600_000_000;
      ProductBound(rad, 9_600_000_000, t2);
    }
  }

  /** The sine of a reduced argument is no less than seven twelfths of it and below one and a half. */
  lemma SumRange(rad: nat)
    requires rad <= MAX_RAD
    ensures 12 * Sum(rad, 8) >= 7 * rad && 2 * Sum(rad, 8) < 3 * ONE
  {
    hide Mul, Term, Sum;
    SumBetween(rad);
    SecondTerm(rad);
    TermShrinks(rad, 2);
  }

  /** Small arguments are their own sine. */
  lemma SumTiny(rad: nat)
    requires rad <= 65535
    ensures Sum(rad, 8) == rad
  {
    hide Mul, Term, Sum, Divisor;
    ProductBound(rad, rad, 65535);
    MulFloor(rad, rad);
    FirstTerm(rad);
    NextParts(rad, 1);
    MulZero(rad);
    assert Mul(rad, rad) == 0 && Divisor(1) > 0;
    ZeroTerms(rad, 1, 8);
  }

  lemma MulZero(a: nat)
    ensures Mul(a, 0) == 0
  {
  }

  lemma SumNearRight()
    ensures Sum(MAX_RAD - 2, 8) == ONE + 1
  {
    var rad := 6746518888;
    assert Mul(rad, rad) == 10597407144;
    assert Term(rad, 1) == 2774394717;
    assert Term(rad, 2) == 342277232;
    assert Term(rad, 3) == 20107981;
    assert Term(rad, 4) == 689089;
    assert Term(rad, 5) == 15456;
    assert Term(rad, 6) == 244;
    assert Term(rad, 7) == 2;
    assert Term(rad, 8) == 0;
  }

  lemma SumNextToRight()
    ensures Sum(MAX_RAD - 3, 8) == ONE + 2
  {
    var rad := 6746518887;
    assert Mul(rad, rad) == 10597407140;
    assert Term(rad, 1) == 2774394715;
    assert Term(rad, 2) == 342277232;
    assert Term(rad, 3) == 20107981;
    assert Term(rad, 4) == 689089;
    assert Term(rad, 5) == 15456;
    assert Term(rad, 6) == 244;
    assert Term(rad, 7) == 2;
    assert Term(rad, 8) == 0;
  }

  /** The sine of an angle of the first quadrant, small or not. */
  lemma SeriesRange(f: nat)
    requires f <= RIGHT
    ensures 0 <= 2 * Series(f) < 3 * ONE
    ensures f <= 57 ==> Series(f) == 0
    ensures f >= 172 ==> Series(f) >= 3
  {
    FoldedFits(f);
    var rad := Mul(f, DEG2RAD);
    SumRange(rad);
    if rad <= 65535 {
      SumTiny(rad);
    }
    hide Sum;
    if f >= 172 {
      assert f * DEG2RAD >= 3 * ONE;
    }
  }

  /** The two sines where the smaller is one unit or two. */
  lemma SeriesNear(f: nat)
    requires 58 <= f <= 171
    ensures Series(f) == if f <= 114 then 1 else 2
    ensures Series(RIGHT - f) == if f <= 114 then ONE + 1 else ONE + 2
  {
    SumNearRight();
    SumNextToRight();
    SumTiny(1);
    SumTiny(2);
    hide Sum, Term;
    FoldedFits(f);
    FoldedFits(RIGHT - f);
    assert Mul(f, DEG2RAD) == if f <= 114 then 1 else 2;
    assert Mul(RIGHT - f, DEG2RAD) == if f <= 114 then MAX_RAD - 2 else MAX_RAD - 3;
  }

  /** A quotient whose divisor has its angle `f` units from zero and whose dividend as far from the right angle
      is changed by its cut exactly when the divisor is one unit or two. */
  lemma QuotientWraps(a: int, b: int, f: nat)
    requires f <= RIGHT && Magnitude(b) == Series(f) && Magnitude(a) == Series(RIGHT - f)
    ensures Cut(a, b) == Uncut(a, b) <==> !(58 <= f <= 171)
    ensures 58 <= f <= 171 ==> var same := (a < 0) == (b < 0);
                               && Uncut(a, b) == (if same then CLAMP else -CLAMP)
                               && Cut(a, b) == (if f <= 114 then (if same then ONE else -ONE)
                                                else if same then -CLAMP else CLAMP)
  {
    hide Cut, Uncut;
    SeriesRange(f);
    SeriesRange(RIGHT - f);
    if 58 <= f <= 171 {
      SeriesNear(f);
      hide Series;
      NearQuotient(a, b);
    } else {
      hide Series;
      FarQuotient(a, b);
    }
  }

  lemma NearQuotient(a: int, b: int)
    requires (Magnitude(b) == 1 && Magnitude(a) == ONE + 1) || (Magnitude(b) == 2 && Magnitude(a) == ONE + 2)
    ensures var same := (a < 0) == (b < 0);
            && Uncut(a, b) == (if same then CLAMP else -CLAMP)
            && Cut(a, b) == (if Magnitude(b) == 1 then (if same then ONE else -ONE) else if same then -CLAMP else CLAMP)
  {
    var q := Truncated(a * ONE, b);
    if Magnitude(b) == 1 {
      assert Magnitude(q) == (ONE + 1) * ONE;
    } else {
      assert Magnitude(q) == (ONE + 2) * (ONE / 2);
    }
  }

  lemma FarQuotient(a: int, b: int)
    requires b == 0 || Magnitude(b) >= 3
    requires 2 * Magnitude(a) < 3 * ONE
    ensures Cut(a, b) == Uncut(a, b)
  {
    if b != 0 {
      SmallerQuotient(Magnitude(a * ONE), 3, Magnitude(b));
      Fits64(a * ONE, b);
    }
  }

  lemma Fits64(n: int, d: int)
    requires d != 0 && Magnitude(n) / Magnitude(d) < S63
    ensures ToS64(Truncated(n, d)) == Truncated(n, d)
  {
  }

  /** An angle and the one a right angle on fold to complements. */
  lemma Complement(d: int)
    ensures Folded(d) == RIGHT - Folded(d + RIGHT)
  {
    var n := d % FULL;
    assert (d + RIGHT) % FULL == if n + RIGHT < FULL then n + RIGHT else n + RIGHT - FULL;
  }

  lemma SineSize(d: int)
    ensures Magnitude(KqSin(d)) == Series(Folded(d))
  {
    SeriesRange(Folded(d));
    hide Series, Folded, Normalize;
  }

  lemma UncutIs(a: int, b: int)
    ensures Uncut(a, b) == if b != 0 then Clamped(Truncated(a * ONE, b)) else if a >= 0 then CLAMP else -CLAMP
  {
  }

  /** Exactly where the tangent is not the clamped quotient: the angle is from 58 to 171 units of 2^-32 degree
      off an asymptote. There the quotient of a sine near one and a cosine of one or two units leaves 64 bits,
      and comes back as one or with the other sign. */
  lemma TangentWraps(d: int)
    ensures KqTan(d) == Uncut(KqSin(d), KqCos(d)) <==> !(58 <= Folded(d + RIGHT) <= 171)
    ensures Uncut(KqSin(d), KqCos(d)) ==
            if KqCos(d) != 0 then Clamped(Truncated(KqSin(d) * ONE, KqCos(d)))
            else if KqSin(d) >= 0 then CLAMP else -CLAMP
    ensures 58 <= Folded(d + RIGHT) <= 114 ==> Magnitude(KqTan(d)) == ONE
    ensures 115 <= Folded(d + RIGHT) <= 171 ==> KqTan(d) == -Uncut(KqSin(d), KqCos(d))
  {
    UncutIs(KqSin(d), KqCos(d));
    hide Series, Folded, Cut, Uncut, KqSin;
    SineSize(d);
    SineSize(d + RIGHT);
    Complement(d);
    QuotientWraps(KqSin(d), KqCos(d), Folded(d + RIGHT));
  }

  /** The cotangent the same way, off its own asymptotes. */
  lemma CotangentWraps(d: int)
    ensures KqCot(d) == Uncut(KqCos(d), KqSin(d)) <==> !(58 <= Folded(d) <= 171)
    ensures Uncut(KqCos(d), KqSin(d)) ==
            if KqSin(d) != 0 then Clamped(Truncated(KqCos(d) * ONE, KqSin(d)))
            else if KqCos(d) >= 0 then CLAMP else -CLAMP
    ensures 58 <= Folded(d) <= 114 ==> Magnitude(KqCot(d)) == ONE
    ensures 115 <= Folded(d) <= 171 ==> KqCot(d) == -Uncut(KqCos(d), KqSin(d))
  {
    UncutIs(KqCos(d), KqSin(d));
    hide Series, Folded, Cut, Uncut, KqSin;
    SineSize(d);
    SineSize(d + RIGHT);
    Complement(d);
    QuotientWraps(KqCos(d), KqSin(d), Folded(d));
  }

  lemma SineBound(d: int)
    ensures 2 * Magnitude(KqSin(d)) < 3 * ONE
  {
    SineSize(d);
    SeriesRange(Folded(d));
  }

  lemma StraightAngle()
    ensures KqTan(HALF) == 0
  {
    SeriesRange(0);
    SeriesRange(RIGHT);
    hide Series, Cut;
    assert Normalize(HALF) == HALF && Folded(HALF) == 0;
    assert Normalize(HALF + RIGHT) == HALF + RIGHT && Folded(HALF + RIGHT) == RIGHT;
    hide Folded, Normalize;
    assert KqSin(HALF) == 0 && KqCos(HALF) != 0;
    ZeroQuotient(KqCos(HALF));
  }

  lemma Quadrant(angle: int)
    requires 0 <= angle <= HALF
    ensures Normalize(angle) == angle
    ensures angle / RIGHT == if angle < RIGHT then 0 else if angle < HALF then 1 else 2
  {
  }

  /** How far round the hands are: the hour hand turns once in 43200 seconds, the minute hand in 3600 and the second
      hand in 60. */
  lemma HandsStand(k: Clock)
    requires OnDial(k)
    ensures HourHand(k) == (3600 * k.hour + 60 * k.min + k.sec) * (360 * ONE) / 43200
    ensures MinuteHand(k) == (60 * k.min + k.sec) * (360 * ONE) / 3600
    ensures SecondHand(k) == k.sec * (360 * ONE) / 60
  {
    hide HourHand, MinuteHand;
    HourStands(k);
    MinuteStands(k);
    hide OnDial;
  }

  lemma HourStands(k: Clock)
    requires OnDial(k)
    ensures HourHand(k) == (3600 * k.hour + 60 * k.min + k.sec) * (360 * ONE) / 43200
  {
    HandAt(k.min, 2);
    HandAt(k.sec, 120);
    hide KqDiv;
  }

  lemma MinuteStands(k: Clock)
    requires OnDial(k)
    ensures MinuteHand(k) == (60 * k.min + k.sec) * (360 * ONE) / 3600
  {
    HandAt(k.sec, 10);
    hide KqDiv;
  }

  /** The value an angle between hands gives: the sine up to a right angle, the cosine beyond, nothing when the hands
      are opposite. */
  function Pull(a: int, b: int): int {
    var d := if a < b then b - a else a - b;
    var short := if d <= HALF then d else FULL - d;
    if short < RIGHT then KqSin(short) else if short < HALF then KqSin(short + RIGHT) else 0
  }

  /** What moves the bytes, by the time of day. */
  lemma TrigIs(k: Clock)
    requires OnDial(k)
    ensures var h := (3600 * k.hour + 60 * k.min + k.sec) * (360 * ONE) / 43200;
            var m, s := (60 * k.min + k.sec) * (360 * ONE) / 3600, k.sec * (360 * ONE) / 60;
            Trig(k) == Pull(h, m) + Pull(m, s) + Pull(h, s)
  {
    HandsStand(k);
    HandsFit(k);
    hide SelectTrig, KqSin, HourHand, MinuteHand, SecondHand, Pull, Apart;
    PullIs(HourHand(k), MinuteHand(k));
    PullIs(MinuteHand(k), SecondHand(k));
    PullIs(HourHand(k), SecondHand(k));
  }

  lemma PullIs(a: int, b: int)
    requires 0 <= a < FULL && 0 <= b < FULL
    ensures SelectTrig(Apart(a, b)) == Pull(a, b)
  {
    hide SelectTrig, KqSin;
    ShortWay(Apart(a, b));
  }

  /** No tangent or cotangent but that of a straight angle, which is zero, is taken of an angle between hands. */
  lemma ShortWay(angle: int)
    requires 0 <= angle <= HALF
    ensures SelectTrig(angle) == if angle < RIGHT then KqSin(angle) else if angle < HALF then KqCos(angle) else 0
    ensures 2 * Magnitude(SelectTrig(angle)) < 3 * ONE
  {
    hide KqSin, KqTan, KqCot, Normalize;
    Quadrant(angle);
    SineBound(angle);
    SineBound(angle + RIGHT);
    StraightAngle();
  }

  lemma ZeroQuotient(b: int)
    requires b != 0
    ensures Cut(0, b) == 0
  {
  }

  lemma HandAt(x: nat, n: nat)
    requires x < 60 && n in {2, 10, 120}
    ensures KqDiv(x * ONE, n * ONE) == x * ONE / n
  {
  }

  /** The hands of a clock are less than a full turn round. */
  lemma HandsFit(k: Clock)
    requires OnDial(k)
    ensures 0 <= HourHand(k) < FULL && 0 <= MinuteHand(k) < FULL && 0 <= SecondHand(k) < FULL
  {
    HandAt(k.min, 2);
    HandAt(k.sec, 120);
    HandAt(k.sec, 10);
    hide KqDiv;
    assert k.min * ONE / 2 <= 30 * ONE - ONE / 2 && k.sec * ONE / 120 < ONE / 2;
    assert k.sec * ONE / 10 < 6 * ONE;
  }

  /** The three values are sines and cosines. */
  lemma TrigBound(k: Clock)
    requires OnDial(k)
    ensures 2 * Magnitude(Trig(k)) < 9 * ONE
  {
    HandsFit(k);
    hide SelectTrig, Apart, HourHand, MinuteHand, SecondHand;
    HandsApart(HourHand(k), MinuteHand(k));
    HandsApart(MinuteHand(k), SecondHand(k));
    HandsApart(HourHand(k), SecondHand(k));
  }

  lemma HandsApart(a: int, b: int)
    requires 0 <= a < FULL && 0 <= b < FULL
    ensures 2 * Magnitude(SelectTrig(Apart(a, b))) < 3 * ONE
  {
    ShortWay(Apart(a, b));
  }

  /** How far byte `i` is moved: the trigonometric sum times the clock's factor, rounded half up, and the
      position, each step cut to 64 bits. */
  function Offset(k: Clock, i: nat): int {
    var scaled := Trig(k) * (k.hour + k.min + k.sec + i + 1);
    var whole := ToS64(scaled / ONE);
    ToS64(ToS64(whole + (if scaled % ONE >= ONE / 2 then 1 else 0)) + i + 1)
  }

  function Shifted(b: byte, offset: int, encrypt: bool): byte {
    ((if encrypt then b as int + offset else b as int - offset) % 256) as byte
  }

  /** Within a message of 2^60 bytes no cut changes the offset: it is the product rounded to the nearest whole
      number, and the position. */
  lemma OffsetExact(k: Clock, i: nat)
    requires OnDial(k) && i < 0x1000_0000_0000_0000
    ensures var moved := (Offset(k, i) - i - 1) * ONE;
            moved - ONE / 2 <= Trig(k) * (k.hour + k.min + k.sec + i + 1) < moved + ONE / 2
  {
    hide Trig;
    TrigBound(k);
    var scaled := Trig(k) * (k.hour + k.min + k.sec + i + 1);
    Between(Trig(k), 5 * ONE, k.hour + k.min + k.sec + i + 1, 0x1000_0000_0000_0100);
    var most := 5 * 0x1000_0000_0000_0100;
    assert 5 * ONE * 0x1000_0000_0000_0100 == most * ONE;
    assert -most <= scaled / ONE <= most;
  }

  /** The low byte survives the cut. */
  lemma LowByte(x: int)
    ensures ToS64(x) % 256 == x % 256
  {
    var k := (x + S63) / (2 * S63);
    assert ToS64(x) == x - k * (2 * S63);
    assert k * (2 * S63) == 256 * (k * 0x100_0000_0000_0000);
  }

  lemma Between(a: int, top: int, f: int, most: int)
    requires -top <= a <= top && 0 <= f <= most
    ensures -(top * most) <= a * f <= top * most
  {
    assert (top - a) * f >= 0 && (top + a) * f >= 0;
    assert top * (most - f) >= 0;
  }

  /** The clock transform, in place or into another buffer, with every 64-bit value cut as it is stored. */
  method ClassicApply(k: Clock, input: array<byte>, output: array<byte>, encrypt: bool)
    requires output.Length == input.Length
    modifies output
    ensures forall i :: 0 <= i < output.Length ==> output[i] == Shifted(old(input[i]), Offset(k, i), encrypt)
    ensures forall i :: 0 <= i < output.Length ==>
              output[i] as int == (if encrypt then old(input[i]) as int + Offset(k, i)
                                   else old(input[i]) as int - Offset(k, i)) % 256
  {
    hide ToS64, Trig;
    var t := Trig(k);
    for i := 0 to input.Length
      invariant forall j :: 0 <= j < i ==> output[j] == Shifted(old(input[j]), Offset(k, j), encrypt)
      invariant forall j :: i <= j < input.Length ==> input[j] == old(input[j])
    {
      var scaled := t * (k.hour + k.min + k.sec + i + 1);
      var whole := ToS64(scaled / ONE);
      if scaled % ONE >= ONE / 2 {
        whole := ToS64(whole + 1);
      }
      var offset := ToS64(whole + i + 1);
      CutTwice(scaled / ONE);
      assert offset == Offset(k, i);
      hide Offset;
      var v := if encrypt then input[i] as int + offset else input[i] as int - offset;
      LowByte(v);
      output[i] := ToS64(v) % 256;
    }
    hide Offset;
  }

  lemma CutTwice(x: int)
    ensures ToS64(ToS64(x)) == ToS64(x)
  {
  }

  /** Decrypting undoes encrypting, whatever the offset, negative ones included. */
  lemma ShiftBack(b: byte, offset: int)
    ensures Shifted(Shifted(b, offset, true), offset, false) == b
  {
  }

  method ClassicRoundTrip(k: Clock, text: array<byte>)
    modifies text
    ensures text[..] == old(text[..])
  {
    ClassicApply(k, text, text, true);
    ghost var middle := text[..];
    ClassicApply(k, text, text, false);
    forall i | 0 <= i < text.Length
      ensures text[i] == old(text[i])
    {
      assert middle[i] == Shifted(old(text[i]), Offset(k, i), true);
      ShiftBack(old(text[i]), Offset(k, i));
    }
  }
}
