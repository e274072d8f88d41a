/** Byte strings: the order strcmp and memcmp put on them, and the big-endian,
    length-prefixed encoding the kernel hashes. */
module Bytes {
  type byte = b: nat | b < 256
  type u64 = v: nat | v < 0x1_0000_0000_0000_0000

  /** strcmp(a, b) < 0 for NUL-free strings, memcmp(a, b) < 0 for equal lengths. */
  predicate Less(a: seq<byte>, b: seq<byte>) {
    b != [] && (a == [] || a[0] < b[0] || (a[0] == b[0] && Less(a[1..], b[1..])))
  }

  lemma {:induction false} LessIrreflexive(a: seq<byte>)
    ensures !Less(a, a)
  {
    if a != [] {
      LessIrreflexive(a[1..]);
    }
  }

  lemma {:induction false} LessTransitive(a: seq<byte>, b: seq<byte>, c: seq<byte>)
    requires Less(a, b) && Less(b, c)
    ensures Less(a, c)
  {
    if a != [] && a[0] == b[0] == c[0] {
      LessTransitive(a[1..], b[1..], c[1..]);
    }
  }

  lemma {:induction false} LessTotal(a: seq<byte>, b: seq<byte>)
    ensures Less(a, b) || a == b || Less(b, a)
  {
    if a != [] && b != [] && a[0] == b[0] {
      LessTotal(a[1..], b[1..]);
      assert a == [a[0]] + a[1..] && b == [b[0]] + b[1..];
    }
  }

  lemma LessAsymmetric(a: seq<byte>, b: seq<byte>)
    requires Less(a, b)
    ensures !Less(b, a) && a != b
  {
    if Less(b, a) {
      LessTransitive(a, b, a);
    }
    LessIrreflexive(a);
  }

  function Be64(v: u64): (r: seq<byte>)
    ensures |r| == 8
  {
    [v / 0x100_0000_0000_0000, v / 0x1_0000_0000_0000 % 256, v / 0x100_0000_0000 % 256, v / 0x1_0000_0000 % 256,
     v / 0x100_0000 % 256, v / 0x1_0000 % 256, v / 0x100 % 256, v % 256]
  }

  /** Little-endian words, as they lie in memory. */
  function Le32(v: nat): (r: seq<byte>)
    ensures |r| == 4
  {
    [v % 256, v / 0x100 % 256, v / 0x1_0000 % 256, v / 0x100_0000 % 256]
  }

  function Le64(v: nat): (r: seq<byte>)
    ensures |r| == 8
  {
    Le32(v % 0x1_0000_0000) + Le32(v / 0x1_0000_0000)
  }

  lemma Le32RoundTrip(v: nat)
    requires v < 0x1_0000_0000
    ensures var b := Le32(v);
            v == (b[0] as int) + 0x100 * (b[1] as int) + 0x1_0000 * (b[2] as int) + 0x100_0000 * (b[3] as int)
  {
    var a := v / 0x100;
    var b := a / 0x100;
    var c := b / 0x100;
    assert b == v / 0x1_0000 && c == v / 0x100_0000;
  }

  lemma Le64RoundTrip(v: nat)
    requires v < 0x1_0000_0000_0000_0000
    ensures var b := Le64(v);
            v == (b[0] as int) + 0x100 * (b[1] as int) + 0x1_0000 * (b[2] as int) + 0x100_0000 * (b[3] as int)
                 + 0x1_0000_0000 * ((b[4] as int) + 0x100 * (b[5] as int) + 0x1_0000 * (b[6] as int)
                                    + 0x100_0000 * (b[7] as int))
  {
    Le32RoundTrip(v % 0x1_0000_0000);
    Le32RoundTrip(v / 0x1_0000_0000);
    hide Le32;
  }

  function FromBe64(s: seq<byte>): nat
    requires |s| == 8
  {
    (s[0] as int) * 0x100_0000_0000_0000 + (s[1] as int) * 0x1_0000_0000_0000 +
    (s[2] as int) * 0x100_0000_0000 + (s[3] as int) * 0x1_0000_0000 +
    (s[4] as int) * 0x100_0000 + (s[5] as int) * 0x1_0000 + (s[6] as int) * 0x100 + (s[7] as int)
  }

  lemma Be64RoundTrip(v: u64)
    ensures FromBe64(Be64(v)) == v
  {
    var a := v / 0x100;
    var b := a / 0x100;
    var c := b / 0x100;
    var d := c / 0x100;
    var e := d / 0x100;
    var f := e / 0x100;
    assert b == v / 0x1_0000 && c == v / 0x100_0000 && d == v / 0x1_0000_0000;
    assert e == v / 0x100_0000_0000 && f == v / 0x1_0000_0000_0000 && f / 0x100 == v / 0x100_0000_0000_0000;
  }

  /** A fixed-width number in front of anything can be read back. */
  lemma Be64Prefix(a: u64, x: seq<byte>, b: u64, y: seq<byte>)
    requires Be64(a) + x == Be64(b) + y
    ensures a == b && x == y
  {
    Be64RoundTrip(a);
    Be64RoundTrip(b);
    assert (Be64(a) + x)[..8] == Be64(a) && (Be64(b) + y)[..8] == Be64(b);
    assert (Be64(a) + x)[8..] == x && (Be64(b) + y)[8..] == y;
  }

  function PutBytes(s: seq<byte>): seq<byte>
    requires |s| < 0x1_0000_0000_0000_0000
  {
    Be64(|s|) + s
  }

  lemma PutBytesPrefix(a: seq<byte>, x: seq<byte>, b: seq<byte>, y: seq<byte>)
    requires |a| < 0x1_0000_0000_0000_0000 && |b| < 0x1_0000_0000_0000_0000
    requires PutBytes(a) + x == PutBytes(b) + y
    ensures a == b && x == y
  {
    assert PutBytes(a) + x == Be64(|a|) + (a + x) && PutBytes(b) + y == Be64(|b|) + (b + y);
    Be64Prefix(|a|, a + x, |b|, b + y);
    SplitEqual(a, x, b, y);
  }

  lemma SplitEqual(a: seq<byte>, x: seq<byte>, b: seq<byte>, y: seq<byte>)
    requires |a| == |b| && a + x == b + y
    ensures a == b && x == y
  {
    assert (a + x)[..|a|] == a && (b + y)[..|a|] == b;
    assert (a + x)[|a|..] == x && (b + y)[|a|..] == y;
  }
}
