/** Base64 of section 4 of RFC 4648 (kernel/crypto/util.c). */
module Base64 {
  import opened Arith
  import opened Common
  import opened Bytes

  type sextet = v: nat | v < 64

  /** The character for a six-bit value. */
  function Letter(v: sextet): char {
    if v < 26 then 'A' + v as char
    else if v < 52 then 'a' + (v - 26) as char
    else if v < 62 then '0' + (v - 52) as char
    else if v == 62 then '+' else '/'
  }

  /** The value of a character, if it is in the alphabet. */
  function Value(c: char): Option<sextet> {
    if 'A' <= c <= 'Z' then Some((c - 'A') as nat)
    else if 'a' <= c <= 'z' then Some((c - 'a') as nat + 26)
    else if '0' <= c <= '9' then Some((c - '0') as nat + 52)
    else if c == '+' then Some(62)
    else if c == '/' then Some(63)
    else None
  }

  /** The alphabet of table 1 of RFC 4648 by its codes: capitals, small letters, digits, plus and slash. */
  lemma Alphabet(v: sextet)
    ensures Letter(v) as int == if v <= 25 then 65 + v else if v <= 51 then 71 + v
                                else if v <= 61 then v - 4 else if v == 62 then 43 else 47
    ensures forall c :: Value(c) == Some(v) <==> c == Letter(v)
  {
  }

  lemma LetterValue(v: sextet)
    ensures Value(Letter(v)) == Some(v) && Letter(v) != '='
  {
  }

  /** Three bytes as four values; two as three, one as two, the last value's low bits zero. */
  function Sextets(x: seq<byte>): seq<sextet> {
    if |x| == 0 then []
    else if |x| == 1 then [First(x[0]), Second(x[0], 0)]
    else if |x| == 2 then [First(x[0]), Second(x[0], x[1]), Third(x[1], 0)]
    else [First(x[0]), Second(x[0], x[1]), Third(x[1], x[2]), Fourth(x[2])] + Sextets(x[3..])
  }

  /** The six-bit values across three bytes, high bits first. */
  function First(a: nat): sextet
    requires a < 256
  {
    a / 4
  }

  function Second(a: nat, b: nat): sextet
    requires a < 256 && b < 256
  {
    a % 4 * 16 + b / 16
  }

  function Third(b: nat, c: nat): sextet
    requires b < 256 && c < 256
  {
    b % 16 * 4 + c / 64
  }

  function Fourth(c: nat): sextet
    requires c < 256
  {
    c % 64
  }

  /** The three bytes across four six-bit values. */
  function High(a: nat, b: nat): byte
    requires a < 64 && b < 64
  {
    a * 4 + b / 16
  }

  function Middle(b: nat, c: nat): byte
    requires b < 64 && c < 64
  {
    b % 16 * 16 + c / 4
  }

  function Low(c: nat, d: nat): byte
    requires c < 64 && d < 64
  {
    c % 4 * 64 + d
  }

  lemma Inverse(a: byte, b: byte, c: byte)
    ensures High(First(a), Second(a, b)) == a && Middle(Second(a, b), Third(b, c)) == b
    ensures Low(Third(b, c), Fourth(c)) == c
  {
  }

  function Letters(s: seq<sextet>): string {
    seq(|s|, i requires 0 <= i < |s| => Letter(s[i]))
  }

  function Padding(n: nat): string {
    if n % 3 == 1 then "==" else if n % 3 == 2 then "=" else ""
  }

  /** The encoding: values as letters, padded to a multiple of four. */
  function Encoded(x: seq<byte>): string {
    Letters(Sextets(x)) + Padding(|x|)
  }

  lemma {:induction false} SextetsLength(x: seq<byte>)
    ensures |Sextets(x)| == |x| / 3 * 4 + (if |x| % 3 == 0 then 0 else |x| % 3 + 1)
  {
    if |x| >= 3 {
      SextetsLength(x[3..]);
    }
  }

  lemma EncodedLength(x: seq<byte>)
    ensures |Encoded(x)| == (|x| + 2) / 3 * 4
  {
    SextetsLength(x);
    hide Sextets, Letter;
  }

  /** One group: the encoding of the front, then of the rest. */
  lemma EncodedSplit(x: seq<byte>)
    requires |x| >= 3
    ensures Encoded(x) == Encoded(x[..3]) + Encoded(x[3..])
  {
    hide Sextets, Letter, First, Second, Third, Fourth;
    SextetsSplit(x);
    LettersSplit(Sextets(x[..3]), Sextets(x[3..]));
    Joined(Letters(Sextets(x[..3])), Letters(Sextets(x[3..])), Padding(|x|));
  }

  lemma Joined(a: string, b: string, c: string)
    ensures (a + b) + c == (a + "") + (b + c)
  {
  }

  lemma LettersSplit(a: seq<sextet>, b: seq<sextet>)
    ensures Letters(a + b) == Letters(a) + Letters(b)
  {
    hide Letter;
  }

  lemma SextetsSplit(x: seq<byte>)
    requires |x| >= 3
    ensures Sextets(x) == Sextets(x[..3]) + Sextets(x[3..])
    ensures Sextets(x[..3]) == [First(x[0]), Second(x[0], x[1]), Third(x[1], x[2]), Fourth(x[2])]
  {
    hide First, Second, Third, Fourth;
    assert x[..3][3..] == [];
  }

  /** As much of the encoding as fits in whole groups with a terminator. */
  method Encode(room: nat, x: seq<byte>) returns (r: string)
    ensures room > |Encoded(x)| ==> r == Encoded(x)
    ensures r <= Encoded(x) && |r| % 4 == 0 && (|r| < |Encoded(x)| ==> |r| + 4 >= room)
    ensures room > 0 ==> |r| < room
  {
    hide Encoded, Letter, Group, Word24, Rest;
    r := "";
    var i: nat := 0;
    EncodedLength(x);
    RestEnds(x);
    while i < |x|
      invariant |r| % 4 == 0 && (r == "" || |r| < room) && Encoded(x) == r + Encoded(Rest(x, i))
    {
      EncodedLength(Rest(x, i));
      var v := Word24(x[i], if i + 1 < |x| then x[i + 1] else 0, if i + 2 < |x| then x[i + 2] else 0);
      if |r| + 4 >= room {
        return;
      }
      EncodeStep(x, i, r);
      Multiple(|r|);
      r := r + Group(v, |x| - i);
      i := i + 3;
    }
    EncodedLength(Rest(x, i));
  }

  lemma Multiple(n: nat)
    ensures (n + 4) % 4 == n % 4
  {
  }

  lemma RestEnds(x: seq<byte>)
    ensures Rest(x, 0) == x && forall i: nat :: i >= |x| ==> Rest(x, i) == []
  {
  }

  function Rest(x: seq<byte>, i: nat): seq<byte> {
    x[if i <= |x| then i else |x|..]
  }

  lemma EncodeStep(x: seq<byte>, i: nat, r: string)
    requires i < |x| && Encoded(x) == r + Encoded(Rest(x, i))
    ensures var g := Group(Word24(x[i], if i + 1 < |x| then x[i + 1] else 0, if i + 2 < |x| then x[i + 2] else 0),
                           |x| - i);
            |g| == 4 && Encoded(x) == (r + g) + Encoded(Rest(x, i + 3))
  {
    hide Encoded, Letter, Word24;
    var rest := Rest(x, i);
    GroupIs(rest);
    assert Rest(x, i + 3) == rest[if |rest| < 3 then |rest| else 3..];
  }

  function Word24(a: byte, b: byte, c: byte): nat {
    a as nat * 65536 + b as nat * 256 + c as nat
  }

  /** The four characters for a 24-bit word of which `left` bytes, up to three, are there. */
  function Group(v: nat, left: nat): string {
    [Letter(v / 0x40000 % 64), Letter(v / 0x1000 % 64), if left > 1 then Letter(v / 64 % 64) else '=',
     if left > 2 then Letter(v % 64) else '=']
  }

  lemma Shifts(a: byte, b: byte, c: byte)
    ensures var v := Word24(a, b, c);
            && v / 0x40000 % 64 == First(a) && v / 0x1000 % 64 == Second(a, b)
            && v / 64 % 64 == Third(b, c) && v % 64 == Fourth(c)
  {
    hide First, Second, Third, Fourth;
    ShiftFirst(a, b, c);
    ShiftSecond(a, b, c);
    ShiftThird(a, b, c);
    ShiftFourth(a, b, c);
  }

  lemma ShiftFourth(a: nat, b: nat, c: nat)
    requires a < 256 && b < 256 && c < 256
    ensures (a * 65536 + b * 256 + c) % 64 == Fourth(c)
  {
    assert a * 65536 + b * 256 + c == (a * 1024 + b * 4) * 64 + c;
  }

  lemma ShiftFirst(a: nat, b: nat, c: nat)
    requires a < 256 && b < 256 && c < 256
    ensures (a * 65536 + b * 256 + c) / 0x40000 % 64 == First(a)
  {
    assert a * 65536 + b * 256 + c == a / 4 * 0x40000 + (a % 4 * 65536 + b * 256 + c);
  }

  lemma ShiftSecond(a: nat, b: nat, c: nat)
    requires a < 256 && b < 256 && c < 256
    ensures (a * 65536 + b * 256 + c) / 0x1000 % 64 == Second(a, b)
  {
    assert a * 65536 + b * 256 + c == (a / 4 * 64 + a % 4 * 16 + b / 16) * 0x1000 + (b % 16 * 256 + c);
    assert (a * 65536 + b * 256 + c) / 0x1000 == a / 4 * 64 + (a % 4 * 16 + b / 16);
  }

  lemma ShiftThird(a: nat, b: nat, c: nat)
    requires a < 256 && b < 256 && c < 256
    ensures (a * 65536 + b * 256 + c) / 64 % 64 == Third(b, c)
  {
    assert a * 65536 + b * 256 + c == (a * 1024 + b * 4 + c / 64) * 64 + c % 64;
    assert (a * 65536 + b * 256 + c) / 64 == (a * 16 + b / 16) * 64 + (b % 16 * 4 + c / 64);
  }

  /** The four characters written for the front of the rest are its encoding. */
  lemma GroupIs(rest: seq<byte>)
    requires |rest| > 0
    ensures var g := Group(Word24(rest[0], if |rest| > 1 then rest[1] else 0, if |rest| > 2 then rest[2] else 0),
                           |rest|);
            Encoded(rest) == g + Encoded(rest[if |rest| < 3 then |rest| else 3..])
  {
    hide Letter, Word24, First, Second, Third, Fourth;
    Shifts(rest[0], if |rest| > 1 then rest[1] else 0, if |rest| > 2 then rest[2] else 0);
    if |rest| >= 3 {
      EncodedSplit(rest);
      SextetsSplit(rest);
    }
  }

  /** Four values as three bytes; three as two, two as one, spare low bits dropped. */
  function Regrouped(s: seq<sextet>): seq<byte> {
    if |s| < 2 then []
    else if |s| == 2 then [High(s[0], s[1])]
    else if |s| == 3 then [High(s[0], s[1]), Middle(s[1], s[2])]
    else [High(s[0], s[1]), Middle(s[1], s[2]), Low(s[2], s[3])] + Regrouped(s[4..])
  }

  lemma {:induction false} RegroupedSextets(x: seq<byte>)
    ensures Regrouped(Sextets(x)) == x
  {
    hide First, Second, Third, Fourth, High, Middle, Low;
    if |x| >= 3 {
      RegroupedSextets(x[3..]);
      assert Sextets(x)[4..] == Sextets(x[3..]);
      Inverse(x[0], x[1], x[2]);
    } else if |x| == 2 {
      Inverse(x[0], x[1], 0);
    } else if |x| == 1 {
      Inverse(x[0], 0, 0);
    }
  }

  /** The bits left over after so many values. */
  function Left(n: nat): nat {
    if n % 4 == 0 then 0 else if n % 4 == 1 then 6 else if n % 4 == 2 then 4 else 2
  }

  /** The byte one more value completes, if it does: it depends on the bits left over from the last one. */
  function Completed(left: int, last: sextet, v: sextet): seq<byte> {
    if left == 0 then []
    else if left == 6 then [High(last, v)]
    else if left == 4 then [Middle(last, v)]
    else [Low(last, v)]
  }

  function Last(s: seq<sextet>): sextet {
    if s == [] then 0 else s[|s| - 1]
  }

  lemma {:induction false} RegroupedMore(s: seq<sextet>, v: sextet)
    ensures Regrouped(s + [v]) == Regrouped(s) + Completed(Left(|s|), Last(s), v)
  {
    hide High, Middle, Low;
    LeftAfter(|s|);
    LeftFew(|s|);
    hide Left;
    var t := s + [v];
    if |s| >= 4 {
      RegroupedMore(s[4..], v);
      RegroupedStep(t, s[4..] + [v]);
      RegroupedStep(s, s[4..]);
      if |s| == 4 {
        assert Completed(0, 0, v) == Completed(0, Last(s), v);
      }
    } else if |s| == 3 {
      RegroupedStep(t, []);
    }
  }

  lemma RegroupedStep(t: seq<sextet>, rest: seq<sextet>)
    requires |t| >= 4 && t[4..] == rest
    ensures Regrouped(t) == [High(t[0], t[1]), Middle(t[1], t[2]), Low(t[2], t[3])] + Regrouped(rest)
  {
    hide High, Middle, Low;
  }

  lemma LeftFew(n: nat)
    ensures n >= 4 ==> Left(n) == Left(n - 4)
    ensures Left(0) == 0 && Left(1) == 6 && Left(2) == 4 && Left(3) == 2
  {
  }

  datatype Decoding = Ok(bytes: seq<byte>) | Invalid | NoSpace

  /** The values before the first padding character or foreign character. */
  function Values(src: string): seq<sextet> {
    if src == "" || src[0] == '=' || Value(src[0]) == None then [] else [Value(src[0]).value] + Values(src[1..])
  }

  /** What stops the reading: the end or padding, or a foreign character. */
  predicate Clean(src: string) {
    src == "" || src[0] == '=' || (Value(src[0]).Some? && Clean(src[1..]))
  }

  /** A character read: the accumulator's low bits are the pending ones whatever was shifted out of its 32 bits. */
  lemma Accumulate(acc: nat, v: sextet)
    requires acc < U32
    ensures var a := (acc * 64 + v) % U32;
            && a % 64 == v && a / 16 % 256 == High(acc % 64, v) && a / 4 % 256 == Middle(acc % 64, v)
            && a % 256 == Low(acc % 64, v)
  {
    var m, last := acc / 64, acc % 64;
    var wide := m * 4096 + last * 64 + v;
    assert acc * 64 + v == wide;
    var a, k := wide % U32, wide / U32;
    assert wide == k * U32 + a;
    AccumulateHigh(m, last, v, a, k);
    AccumulateMiddle(m, last, v, a, k);
    AccumulateLow(m, last, v, a, k);
  }

  lemma AccumulateHigh(m: nat, last: nat, v: nat, a: nat, k: nat)
    requires last < 64 && v < 64 && m * 4096 + last * 64 + v == k * U32 + a && a < U32
    ensures a / 16 % 256 == High(last, v)
  {
    var high := last * 4 + v / 16;
    var d := m - k * 0x10_0000;
    Quotient(a, d * 256 + high, v % 16, 16);
    Quotient(a / 16, d, high, 256);
  }

  lemma AccumulateMiddle(m: nat, last: nat, v: nat, a: nat, k: nat)
    requires last < 64 && v < 64 && m * 4096 + last * 64 + v == k * U32 + a && a < U32
    ensures a / 4 % 256 == Middle(last, v)
  {
    var middle := last % 16 * 16 + v / 4;
    var d := m - k * 0x10_0000;
    Quotient(a, (d * 4 + last / 16) * 256 + middle, v % 4, 4);
    Quotient(a / 4, d * 4 + last / 16, middle, 256);
  }

  lemma AccumulateLow(m: nat, last: nat, v: nat, a: nat, k: nat)
    requires last < 64 && v < 64 && m * 4096 + last * 64 + v == k * U32 + a && a < U32
    ensures a % 256 == Low(last, v) && a % 64 == v
  {
    var d := m - k * 0x10_0000;
    Quotient(a, d * 16 + last / 4, last % 4 * 64 + v, 256);
    Quotient(a, d * 64 + last, v, 64);
  }

  /** `s` are the values of the first `i` characters, all in the alphabet. */
  ghost predicate Reading(src: string, i: nat, s: seq<sextet>) {
    i <= |src| && |s| == i && Values(src) == s + Values(src[i..]) && (Clean(src) <==> Clean(src[i..]))
  }

  lemma ReadingStarts(src: string)
    ensures Reading(src, 0, [])
  {
    assert src[0..] == src;
  }

  lemma ReadingGoesOn(src: string, i: nat, s: seq<sextet>)
    requires Reading(src, i, s) && i < |src| && src[i] != '=' && Value(src[i]).Some?
    ensures Reading(src, i + 1, s + [Value(src[i]).value])
    ensures Values(src) == s + [Value(src[i]).value] + Values(src[i + 1..])
  {
    hide Value;
    var v, rest := Value(src[i]).value, src[i + 1..];
    assert src[i..][0] == src[i] && src[i..][1..] == rest;
    assert Values(src[i..]) == [v] + Values(rest) && Clean(src[i..]) == Clean(rest);
    hide Values, Clean;
    OnePast(s, v, Values(rest));
  }

  lemma OnePast(s: seq<sextet>, v: sextet, rest: seq<sextet>)
    ensures s + ([v] + rest) == s + [v] + rest
  {
  }

  lemma ReadingStops(src: string, i: nat, s: seq<sextet>)
    requires Reading(src, i, s) && (i == |src| || src[i] == '=' || Value(src[i]) == None)
    ensures Values(src) == s && (Clean(src) <==> i == |src| || src[i] == '=')
  {
    hide Value;
    assert s + [] == s;
  }

  /** The accumulator and its count of pending bits after the values `s`. */
  ghost predicate Pending(acc: nat, bits: int, s: seq<sextet>) {
    acc < U32 && (s != [] ==> acc % 64 == s[|s| - 1]) && bits == Left(|s|)
  }

  /** What one more value does to the accumulator: a byte comes out unless a group starts. */
  lemma PendingMore(acc: nat, bits: int, s: seq<sextet>, v: sextet)
    requires Pending(acc, bits, s)
    ensures var a := (acc * 64 + v) % U32;
            if bits + 6 >= 8 then
              && Pending(a, bits - 2, s + [v]) && bits - 2 in {0, 2, 4}
              && Regrouped(s + [v]) == Regrouped(s) + [a / Shift(bits - 2) % 256]
            else Pending(a, bits + 6, s + [v]) && Regrouped(s + [v]) == Regrouped(s)
  {
    hide High, Middle, Low, Regrouped, Left;
    Accumulate(acc, v);
    RegroupedMore(s, v);
    LeftAfter(|s|);
  }

  lemma LeftAfter(n: nat)
    ensures Left(n + 1) == if Left(n) + 6 >= 8 then Left(n) - 2 else Left(n) + 6
    ensures n % 4 == 0 <==> Left(n) == 0
    ensures n % 4 == 1 <==> Left(n) == 6
    ensures n % 4 == 2 <==> Left(n) == 4
    ensures n % 4 == 3 <==> Left(n) == 2
  {
  }

  /** Two to the number of pending bits. */
  function Shift(bits: int): (r: nat)
    ensures r > 0
  {
    if bits == 4 then 16 else if bits == 2 then 4 else 1
  }

  /** Decoding stops at padding or the end and gives the bytes of the values before it; a foreign character
      is refused unless the room has run out by then. */
  method Decode(room: nat, src: string) returns (r: Decoding)
    ensures r.Ok? <==> Clean(src) && |Regrouped(Values(src))| <= room
    ensures r.Ok? ==> r.bytes == Regrouped(Values(src))
    ensures r.NoSpace? ==> |Regrouped(Values(src))| > room
  {
    hide Value, Regrouped, Reading, Pending, Clean, Values, Shift;
    var out: seq<byte> := [];
    var acc: nat, bits, i: nat := 0, 0, 0;
    ghost var s: seq<sextet> := [];
    ReadingStarts(src);
    PendingStarts();
    while i < |src|
      invariant i <= |src| && Reading(src, i, s) && Pending(acc, bits, s) && out == Regrouped(s) && |out| <= room
    {
      var q := Value(src[i]);
      if src[i] == '=' || q == None {
        ReadingStops(src, i, s);
        return if src[i] == '=' then Ok(out) else Invalid;
      }
      var v := q.value;
      ReadingGoesOn(src, i, s);
      PendingMore(acc, bits, s, v);
      acc := (acc * 64 + v) % U32;
      bits := bits + 6;
      s := s + [v];
      if bits >= 8 {
        bits := bits - 8;
        if |out| >= room {
          RegroupedGrows(s, Values(src[i + 1..]));
          return NoSpace;
        }
        out := out + [acc / Shift(bits) % 256];
      }
      i := i + 1;
    }
    ReadingStops(src, i, s);
    r := Ok(out);
  }

  lemma PendingStarts()
    ensures Pending(0, 0, []) && Regrouped([]) == []
  {
  }

  lemma {:induction false} RegroupedGrows(s: seq<sextet>, more: seq<sextet>)
    ensures |Regrouped(s)| <= |Regrouped(s + more)|
    decreases |more|
  {
    hide Regrouped, Completed, Left;
    if more == [] {
      assert s + more == s;
    } else {
      RegroupedMore(s, more[0]);
      RegroupedGrows(s + [more[0]], more[1..]);
      assert s + more == s + [more[0]] + more[1..];
    }
  }

  lemma {:induction false} ValuesOfLetters(s: seq<sextet>, pad: string)
    requires pad == "" || pad[0] == '='
    ensures Values(Letters(s) + pad) == s && Clean(Letters(s) + pad)
  {
    hide Letter, Value;
    if s == [] {
      assert Letters(s) + pad == pad;
    } else {
      LetterValue(s[0]);
      ValuesOfLetters(s[1..], pad);
      assert (Letters(s) + pad)[0] == Letter(s[0]) && (Letters(s) + pad)[1..] == Letters(s[1..]) + pad;
      assert s == [s[0]] + s[1..];
    }
  }

  /** For every byte string and room enough, decoding undoes encoding. */
  method RoundTrip(x: seq<byte>) returns (text: string, back: Decoding)
    ensures text == Encoded(x) && back == Ok(x)
  {
    EncodedLength(x);
    text := Encode(|x| * 2 + 8, x);
    ValuesOfLetters(Sextets(x), Padding(|x|));
    RegroupedSextets(x);
    back := Decode(|x|, text);
  }
}
