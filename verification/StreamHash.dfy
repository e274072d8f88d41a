/** Streaming SHA-256 and HMAC over an abstract block function (kernel/crypto/sha256.c). */
module StreamHash {
  import opened Bytes
  import opened Common

  const BLOCK: nat := 64

  /** The eight chaining words. */
  type Words = seq<nat>

  /** The compression of one block into the chaining words, the initial words, and the bytes of the result. */
  datatype Hash = Hash(compress: (Words, seq<byte>) -> Words, initial: Words, output: Words -> seq<byte>)

  /** The whole blocks of a message folded into the chaining words, in order. */
  ghost function Absorb(h: Hash, w: Words, m: seq<byte>): Words
    decreases |m|
  {
    if |m| < BLOCK then w else Absorb(h, h.compress(w, m[..BLOCK]), m[BLOCK..])
  }

  lemma {:induction false} AbsorbSplit(h: Hash, w: Words, a: seq<byte>, b: seq<byte>)
    requires |a| % BLOCK == 0
    ensures Absorb(h, w, a + b) == Absorb(h, Absorb(h, w, a), b)
    decreases |a|
  {
    if |a| == 0 {
      assert a + b == b;
    } else {
      assert (a + b)[..BLOCK] == a[..BLOCK] && (a + b)[BLOCK..] == a[BLOCK..] + b;
      AbsorbSplit(h, h.compress(w, a[..BLOCK]), a[BLOCK..], b);
    }
  }

  function Whole(n: nat): (r: nat)
    ensures r <= n && r % BLOCK == 0 && n - r < BLOCK
  {
    n / BLOCK * BLOCK
  }

  function Zeros(n: nat): seq<byte> {
    seq(n, _ => 0)
  }

  /** Zero bytes between the one bit and the length: the fewest that make a whole number of blocks. */
  function ZeroCount(n: nat): (r: nat)
    ensures r < BLOCK && (n + 1 + r + 8) % BLOCK == 0
  {
    (119 - n % BLOCK) % BLOCK
  }

  lemma Fewest(n: nat, k: nat)
    requires k < ZeroCount(n)
    ensures (n + 1 + k + 8) % BLOCK != 0
  {
  }

  /** The padded message of section 5.1.1 of FIPS 180-4; the bit count is kept in 64 bits. */
  function Padded(m: seq<byte>): (r: seq<byte>)
    ensures |r| % BLOCK == 0 && m <= r
  {
    m + [0x80] + Zeros(ZeroCount(|m|)) + Be64(|m| * 8 % U64)
  }

  /** The message, a one bit, the fewest zero bits, and the length in bits, big-endian. */
  lemma PaddedParts(m: seq<byte>)
    ensures var p := Padded(m);
            && |p| % 64 == 0 && |m| + 9 <= |p| < |m| + 73 && p[..|m|] == m && p[|m|] == 128
            && (forall i :: |m| < i < |p| - 8 ==> p[i] == 0)
            && FromBe64(p[|p| - 8..]) == 8 * |m| % 0x1_0000_0000_0000_0000
  {
    var p := Padded(m);
    assert p[|p| - 8..] == Be64(|m| * 8 % U64);
    Be64RoundTrip(|m| * 8 % U64);
  }

  ghost function Digest(h: Hash, m: seq<byte>): seq<byte> {
    h.output(Absorb(h, h.initial, Padded(m)))
  }

  /** `tail` is what is buffered and `w` the chaining words, after `m` was absorbed. */
  ghost predicate Absorbed(h: Hash, m: seq<byte>, w: Words, tail: seq<byte>) {
    tail == m[Whole(|m|)..] && w == Absorb(h, h.initial, m[..Whole(|m|)])
  }

  lemma WholeMore(n: nat, k: nat)
    requires n - Whole(n) + k <= BLOCK
    ensures Whole(n + k) == if n - Whole(n) + k < BLOCK then Whole(n) else n + k
  {
  }

  /** More bytes that fit the buffer without filling it. */
  lemma Buffered(h: Hash, m: seq<byte>, w: Words, tail: seq<byte>, d: seq<byte>)
    requires Absorbed(h, m, w, tail) && |tail| + |d| < BLOCK
    ensures Absorbed(h, m + d, w, tail + d)
  {
    WholeMore(|m|, |d|);
    assert (m + d)[..Whole(|m|)] == m[..Whole(|m|)] && (m + d)[Whole(|m|)..] == tail + d;
  }

  /** Bytes that complete a block. */
  lemma Completed(h: Hash, m: seq<byte>, w: Words, tail: seq<byte>, d: seq<byte>)
    requires Absorbed(h, m, w, tail) && |tail| + |d| == BLOCK
    ensures Absorbed(h, m + d, h.compress(w, tail + d), [])
  {
    WholeMore(|m|, |d|);
    var front := m[..Whole(|m|)];
    assert m + d == front + (tail + d);
    AbsorbSplit(h, h.initial, front, tail + d);
    assert (tail + d)[..BLOCK] == tail + d && (tail + d)[BLOCK..] == [];
    assert (m + d)[..|m + d|] == m + d;
  }

  class Context {
    const hash: Hash
    var state: Words
    var bitlen: nat
    const buf: array<byte>
    var buflen: nat
    /** Everything absorbed so far. */
    ghost var message: seq<byte>

    ghost predicate Valid()
      reads this, buf
    {
      buf.Length == BLOCK && buflen < BLOCK && Absorbed(hash, message, state, buf[..buflen])
    }

    constructor (hash: Hash)
      ensures Valid() && fresh(buf) && message == [] && bitlen == 0 && this.hash == hash
    {
      this.hash := hash;
      state, bitlen, buflen, message := hash.initial, 0, 0, [];
      buf := new byte[BLOCK](_ => 0);
    }

    /** However the message is cut into updates, what is absorbed is their concatenation. */
    method Update(data: seq<byte>)
      requires Valid()
      modifies this, buf
      ensures Valid() && message == old(message) + data && bitlen == (old(bitlen) + |data| * 8) % U64
    {
      hide Absorbed;
      bitlen := (bitlen + |data| * 8) % U64;
      var p := data;
      if buflen != 0 {
        var need := BLOCK - buflen;
        var take := if |p| < need then |p| else need;
        TopUp(p[..take]);
        p := p[take..];
        assert data == data[..take] + p;
      }
      while |p| >= BLOCK
        invariant Valid() && old(message) + data == message + p && (buflen == 0 || p == [])
        invariant bitlen == (old(bitlen) + |data| * 8) % U64
        decreases |p|
      {
        assert p == p[..BLOCK] + p[BLOCK..];
        Direct(p[..BLOCK]);
        p := p[BLOCK..];
      }
      if p != [] {
        Keep(p);
      }
    }

    /** Compress a block straight from the data. */
    method Direct(d: seq<byte>)
      requires Valid() && buflen == 0 && |d| == BLOCK
      modifies this`state, this`message
      ensures Valid() && message == old(message) + d
    {
      hide Absorbed;
      assert buf[..buflen] == [] && [] + d == d;
      Completed(hash, message, state, [], d);
      state := hash.compress(state, d);
      message := message + d;
    }

    /** Buffer what is left. */
    method Keep(d: seq<byte>)
      requires Valid() && buflen == 0 && |d| < BLOCK
      modifies this`buflen, this`message, buf
      ensures Valid() && message == old(message) + d
    {
      hide Absorbed;
      assert buf[..buflen] == [] && [] + d == d;
      Buffered(hash, message, state, [], d);
      Copy(0, d);
      buflen := |d|;
      message := message + d;
    }

    /** Fill the buffer further, compressing it when it is full. */
    method TopUp(d: seq<byte>)
      requires Valid() && buflen + |d| <= BLOCK && buflen > 0
      modifies this`state, this`buflen, this`message, buf
      ensures Valid() && message == old(message) + d
      ensures buflen == (if old(buflen) + |d| == BLOCK then 0 else old(buflen) + |d|)
    {
      hide Absorbed;
      ghost var tail := buf[..buflen];
      Copy(buflen, d);
      buflen := buflen + |d|;
      assert buf[..buflen] == tail + d;
      if buflen == BLOCK {
        Completed(hash, message, state, tail, d);
        assert buf[..] == tail + d;
        state := hash.compress(state, buf[..]);
        buflen := 0;
        assert buf[..buflen] == [];
      } else {
        Buffered(hash, message, state, tail, d);
      }
      message := message + d;
    }

    method Copy(at: nat, d: seq<byte>)
      requires at + |d| <= buf.Length
      modifies buf
      ensures buf[..at] == old(buf[..at]) && buf[at..at + |d|] == d
    {
      for i := 0 to |d|
        invariant buf[..at] == old(buf[..at]) && buf[at..at + i] == d[..i]
      {
        buf[at + i] := d[i];
        assert buf[at..at + i + 1] == buf[at..at + i] + [d[i]];
      }
    }

    /** The digest of everything absorbed: the block function folded over the padded message. */
    method Final() returns (out: seq<byte>)
      requires Valid() && bitlen == |message| * 8 % U64
      modifies this, buf
      ensures out == Digest(hash, old(message))
    {
      hide Absorbed, ZeroCount;
      var bits := bitlen;
      ghost var m, k: nat := message, 0;
      Update([0x80]);
      bitlen := bits;
      Lengths(|m|, k);
      TailLength(hash, message, state, buf[..buflen]);
      while buflen != 56
        invariant Valid() && k <= ZeroCount(|m|) && message == m + [0x80] + Zeros(k) && buflen == (|m| + 1 + k) % BLOCK
        decreases ZeroCount(|m|) - k
      {
        Lengths(|m|, k);
        Update([0]);
        bitlen := bits;
        assert Zeros(k) + [0] == Zeros(k + 1);
        k := k + 1;
        TailLength(hash, message, state, buf[..buflen]);
      }
      Lengths(|m|, k);
      Update(Be64(bits));
      assert message == Padded(m);
      Finished(hash, message, state, buf[..buflen]);
      out := hash.output(state);
    }
  }

  lemma TailLength(h: Hash, m: seq<byte>, w: Words, tail: seq<byte>)
    requires Absorbed(h, m, w, tail)
    ensures |tail| == |m| % BLOCK
  {
  }

  lemma Finished(h: Hash, m: seq<byte>, w: Words, tail: seq<byte>)
    requires Absorbed(h, m, w, tail) && |m| % BLOCK == 0
    ensures w == Absorb(h, h.initial, m)
  {
    assert m[..|m|] == m;
  }

  /** The zero bytes are enough exactly when the length field is all that is missing from a block. */
  lemma Lengths(n: nat, k: nat)
    requires k <= ZeroCount(n)
    ensures (n + 1 + k) % BLOCK == 56 <==> k == ZeroCount(n)
  {
  }

  /** The low bits of the exclusive or. */
  function XorBits(a: nat, b: nat, n: nat): (r: nat)
    ensures n <= 8 ==> r <= [0, 1, 3, 7, 15, 31, 63, 127, 255][n]
  {
    if n == 0 then 0 else (a + b) % 2 + 2 * XorBits(a / 2, b / 2, n - 1)
  }

  function XorByte(a: byte, b: byte): byte {
    XorBits(a, b, 8)
  }

  function Bit(x: nat, i: nat): nat {
    if i == 0 then x % 2 else Bit(x / 2, i - 1)
  }

  lemma {:induction false} XorBit(a: nat, b: nat, n: nat, i: nat)
    requires i < n
    ensures Bit(XorBits(a, b, n), i) == 1 <==> Bit(a, i) != Bit(b, i)
  {
    LowBit(a, b, XorBits(a / 2, b / 2, n - 1));
    if i > 0 {
      XorBit(a / 2, b / 2, n - 1, i - 1);
    }
  }

  lemma LowBit(a: nat, b: nat, r: nat)
    ensures var x := (a + b) % 2 + 2 * r; x / 2 == r && (x % 2 == 1 <==> a % 2 != b % 2)
  {
  }

  /** Bit by bit, a pad is the block-sized key with the bits of the mask turned over; the key is followed by zeros,
      or hashed first when it is longer than a block. */
  lemma PadBits(h: Hash, key: seq<byte>, mask: byte, i: nat, bit: nat)
    requires i < 64 && bit < 8 && (|key| > BLOCK ==> |Digest(h, key)| <= BLOCK)
    ensures |KeyPad(h, key, mask)| == 64
    ensures var k := if |key| > 64 then Digest(h, key) else key;
            Bit(KeyPad(h, key, mask)[i], bit) == 1 <==> Bit(if i < |k| then k[i] else 0, bit) != Bit(mask, bit)
  {
    XorBit(BlockKey(h, key)[i], mask, 8, bit);
    hide XorBits, Bit, Digest;
  }

  /** The key brought to one block: hashed if longer, then zeros. */
  ghost function BlockKey(h: Hash, key: seq<byte>): seq<byte> {
    var k := if |key| > BLOCK then Digest(h, key) else key;
    if |k| <= BLOCK then k + Zeros(BLOCK - |k|) else k
  }

  ghost function KeyPad(h: Hash, key: seq<byte>, mask: byte): seq<byte> {
    var k := BlockKey(h, key);
    seq(|k|, i requires 0 <= i < |k| => XorByte(k[i], mask))
  }

  /** Section 2 of RFC 2104: the hash of the outer pad and the hash of the inner pad and the text. */
  ghost function Mac(h: Hash, key: seq<byte>, text: seq<byte>): seq<byte> {
    Digest(h, KeyPad(h, key, 0x5C) + Digest(h, KeyPad(h, key, 0x36) + text))
  }

  class Hmac {
    const hash: Hash
    const inner: Context
    const outer: Context
    ghost const key: seq<byte>
    ghost var text: seq<byte>

    ghost predicate Valid()
      reads this, inner, outer, inner.buf, outer.buf
    {
      && inner != outer && inner.buf != outer.buf && inner.hash == outer.hash == hash && inner.Valid() && outer.Valid()
      && inner.message == KeyPad(hash, key, 0x36) + text && outer.message == KeyPad(hash, key, 0x5C)
      && inner.bitlen == |inner.message| * 8 % U64 && outer.bitlen == |outer.message| * 8 % U64
    }

    constructor (hash: Hash, key: seq<byte>)
      requires |key| > BLOCK ==> |Digest(hash, key)| <= BLOCK
      ensures Valid() && fresh(inner) && fresh(outer) && fresh(inner.buf) && fresh(outer.buf) && text == []
      ensures this.hash == hash && this.key == key
    {
      var k := key;
      if |key| > BLOCK {
        var c := new Context(hash);
        c.Update(key);
        assert [] + key == key;
        k := c.Final();
      }
      k := k + seq(BLOCK - |k|, _ => 0);
      assert k == BlockKey(hash, key);
      this.hash, this.key, this.text := hash, key, [];
      inner := new Context(hash);
      outer := new Context(hash);
      new;
      var pad := seq(BLOCK, i requires 0 <= i < BLOCK => XorByte(k[i], 0x36));
      assert pad == KeyPad(hash, key, 0x36);
      assert [] + pad == pad && pad + [] == pad;
      inner.Update(pad);
      pad := seq(BLOCK, i requires 0 <= i < BLOCK => XorByte(k[i], 0x5C));
      assert pad == KeyPad(hash, key, 0x5C);
      assert [] + pad == pad;
      outer.Update(pad);
    }

    method Update(data: seq<byte>)
      requires Valid()
      modifies this`text, inner, inner.buf
      ensures Valid() && text == old(text) + data
    {
      ghost var m := inner.message;
      inner.Update(data);
      text := text + data;
      assert KeyPad(hash, key, 0x36) + text == m + data;
      BitsAdd(|m|, |data|);
    }

    method Final() returns (out: seq<byte>)
      requires Valid()
      modifies this, inner, outer, inner.buf, outer.buf
      ensures out == Mac(hash, key, old(text))
    {
      var digest := inner.Final();
      ghost var m := outer.message;
      outer.Update(digest);
      BitsAdd(|m|, |digest|);
      out := outer.Final();
    }
  }

  lemma BitsAdd(a: nat, b: nat)
    ensures (a * 8 % U64 + b * 8) % U64 == (a + b) * 8 % U64
  {
  }
}
