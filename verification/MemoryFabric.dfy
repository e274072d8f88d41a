/** The content-addressed memory fabric and its wire format (kernel/graph/memfab.c). */
module MemoryFabric {
  import opened Common
  import opened Bytes

  const BUCKETS: nat := 256
  const MAX_VALUE: nat := 65536
  const KEY: nat := 32
  const HEADER: nat := 24

  type Key = k: seq<byte> | |k| == KEY witness seq(KEY, _ => 0)

  function BucketOf(k: Key): (b: nat)
    ensures b < BUCKETS
  {
    (k[0] as nat * 256 + k[1]) % BUCKETS
  }

  /** The bytes held under the listed keys. */
  function Total(m: map<Key, seq<byte>>, ks: seq<Key>): nat {
    if ks == [] then 0 else (if ks[0] in m then |m[ks[0]]| else 0) + Total(m, ks[1..])
  }

  lemma {:induction false} TotalAppend(m: map<Key, seq<byte>>, a: seq<Key>, b: seq<Key>)
    ensures Total(m, a + b) == Total(m, a) + Total(m, b)
  {
    if a == [] {
      assert a + b == b;
    } else {
      assert (a + b)[1..] == a[1..] + b;
      TotalAppend(m, a[1..], b);
    }
  }

  lemma {:induction false} TotalWithout(m: map<Key, seq<byte>>, ks: seq<Key>, k: Key)
    requires Distinct(ks) && k in ks && k in m
    ensures Total(m, ks) == Total(m, Without(ks, k)) + |m[k]| && |Without(ks, k)| == |ks| - 1
  {
    if ks[0] == k {
      assert k !in ks[1..];
      AbsentWithout(ks[1..], k);
    } else {
      TotalWithout(m, ks[1..], k);
    }
  }

  lemma {:induction false} AbsentWithout(ks: seq<Key>, k: Key)
    requires k !in ks
    ensures Without(ks, k) == ks
  {
    if ks != [] {
      AbsentWithout(ks[1..], k);
    }
  }

  /** Only the listed keys matter. */
  lemma {:induction false} TotalSame(m: map<Key, seq<byte>>, m': map<Key, seq<byte>>, ks: seq<Key>)
    requires forall k :: k in ks ==> Get(m', k) == Get(m, k)
    ensures Total(m', ks) == Total(m, ks)
  {
    if ks != [] {
      assert Get(m', ks[0]) == Get(m, ks[0]);
      TotalSame(m, m', ks[1..]);
    }
  }

  /** The list holds each key once. */
  ghost predicate Lists(entries: map<Key, seq<byte>>, lru: seq<Key>) {
    Distinct(lru) && forall k :: k in lru <==> k in entries
  }

  /** Each bucket holds the keys that hash to it. */
  ghost predicate Indexes(entries: map<Key, seq<byte>>, buckets: seq<seq<Key>>) {
    |buckets| == BUCKETS && forall b, k :: 0 <= b < BUCKETS ==> (k in buckets[b] <==> k in entries && BucketOf(k) == b)
  }

  lemma IndexLess(entries: map<Key, seq<byte>>, buckets: seq<seq<Key>>, k: Key)
    requires Indexes(entries, buckets)
    ensures |buckets| == BUCKETS && Indexes(entries - {k}, buckets[BucketOf(k) := Without(buckets[BucketOf(k)], k)])
  {
    hide BucketOf;
  }

  lemma IndexMore(entries: map<Key, seq<byte>>, buckets: seq<seq<Key>>, k: Key, v: seq<byte>)
    requires Indexes(entries, buckets)
    ensures |buckets| == BUCKETS && Indexes(entries[k := v], buckets[BucketOf(k) := [k] + buckets[BucketOf(k)]])
  {
    hide BucketOf;
  }

  lemma ListLess(entries: map<Key, seq<byte>>, lru: seq<Key>)
    requires Lists(entries, lru) && lru != []
    ensures var k, rest := lru[|lru| - 1], lru[..|lru| - 1];
            && k in entries && Lists(entries - {k}, rest)
            && Total(entries, lru) == Total(entries - {k}, rest) + |entries[k]|
  {
    var k, rest := lru[|lru| - 1], lru[..|lru| - 1];
    assert lru == rest + [k];
    assert forall x :: x in lru <==> x in rest || x == k;
    TotalAppend(entries, rest, [k]);
    TotalSame(entries, entries - {k}, rest);
  }

  lemma EmptyList(entries: map<Key, seq<byte>>, lru: seq<Key>)
    ensures lru == [] ==> Total(entries, lru) == 0
  {
  }

  lemma ListMore(entries: map<Key, seq<byte>>, lru: seq<Key>, k: Key, v: seq<byte>)
    requires Lists(entries, lru) && k !in entries
    ensures Lists(entries[k := v], [k] + lru) && Total(entries[k := v], [k] + lru) == Total(entries, lru) + |v|
  {
    assert forall x :: x in [k] + lru <==> x == k || x in lru;
    TotalSame(entries, entries[k := v], lru);
  }

  /** Keeping one entry more than the first `kept` would not have left room. */
  ghost predicate Needed(m: map<Key, seq<byte>>, ks: seq<Key>, kept: nat, want: nat, cap: nat) {
    kept < |ks| ==> Total(m, ks[..kept + 1]) + want > cap
  }

  lemma SameBytes(m: map<Key, seq<byte>>, m': map<Key, seq<byte>>, ks: seq<Key>)
    requires Lists(m', ks) && forall k :: k in m' ==> k in m && m'[k] == m[k]
    ensures Total(m', ks) == Total(m, ks)
  {
    TotalSame(m, m', ks);
  }

  class Fabric {
    var entries: map<Key, seq<byte>>
    var buckets: seq<seq<Key>>
    var lru: seq<Key>
    var bytes: nat
    var count: nat
    const cap: nat

    ghost predicate Valid()
      reads this
    {
      && Lists(entries, lru) && Indexes(entries, buckets) && count == |lru| && bytes == Total(entries, lru)
      && (forall k :: k in entries ==> |entries[k]| <= MAX_VALUE)
      && (bytes <= cap || (count == 1 && cap < MAX_VALUE))
    }

    constructor (cap: nat)
      ensures Valid() && entries == map[] && this.cap == cap && bytes == 0
    {
      this.cap := cap;
      entries, buckets, lru, bytes, count := map[], seq(BUCKETS, _ => []), [], 0, 0;
    }

    method Find(key: Key) returns (r: bool)
      requires Valid()
      ensures r <==> key in entries
    {
      var chain := buckets[BucketOf(key)];
      r := false;
      for i := 0 to |chain|
        invariant key !in chain[..i]
      {
        if chain[i] == key {
          return true;
        }
        assert chain[..i + 1] == chain[..i] + [chain[i]];
      }
      assert chain[..|chain|] == chain;
    }

    /** Drop entries from the end of the list until `want` more bytes fit or none are left. */
    method Evict(want: nat)
      requires Valid()
      modifies this`entries, this`buckets, this`lru, this`bytes, this`count
      ensures Valid() && lru <= old(lru)
      ensures (forall k :: k in entries ==> k in old(entries) && entries[k] == old(entries)[k])
      ensures bytes + want <= cap || lru == []
      ensures old(bytes) + want <= cap ==> entries == old(entries) && lru == old(lru) && bytes == old(bytes)
      ensures Needed(old(entries), old(lru), |lru|, want, cap)
    {
      hide Total, Lists, Indexes;
      assert lru == lru[..|lru|];
      while bytes + want > cap && lru != []
        invariant Valid() && lru <= old(lru)
        invariant (forall k :: k in entries ==> k in old(entries) && entries[k] == old(entries)[k])
        invariant old(bytes) + want <= cap ==> entries == old(entries) && lru == old(lru) && bytes == old(bytes)
        invariant Needed(old(entries), old(lru), |lru|, want, cap)
        decreases |lru|
      {
        SameBytes(old(entries), entries, lru);
        assert lru == old(lru)[..|lru|];
        var victim := lru[|lru| - 1];
        Drop(victim);
      }
    }

    method Drop(victim: Key)
      requires Valid() && lru != [] && victim == lru[|lru| - 1]
      modifies this`entries, this`buckets, this`lru, this`bytes, this`count
      ensures Valid() && lru == old(lru)[..|old(lru)| - 1] && entries == old(entries) - {victim}
    {
      hide Lists, Indexes, Total;
      ListLess(entries, lru);
      EmptyList(entries - {victim}, lru[..|lru| - 1]);
      IndexLess(entries, buckets, victim);
      lru := lru[..|lru| - 1];
      buckets := buckets[BucketOf(victim) := Without(buckets[BucketOf(victim)], victim)];
      bytes := bytes - |entries[victim]|;
      entries := entries - {victim};
      count := count - 1;
    }

    /** A key held keeps its value; a new one is stored, after evicting what it takes to stay in budget. */
    method Put(key: Key, val: seq<byte>, memory: bool) returns (r: Status)
      requires Valid()
      modifies this`entries, this`buckets, this`lru, this`bytes, this`count
      ensures Valid()
      ensures r == TooBig <==> |val| > MAX_VALUE
      ensures r == TooBig || (r == Ok && key in old(entries)) ==> entries == old(entries) && bytes == old(bytes)
      ensures r == NoMemory ==> key !in old(entries) && !memory
      ensures r == Ok ==> key in entries && (key !in old(entries) ==> entries[key] == val)
      ensures forall k :: k in entries && k in old(entries) ==> entries[k] == old(entries)[k]
      ensures forall k :: k in entries ==> k in old(entries) || k == key
      ensures r == Ok && key in old(entries) ==> lru == Without(old(lru), key) + [key]
      ensures r == Ok && key !in old(entries) ==>
                && |lru| > 0
                && lru[0] == key
                && lru[1..] <= old(lru)
                && Needed(old(entries), old(lru), |lru| - 1, |val|, cap)
      ensures r == Ok && key !in old(entries) && old(bytes) + |val| <= cap ==>
                entries == old(entries)[key := val] && bytes == old(bytes) + |val|
    {
      hide Total, Lists, Indexes, Needed;
      if |val| > MAX_VALUE {
        return TooBig;
      }
      var held := Find(key);
      if held {
        MoveToTail(key);
        return Ok;
      }
      Evict(|val|);
      if !memory {
        return NoMemory;
      }
      Insert(key, val);
      r := Ok;
    }

    method MoveToTail(key: Key)
      requires Valid() && key in entries
      modifies this`lru
      ensures Valid() && lru == Without(old(lru), key) + [key]
    {
      hide Indexes;
      TotalWithout(entries, lru, key);
      TotalAppend(entries, Without(lru, key), [key]);
      assert forall k :: k in Without(lru, key) + [key] <==> k in lru;
      lru := Without(lru, key) + [key];
    }

    method Insert(key: Key, val: seq<byte>)
      requires Valid() && key !in entries && |val| <= MAX_VALUE && (bytes + |val| <= cap || lru == [])
      modifies this`entries, this`buckets, this`lru, this`bytes, this`count
      ensures Valid() && entries == old(entries)[key := val] && bytes == old(bytes) + |val| && lru == [key] + old(lru)
    {
      hide Lists, Indexes, Total;
      EmptyList(entries, lru);
      ListMore(entries, lru, key, val);
      IndexMore(entries, buckets, key, val);
      buckets := buckets[BucketOf(key) := [key] + buckets[BucketOf(key)]];
      entries := entries[key := val];
      lru := [key] + lru;
      bytes := bytes + |val|;
      count := count + 1;
    }

    /** The header, then every entry in list order; with too little room, only the size needed. */
    method Serialize(room: nat) returns (size: nat, out: seq<byte>)
      requires Valid()
      ensures size == HEADER + |Wire(Listed(entries, lru))|
      ensures out == if room < size then [] else Header(count, bytes) + Wire(Listed(entries, lru))
    {
      size := SizeNeeded();
      out := if room < size then [] else Header(count, bytes);
      if room >= size {
        out := WriteEntries(out);
      }
    }

    method SizeNeeded() returns (size: nat)
      requires Valid()
      ensures size == HEADER + |Wire(Listed(entries, lru))|
    {
      hide Indexes, Total, Be32, Wire;
      size := HEADER;
      WireNone();
      for i := 0 to |lru|
        invariant size == HEADER + |Wire(Listed(entries, lru[..i]))|
      {
        ListedMore(entries, lru, i);
        size := size + KEY + 4 + |entries[lru[i]]|;
      }
      assert lru[..|lru|] == lru;
    }

    method WriteEntries(head: seq<byte>) returns (out: seq<byte>)
      requires Valid()
      ensures out == head + Wire(Listed(entries, lru))
    {
      hide Indexes, Total, Be32, Wire;
      out := head;
      WireNone();
      for i := 0 to |lru|
        invariant out == head + Wire(Listed(entries, lru[..i]))
      {
        ListedMore(entries, lru, i);
        out := out + (lru[i] + Be32(|entries[lru[i]]|) + entries[lru[i]]);
      }
      assert lru[..|lru|] == lru;
    }

    /** Every entry read before the end, or before one that does not fit, is put; the outcome says which.
        With memory and room for those not yet held, the result is the union in which what was there stays. */
    method Merge(blob: seq<byte>, memory: bool) returns (ok: bool)
      requires Valid()
      modifies this`entries, this`buckets, this`lru, this`bytes, this`count
      ensures Valid()
      ensures ok <==> HeaderOk(blob) && WellFormed(blob[HEADER..])
      ensures !HeaderOk(blob) ==> entries == old(entries)
      ensures HeaderOk(blob) && memory && old(bytes) + Need(old(entries), Parsed(blob[HEADER..])) <= cap ==>
                && entries == PutAll(old(entries), Parsed(blob[HEADER..]))
                && bytes == old(bytes) + Need(old(entries), Parsed(blob[HEADER..]))
    {
      hide Parsed, WellFormed, Need, PutAll, Lists, Indexes, Total, FromBe32, HeaderOk;
      if !HeaderOk(blob) {
        return false;
      }
      HeaderLong(blob);
      var p := blob[HEADER..];
      ghost var most := bytes + Need(entries, Parsed(p));
      ghost var fits := memory && most <= cap;
      while |p| >= KEY + 4
        invariant Valid() && (WellFormed(p) <==> WellFormed(blob[HEADER..]))
        invariant fits ==>
                    && bytes + Need(entries, Parsed(p)) == most
                    && PutAll(entries, Parsed(p)) == PutAll(old(entries), Parsed(blob[HEADER..]))
        decreases |p|
      {
        var n := FromBe32(p[KEY..KEY + 4]);
        ParseStep(p, entries);
        if n > MAX_VALUE || |p| < KEY + 4 + n {
          return false;
        }
        var _ := Put(p[..KEY], p[KEY + 4..KEY + 4 + n], memory);
        p := p[KEY + 4 + n..];
      }
      ParseEnd(p, entries);
      ok := true;
    }
  }

  datatype Status = Ok | TooBig | NoMemory

  type Entry = (Key, seq<byte>)

  function Be32(v: nat): (r: seq<byte>)
    ensures |r| == 4
  {
    [v / 0x100_0000 % 256, v / 0x1_0000 % 256, v / 0x100 % 256, v % 256]
  }

  function FromBe32(s: seq<byte>): nat
    requires |s| == 4
  {
    s[0] as nat * 0x100_0000 + s[1] as nat * 0x1_0000 + s[2] as nat * 0x100 + s[3] as nat
  }

  lemma Be32RoundTrip(v: nat)
    requires v < U32
    ensures FromBe32(Be32(v)) == v
  {
    var a := v / 0x100;
    var b := a / 0x100;
    assert b == v / 0x1_0000 && b / 0x100 == v / 0x100_0000;
  }

  /** "RKMEMFAB", version one, the number of entries and of bytes; the words as they lie in memory. */
  function Header(count: nat, bytes: nat): (r: seq<byte>)
    ensures |r| == HEADER
  {
    [0x52, 0x4B, 0x4D, 0x45, 0x4D, 0x46, 0x41, 0x42] + Le32(1) + Le32(count % U32) + Le64(bytes % U64)
  }

  /** The header byte by byte: the eight letters, and version, count and size with the low byte first. */
  lemma HeaderBytes(count: nat, bytes: nat)
    ensures var h := Header(count, bytes);
            && HeaderOk(h) && h[..8] == [82, 75, 77, 69, 77, 70, 65, 66] && h[8..12] == [1, 0, 0, 0]
            && (h[12] as int) + 0x100 * (h[13] as int) + 0x1_0000 * (h[14] as int) + 0x100_0000 * (h[15] as int) ==
               count % 0x1_0000_0000
            && (h[16] as int) + 0x100 * (h[17] as int) + 0x1_0000 * (h[18] as int) + 0x100_0000 * (h[19] as int)
               + 0x1_0000_0000 * ((h[20] as int) + 0x100 * (h[21] as int) + 0x1_0000 * (h[22] as int)
                                  + 0x100_0000 * (h[23] as int)) == bytes % 0x1_0000_0000_0000_0000
  {
    Le32RoundTrip(count % U32);
    Le64RoundTrip(bytes % U64);
    var h := Header(count, bytes);
    var a, b := Le32(count % U32), Le64(bytes % U64);
    assert h[12..16] == a && h[16..] == b;
    assert forall i :: 0 <= i < 4 ==> h[12 + i] == h[12..16][i];
    assert forall i :: 0 <= i < 8 ==> h[16 + i] == h[16..][i];
    hide Le64, Header;
  }

  lemma OneEntry(e: Entry)
    ensures Wire([e]) == e.0 + Be32(|e.1|) + e.1
  {
    assert Wire([e]) == e.0 + Be32(|e.1|) + e.1 + Wire([e][1..]);
    assert [e][1..] == [];
  }

  /** An entry on the wire: its key, the length of its value in four bytes, the high one first, and the value. */
  lemma EntryBytes(e: Entry)
    requires |e.1| <= MAX_VALUE
    ensures var w := Wire([e]);
            && |w| == 36 + |e.1| && w[..32] == e.0 && w[36..] == e.1
            && |e.1| == (w[32] as int) * 0x100_0000 + (w[33] as int) * 0x1_0000 + (w[34] as int) * 0x100
                        + (w[35] as int)
  {
    Be32RoundTrip(|e.1|);
    var w := Wire([e]);
    OneEntry(e);
    hide Wire, Be32;
    assert w[32..36] == Be32(|e.1|);
    assert forall i :: 0 <= i < 4 ==> w[32 + i] == w[32..36][i];
  }

  predicate HeaderOk(blob: seq<byte>) {
    |blob| >= HEADER && blob[..8] == [0x52, 0x4B, 0x4D, 0x45, 0x4D, 0x46, 0x41, 0x42] && blob[8..12] == [1, 0, 0, 0]
  }

  function Wire(list: seq<Entry>): seq<byte> {
    if list == [] then [] else list[0].0 + Be32(|list[0].1|) + list[0].1 + Wire(list[1..])
  }

  function Listed(entries: map<Key, seq<byte>>, ks: seq<Key>): (r: seq<Entry>)
    requires forall k :: k in ks ==> k in entries
    ensures |r| == |ks|
  {
    seq(|ks|, i requires 0 <= i < |ks| => (ks[i], entries[ks[i]]))
  }

  lemma {:induction false} WireAppend(a: seq<Entry>, b: seq<Entry>)
    ensures Wire(a + b) == Wire(a) + Wire(b)
  {
    if a == [] {
      assert a + b == b;
    } else {
      assert (a + b)[1..] == a[1..] + b;
      WireAppend(a[1..], b);
    }
  }

  lemma WireNone()
    ensures Wire([]) == []
  {
  }

  lemma ListedMore(entries: map<Key, seq<byte>>, ks: seq<Key>, i: nat)
    requires i < |ks| && forall k :: k in ks ==> k in entries
    ensures Wire(Listed(entries, ks[..i + 1])) ==
            Wire(Listed(entries, ks[..i])) + (ks[i] + Be32(|entries[ks[i]]|) + entries[ks[i]])
  {
    var e := (ks[i], entries[ks[i]]);
    assert Listed(entries, ks[..i + 1]) == Listed(entries, ks[..i]) + [e];
    WireAppend(Listed(entries, ks[..i]), [e]);
    assert Wire([e]) == e.0 + Be32(|e.1|) + e.1;
  }

  /** The entries read, up to the end or to one that does not fit. */
  function Parsed(p: seq<byte>): seq<Entry>
    decreases |p|
  {
    if |p| < KEY + 4 then []
    else
      var n := FromBe32(p[KEY..KEY + 4]);
      if n > MAX_VALUE || |p| < KEY + 4 + n then []
      else [(p[..KEY], p[KEY + 4..KEY + 4 + n])] + Parsed(p[KEY + 4 + n..])
  }

  /** Every entry started fits. */
  predicate WellFormed(p: seq<byte>)
    decreases |p|
  {
    |p| < KEY + 4
    || (var n := FromBe32(p[KEY..KEY + 4]);
        n <= MAX_VALUE && |p| >= KEY + 4 + n && WellFormed(p[KEY + 4 + n..]))
  }

  /** The bytes of the entries that are not yet there. */
  function Need(m: map<Key, seq<byte>>, list: seq<Entry>): nat
    decreases |list|
  {
    if list == [] then 0
    else if list[0].0 in m then Need(m, list[1..])
    else |list[0].1| + Need(m[list[0].0 := list[0].1], list[1..])
  }

  /** The union in which what is already there, or came first, stays. */
  function PutAll(m: map<Key, seq<byte>>, list: seq<Entry>): map<Key, seq<byte>>
    decreases |list|
  {
    if list == [] then m
    else PutAll(if list[0].0 in m then m else m[list[0].0 := list[0].1], list[1..])
  }

  lemma HeaderLong(blob: seq<byte>)
    requires HeaderOk(blob)
    ensures |blob| >= HEADER
  {
  }

  /** Reading one more entry, or stopping at one that does not fit. */
  lemma ParseStep(p: seq<byte>, m: map<Key, seq<byte>>)
    requires |p| >= KEY + 4
    ensures var n := FromBe32(p[KEY..KEY + 4]);
            if n > MAX_VALUE || |p| < KEY + 4 + n then
              !WellFormed(p) && PutAll(m, Parsed(p)) == m && Need(m, Parsed(p)) == 0
            else
              var key, val, rest := p[..KEY], p[KEY + 4..KEY + 4 + n], p[KEY + 4 + n..];
              var m' := if key in m then m else m[key := val];
              && (WellFormed(p) <==> WellFormed(rest)) && PutAll(m, Parsed(p)) == PutAll(m', Parsed(rest))
              && Need(m, Parsed(p)) == (if key in m then 0 else n) + Need(m', Parsed(rest))
  {
    hide FromBe32;
  }

  lemma ParseEnd(p: seq<byte>, m: map<Key, seq<byte>>)
    requires |p| < KEY + 4
    ensures WellFormed(p) && PutAll(m, Parsed(p)) == m && Need(m, Parsed(p)) == 0
  {
  }

  lemma {:induction false} ParsedWire(list: seq<Entry>)
    requires forall e :: e in list ==> |e.1| <= MAX_VALUE
    ensures Parsed(Wire(list)) == list && WellFormed(Wire(list))
  {
    if list != [] {
      var k, v := list[0].0, list[0].1;
      var p := Wire(list);
      Be32RoundTrip(|v|);
      assert p[KEY..KEY + 4] == Be32(|v|) && p[..KEY] == k;
      assert p[KEY + 4..KEY + 4 + |v|] == v && p[KEY + 4 + |v|..] == Wire(list[1..]);
      ParsedWire(list[1..]);
    }
  }

  /** What was there stays; what is new is the first of its key; nothing else appears. */
  lemma {:induction false} PutAllIs(m: map<Key, seq<byte>>, list: seq<Entry>, k: Key)
    ensures k in m ==> k in PutAll(m, list) && PutAll(m, list)[k] == m[k]
    ensures k in PutAll(m, list) <==> k in m || exists i :: 0 <= i < |list| && list[i].0 == k
    ensures k !in m && k in PutAll(m, list) ==>
              exists i ::
                0 <= i < |list| && list[i] == (k, PutAll(m, list)[k]) && forall j :: 0 <= j < i ==> list[j].0 != k
    decreases |list|
  {
    if list != [] {
      var m' := if list[0].0 in m then m else m[list[0].0 := list[0].1];
      PutAllIs(m', list[1..], k);
      if k !in m && k in PutAll(m, list) {
        if k in m' {
          assert list[0] == (k, PutAll(m, list)[k]);
        } else {
          var i :| && 0 <= i < |list[1..]| && list[1..][i] == (k, PutAll(m, list)[k])
                   && forall j :: 0 <= j < i ==> list[1..][j].0 != k;
          assert list[i + 1] == (k, PutAll(m, list)[k]) && forall j :: 0 <= j < i + 1 ==> list[j].0 != k;
        }
      }
      assert (exists i :: 0 <= i < |list| && list[i].0 == k) <==>
             list[0].0 == k || exists i :: 0 <= i < |list[1..]| && list[1..][i].0 == k by {
        if i :| 0 <= i < |list| && list[i].0 == k && i > 0 {
          assert list[1..][i - 1].0 == k;
        }
        if i :| 0 <= i < |list[1..]| && list[1..][i].0 == k {
          assert list[i + 1].0 == k;
        }
      }
    }
  }

  /** Merging the same list again changes nothing. */
  lemma PutAllTwice(m: map<Key, seq<byte>>, list: seq<Entry>)
    ensures PutAll(PutAll(m, list), list) == PutAll(m, list) && Need(PutAll(m, list), list) == 0
  {
    var once := PutAll(m, list);
    forall i | 0 <= i < |list|
      ensures list[i].0 in once
    {
      PutAllIs(m, list, list[i].0);
    }
    NothingNew(once, list);
  }

  lemma {:induction false} NothingNew(m: map<Key, seq<byte>>, list: seq<Entry>)
    requires forall i :: 0 <= i < |list| ==> list[i].0 in m
    ensures PutAll(m, list) == m && Need(m, list) == 0
  {
    if list != [] {
      NothingNew(m, list[1..]);
    }
  }

  /** Putting a fabric's listed entries into an empty one gives its entries. */
  lemma PutAllListed(entries: map<Key, seq<byte>>, ks: seq<Key>)
    requires Distinct(ks) && forall k :: k in ks <==> k in entries
    ensures PutAll(map[], Listed(entries, ks)) == entries
  {
    var r := PutAll(map[], Listed(entries, ks));
    forall k
      ensures k in r <==> k in entries
      ensures k in r ==> r[k] == entries[k]
    {
      PutAllIs(map[], Listed(entries, ks), k);
      if k in ks {
        var i :| 0 <= i < |ks| && ks[i] == k;
        assert Listed(entries, ks)[i].0 == k;
      }
    }
  }

  /** The listed entries of a fabric need its bytes in one that has none of them. */
  lemma {:induction false} NeedListed(m: map<Key, seq<byte>>, entries: map<Key, seq<byte>>, ks: seq<Key>)
    requires Distinct(ks) && forall k :: k in ks ==> k in entries && k !in m
    ensures Need(m, Listed(entries, ks)) == Total(entries, ks)
    decreases |ks|
  {
    if ks != [] {
      assert Listed(entries, ks)[1..] == Listed(entries, ks[1..]);
      assert ks[0] !in ks[1..];
      NeedListed(m[ks[0] := entries[ks[0]]], entries, ks[1..]);
    }
  }

  /** A fabric serialised and merged into an empty one with a budget for its bytes comes back entry for
      entry, and merging it once more changes nothing. */
  method Travel(from: Fabric, to: Fabric)
    requires from != to && from.Valid() && to.Valid() && to.entries == map[] && to.cap >= from.bytes
    modifies to
    ensures to.Valid() && to.entries == from.entries && to.bytes == from.bytes
  {
    hide Parsed, WellFormed, Need, PutAll, Lists, Indexes, Total, HeaderOk, Header, Wire, Listed;
    EmptyTotal(to.entries, to.lru);
    var size, _ := from.Serialize(0);
    var _, blob := from.Serialize(size);
    Carried(from.entries, from.lru, Header(from.count, from.bytes));
    Headed(from.count, from.bytes, blob);
    var ok := to.Merge(blob, true);
    PutAllTwice(map[], Parsed(blob[HEADER..]));
    ok := to.Merge(blob, true);
  }

  /** What is read back from a fabric's wire form, and what putting it into an empty one gives. */
  lemma Carried(entries: map<Key, seq<byte>>, ks: seq<Key>, head: seq<byte>)
    requires Lists(entries, ks) && |head| == HEADER && forall k :: k in entries ==> |entries[k]| <= MAX_VALUE
    ensures var blob := head + Wire(Listed(entries, ks));
            && |blob| >= HEADER && WellFormed(blob[HEADER..])
            && Need(map[], Parsed(blob[HEADER..])) == Total(entries, ks)
            && PutAll(map[], Parsed(blob[HEADER..])) == entries
  {
    var list := Listed(entries, ks);
    hide Parsed, WellFormed, Need, PutAll, Total, Wire;
    assert (head + Wire(list))[HEADER..] == Wire(list);
    ParsedWire(list);
    NeedListed(map[], entries, ks);
    PutAllListed(entries, ks);
  }

  lemma Headed(count: nat, bytes: nat, blob: seq<byte>)
    requires Header(count, bytes) <= blob
    ensures HeaderOk(blob)
  {
    var h := Header(count, bytes);
    assert blob[..8] == h[..8] && blob[8..12] == h[8..12];
    assert h[..8] == [0x52, 0x4B, 0x4D, 0x45, 0x4D, 0x46, 0x41, 0x42] && h[8..12] == Le32(1);
  }

  lemma {:induction false} EmptyTotal(m: map<Key, seq<byte>>, ks: seq<Key>)
    requires m == map[]
    ensures Total(m, ks) == 0
  {
    if ks != [] {
      EmptyTotal(m, ks[1..]);
    }
  }
}
