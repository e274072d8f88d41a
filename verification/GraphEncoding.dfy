/** The canonical encoding of one graph node (kernel/graph/graph.c), which is the
    definition of node identity, and the sorted attribute array it relies on. */
module GraphEncoding {
  import opened Bytes
  import opened DigestOrder

  const MAX_ATTRS: nat := 12
  const KEY_MAX: nat := 15      // char key[16], NUL included
  const STR_MAX: nat := 47      // char str[48] and char label[48]

  type Key = k: seq<byte> | |k| <= KEY_MAX
  type Str = s: seq<byte> | |s| <= STR_MAX
  type s64 = v: int | -0x8000_0000_0000_0000 <= v < 0x8000_0000_0000_0000

  datatype Value =
    | NoValue
    | U64(u: u64)
    | S64(s: s64)
    | Text(str: Str)
    | Bool(b: bool)
    | Dig(d: Digest)

  datatype Attr = Attr(key: Key, val: Value)

  /** The hashed part of a node: its own fields. */
  datatype Own = Own(kind: u64, labelText: Str, attrs: seq<Attr>, edges: seq<(u64, u64)>)

  function Tag(v: Value): u64 {
    match v
    case NoValue => 0
    case U64(_) => 1
    case S64(_) => 2
    case Text(_) => 3
    case Bool(_) => 4
    case Dig(_) => 5
  }

  function EncValue(v: Value): seq<byte> {
    match v
    case NoValue => []
    case U64(u) => Be64(u)
    case S64(s) => Be64(if s < 0 then s + 0x1_0000_0000_0000_0000 else s)
    case Text(str) => PutBytes(str)
    case Bool(b) => Be64(if b then 1 else 0)
    case Dig(d) => PutBytes(d)
  }

  function EncAttr(a: Attr): seq<byte> {
    PutBytes(a.key) + (Be64(Tag(a.val)) + EncValue(a.val))
  }

  function EncAttrs(attrs: seq<Attr>): seq<byte> {
    if attrs == [] then [] else EncAttr(attrs[0]) + EncAttrs(attrs[1..])
  }

  function EncEdges(es: seq<(u64, u64)>): seq<byte> {
    if es == [] then [] else Be64(es[0].0) + (Be64(es[0].1) + EncEdges(es[1..]))
  }

  /** Machine words count the children and the edges. */
  predicate Fits(own: Own, kids: seq<Digest>) {
    |own.attrs| <= MAX_ATTRS && |own.edges| < 0x1_0000_0000_0000_0000 && |kids| < 0x1_0000_0000_0000_0000
  }

  /** A count as put_be64 sees it. */
  function Count(n: nat): u64 {
    n % 0x1_0000_0000_0000_0000
  }

  /** What node_digest_locked feeds the hash. */
  function Encode(own: Own, kids: seq<Digest>): seq<byte> {
    Be64(own.kind) + (PutBytes(own.labelText) + (Be64(Count(|own.attrs|)) + (EncAttrs(own.attrs) + EncTail(own, kids))))
  }

  function EncTail(own: Own, kids: seq<Digest>): seq<byte> {
    Be64(Count(|kids|)) + (Concat(kids) + (Be64(Count(|own.edges|)) + EncEdges(own.edges)))
  }

  lemma Assoc(a: seq<byte>, b: seq<byte>, c: seq<byte>)
    ensures (a + b) + c == a + (b + c)
  {
  }

  /** The encoding in the order its pieces are fed to the hash. */
  lemma EncodeFlat(own: Own, kids: seq<Digest>)
    ensures Be64(own.kind) + PutBytes(own.labelText) + Be64(Count(|own.attrs|)) + EncAttrs(own.attrs)
            + Be64(Count(|kids|)) + Concat(kids) + Be64(Count(|own.edges|)) + EncEdges(own.edges) == Encode(own, kids)
  {
    var k, l, n, a := Be64(own.kind), PutBytes(own.labelText), Be64(Count(|own.attrs|)), EncAttrs(own.attrs);
    var m, d, e, f := Be64(Count(|kids|)), Concat(kids), Be64(Count(|own.edges|)), EncEdges(own.edges);
    Flatten(k, l, n, a, m, d, e, f);
  }

  lemma Flatten(k: seq<byte>, l: seq<byte>, n: seq<byte>, a: seq<byte>, m: seq<byte>, d: seq<byte>, e: seq<byte>,
          f: seq<byte>)
    ensures k + l + n + a + m + d + e + f == k + (l + (n + (a + (m + (d + (e + f))))))
  {
    Assoc(k + l + n + a + m + d, e, f);
    Assoc(k + l + n + a + m, d, e + f);
    Assoc(k + l + n + a, m, d + (e + f));
    Assoc(k + l + n, a, m + (d + (e + f)));
    Assoc(k + l, n, a + (m + (d + (e + f))));
    Assoc(k, l, n + (a + (m + (d + (e + f)))));
  }

  lemma {:induction false} AttrsSnoc(attrs: seq<Attr>, a: Attr)
    ensures EncAttrs(attrs + [a]) == EncAttrs(attrs) + EncAttr(a)
  {
    if attrs == [] {
      assert attrs + [a] == [a];
    } else {
      assert (attrs + [a])[1..] == attrs[1..] + [a];
      AttrsSnoc(attrs[1..], a);
      Assoc(EncAttr(attrs[0]), EncAttrs(attrs[1..]), EncAttr(a));
    }
  }

  lemma {:induction false} EdgesSnoc(es: seq<(u64, u64)>, e: (u64, u64))
    ensures EncEdges(es + [e]) == EncEdges(es) + Be64(e.0) + Be64(e.1)
  {
    if es == [] {
      assert es + [e] == [e];
    } else {
      assert (es + [e])[1..] == es[1..] + [e];
      EdgesSnoc(es[1..], e);
    }
  }

  /** What is fed for each attribute: its key, the word of its type, and its value. */
  lemma TypeWords(k: Key, u: u64, i: s64, str: Str, b: bool, d: Digest)
    ensures EncAttr(Attr(k, NoValue)) == PutBytes(k) + Be64(0)
    ensures EncAttr(Attr(k, U64(u))) == PutBytes(k) + Be64(1) + Be64(u)
    ensures EncAttr(Attr(k, S64(i))) == PutBytes(k) + Be64(2) + Be64(i % 0x1_0000_0000_0000_0000)
    ensures EncAttr(Attr(k, Text(str))) == PutBytes(k) + Be64(3) + PutBytes(str)
    ensures EncAttr(Attr(k, Bool(b))) == PutBytes(k) + Be64(4) + Be64(if b then 1 else 0)
    ensures EncAttr(Attr(k, Dig(d))) == PutBytes(k) + Be64(5) + PutBytes(d)
  {
    hide PutBytes, Be64;
    Assoc(PutBytes(k), Be64(1), Be64(u));
    Assoc(PutBytes(k), Be64(2), Be64(i % 0x1_0000_0000_0000_0000));
    Assoc(PutBytes(k), Be64(3), PutBytes(str));
    Assoc(PutBytes(k), Be64(4), Be64(if b then 1 else 0));
    Assoc(PutBytes(k), Be64(5), PutBytes(d));
    assert i % 0x1_0000_0000_0000_0000 == if i < 0 then i + 0x1_0000_0000_0000_0000 else i;
    assert Be64(0) + [] == Be64(0);
  }

  lemma ValuePrefix(v: Value, x: seq<byte>, w: Value, y: seq<byte>)
    requires Tag(v) == Tag(w) && EncValue(v) + x == EncValue(w) + y
    ensures v == w && x == y
  {
    match v
    case NoValue => assert [] + x == x && [] + y == y;
    case U64(u) => Be64Prefix(u, x, w.u, y);
    case S64(s) =>
      Be64Prefix(if s < 0 then s + 0x1_0000_0000_0000_0000 else s, x,
                 if w.s < 0 then w.s + 0x1_0000_0000_0000_0000 else w.s, y);
    case Text(str) => PutBytesPrefix(str, x, w.str, y);
    case Bool(b) => Be64Prefix(if b then 1 else 0, x, if w.b then 1 else 0, y);
    case Dig(d) => PutBytesPrefix(d, x, w.d, y);
  }

  lemma AttrPrefix(a: Attr, x: seq<byte>, b: Attr, y: seq<byte>)
    requires EncAttr(a) + x == EncAttr(b) + y
    ensures a == b && x == y
  {
    hide EncValue, PutBytes, Be64;
    var ta, tb := Be64(Tag(a.val)), Be64(Tag(b.val));
    var va, vb := EncValue(a.val), EncValue(b.val);
    Assoc(PutBytes(a.key), ta + va, x);
    Assoc(PutBytes(b.key), tb + vb, y);
    PutBytesPrefix(a.key, (ta + va) + x, b.key, (tb + vb) + y);
    Assoc(ta, va, x);
    Assoc(tb, vb, y);
    Be64Prefix(Tag(a.val), va + x, Tag(b.val), vb + y);
    ValuePrefix(a.val, x, b.val, y);
  }

  lemma {:induction false} AttrsPrefix(a: seq<Attr>, x: seq<byte>, b: seq<Attr>, y: seq<byte>)
    requires |a| == |b| && EncAttrs(a) + x == EncAttrs(b) + y
    ensures a == b && x == y
  {
    hide EncAttr;
    if a == [] {
      assert EncAttrs(a) + x == x && EncAttrs(b) + y == y;
    } else {
      Assoc(EncAttr(a[0]), EncAttrs(a[1..]), x);
      Assoc(EncAttr(b[0]), EncAttrs(b[1..]), y);
      AttrPrefix(a[0], EncAttrs(a[1..]) + x, b[0], EncAttrs(b[1..]) + y);
      AttrsPrefix(a[1..], x, b[1..], y);
      assert a == [a[0]] + a[1..] && b == [b[0]] + b[1..];
    }
  }

  lemma {:induction false} EdgesInjective(a: seq<(u64, u64)>, b: seq<(u64, u64)>)
    requires |a| == |b| && EncEdges(a) == EncEdges(b)
    ensures a == b
  {
    hide Be64;
    if a != [] {
      var restA, restB := EncEdges(a[1..]), EncEdges(b[1..]);
      Be64Prefix(a[0].0, Be64(a[0].1) + restA, b[0].0, Be64(b[0].1) + restB);
      Be64Prefix(a[0].1, restA, b[0].1, restB);
      EdgesInjective(a[1..], b[1..]);
      assert a == [a[0]] + a[1..] && b == [b[0]] + b[1..];
    }
  }

  /** Identity: the encoding determines kind, label, attributes, child digests and edges. */
  lemma EncodeInjective(a: Own, ka: seq<Digest>, b: Own, kb: seq<Digest>)
    requires Fits(a, ka) && Fits(b, kb) && Encode(a, ka) == Encode(b, kb)
    ensures a == b && ka == kb
  {
    hide Be64, PutBytes, EncAttrs, EncEdges, Concat;
    var a3, b3 := EncAttrs(a.attrs) + EncTail(a, ka), EncAttrs(b.attrs) + EncTail(b, kb);
    var a2, b2 := Be64(|a.attrs|) + a3, Be64(|b.attrs|) + b3;
    Be64Prefix(a.kind, PutBytes(a.labelText) + a2, b.kind, PutBytes(b.labelText) + b2);
    PutBytesPrefix(a.labelText, a2, b.labelText, b2);
    Be64Prefix(|a.attrs|, a3, |b.attrs|, b3);
    AttrsPrefix(a.attrs, EncTail(a, ka), b.attrs, EncTail(b, kb));
    var a5, b5 := Be64(|a.edges|) + EncEdges(a.edges), Be64(|b.edges|) + EncEdges(b.edges);
    Be64Prefix(|ka|, Concat(ka) + a5, |kb|, Concat(kb) + b5);
    ConcatInjective(ka, a5, kb, b5);
    Be64Prefix(|a.edges|, EncEdges(a.edges), |b.edges|, EncEdges(b.edges));
    EdgesInjective(a.edges, b.edges);
  }

  // ---- the sorted attribute array

  /** `k` comes before every key of the array. */
  predicate Below(k: seq<byte>, attrs: seq<Attr>) {
    attrs == [] || (Less(k, attrs[0].key) && Below(k, attrs[1..]))
  }

  /** Strictly ascending keys. */
  predicate Ascending(attrs: seq<Attr>) {
    attrs == [] || (Below(attrs[0].key, attrs[1..]) && Ascending(attrs[1..]))
  }

  /** What the array says about each key. */
  ghost function AttrMap(attrs: seq<Attr>): map<seq<byte>, Value> {
    if attrs == [] then map[] else AttrMap(attrs[1..])[attrs[0].key := attrs[0].val]
  }

  function Truncate(key: seq<byte>): (k: Key) {
    if |key| <= KEY_MAX then key else key[..KEY_MAX]
  }

  /** The attributes after setting `key`; `room` says whether a new one fits. */
  function SetAttr(attrs: seq<Attr>, key: seq<byte>, val: Value, room: bool): (r: seq<Attr>) {
    if attrs == [] then (if room then [Attr(Truncate(key), val)] else [])
    else if attrs[0].key == key then [Attr(attrs[0].key, val)] + attrs[1..]
    else if Less(attrs[0].key, key) then [attrs[0]] + SetAttr(attrs[1..], key, val, room)
    else if room then [Attr(Truncate(key), val)] + attrs
    else attrs
  }

  /** A scan for `key` up to the first larger key meets it. */
  predicate Held(attrs: seq<Attr>, key: seq<byte>) {
    attrs != [] && (attrs[0].key == key || (Less(attrs[0].key, key) && Held(attrs[1..], key)))
  }

  lemma {:induction false} SetAttrSkip(attrs: seq<Attr>, i: nat, key: seq<byte>, val: Value, room: bool)
    requires i <= |attrs|
    requires forall j :: 0 <= j < i ==> attrs[j].key != key && Less(attrs[j].key, key)
    ensures SetAttr(attrs, key, val, room) == attrs[..i] + SetAttr(attrs[i..], key, val, room)
    ensures Held(attrs, key) == Held(attrs[i..], key)
  {
    hide Less, Truncate;
    if i > 0 {
      SetAttrSkip(attrs[1..], i - 1, key, val, room);
      assert attrs[1..][i - 1..] == attrs[i..];
      assert attrs[..i] == [attrs[0]] + attrs[1..][..i - 1];
    }
  }

  /** SetAttr in terms of the position a scan from the front stops at. */
  lemma SetAttrAt(attrs: seq<Attr>, i: nat, key: seq<byte>, val: Value, room: bool)
    requires i <= |attrs|
    requires forall j :: 0 <= j < i ==> attrs[j].key != key && Less(attrs[j].key, key)
    requires i < |attrs| ==> attrs[i].key == key || !Less(attrs[i].key, key)
    ensures SetAttr(attrs, key, val, room) ==
            if i < |attrs| && attrs[i].key == key then attrs[i := Attr(attrs[i].key, val)]
            else if room then attrs[..i] + [Attr(Truncate(key), val)] + attrs[i..]
            else attrs
    ensures Held(attrs, key) <==> i < |attrs| && attrs[i].key == key
  {
    hide Less;
    SetAttrSkip(attrs, i, key, val, room);
    assert Held(attrs[i..], key) <==> i < |attrs| && attrs[i].key == key;
    hide Held;
    assert attrs == attrs[..i] + attrs[i..];
    var rest := SetAttr(attrs[i..], key, val, room);
    if i < |attrs| {
      assert attrs[i..][0] == attrs[i] && attrs[i..][1..] == attrs[i + 1..];
    }
    if i < |attrs| && attrs[i].key == key {
      assert attrs[..i] + ([Attr(attrs[i].key, val)] + attrs[i + 1..]) == attrs[i := Attr(attrs[i].key, val)];
    } else if room {
      assert rest == [Attr(Truncate(key), val)] + attrs[i..];
    } else {
      assert rest == attrs[i..];
    }
  }

  lemma {:induction false} BelowMap(k: seq<byte>, attrs: seq<Attr>)
    requires Below(k, attrs)
    ensures forall x :: x in AttrMap(attrs) ==> Less(k, x)
    ensures k !in AttrMap(attrs)
  {
    LessIrreflexive(k);
    if attrs != [] {
      BelowMap(k, attrs[1..]);
    }
  }

  lemma {:induction false} BelowTransitive(k: seq<byte>, l: seq<byte>, attrs: seq<Attr>)
    requires Less(k, l) && Below(l, attrs)
    ensures Below(k, attrs)
  {
    if attrs != [] {
      LessTransitive(k, l, attrs[0].key);
      BelowTransitive(k, l, attrs[1..]);
    }
  }

  lemma {:induction false} BelowSet(k: seq<byte>, attrs: seq<Attr>, key: Key, val: Value, room: bool)
    requires Below(k, attrs) && Less(k, key)
    ensures Below(k, SetAttr(attrs, key, val, room))
  {
    if attrs != [] && attrs[0].key != key && Less(attrs[0].key, key) {
      BelowSet(k, attrs[1..], key, val, room);
    }
  }

  /** Setting a key that fits its field keeps the array ascending and updates the map. */
  lemma {:induction false} SetAttrUpdates(attrs: seq<Attr>, key: Key, val: Value, room: bool)
    requires Ascending(attrs)
    ensures Ascending(SetAttr(attrs, key, val, room))
    ensures AttrMap(SetAttr(attrs, key, val, room)) ==
            if room || key in AttrMap(attrs) then AttrMap(attrs)[key := val] else AttrMap(attrs)
  {
    hide Less;
    if attrs != [] {
      LessTotal(attrs[0].key, key);
      if attrs[0].key == key {
      } else if Less(attrs[0].key, key) {
        SetAttrUpdates(attrs[1..], key, val, room);
        BelowSet(attrs[0].key, attrs[1..], key, val, room);
      } else {
        BelowTransitive(key, attrs[0].key, attrs[1..]);
        assert Below(key, attrs);
        BelowMap(key, attrs);
        hide Below;
      }
    }
  }

  /** An ascending attribute array is determined by its key-value map. */
  lemma {:induction false} AttrsCanonical(a: seq<Attr>, b: seq<Attr>)
    requires Ascending(a) && Ascending(b) && AttrMap(a) == AttrMap(b)
    ensures a == b
  {
    if b != [] {
      assert b[0].key in AttrMap(b);
    }
    if a != [] {
      assert a[0].key in AttrMap(a);
      assert b != [];
      BelowMap(a[0].key, a[1..]);
      BelowMap(b[0].key, b[1..]);
      assert b[0].key in AttrMap(b);
      if a[0].key != b[0].key {
        LessAsymmetric(a[0].key, b[0].key);
      }
      assert AttrMap(a[1..]) == AttrMap(a) - {a[0].key};
      assert AttrMap(b[1..]) == AttrMap(b) - {b[0].key};
      AttrsCanonical(a[1..], b[1..]);
      assert a == [a[0]] + a[1..] && b == [b[0]] + b[1..];
    }
  }

  /** One set, in an array of MAX_ATTRS slots. */
  function Put(attrs: seq<Attr>, key: seq<byte>, val: Value): seq<Attr> {
    SetAttr(attrs, key, val, |attrs| < MAX_ATTRS)
  }

  /** The same on the key-value map: a new key is refused when all slots are taken. */
  ghost function PutMap(m: map<seq<byte>, Value>, key: Key, val: Value): map<seq<byte>, Value> {
    if key in m || |m| < MAX_ATTRS then m[key := val] else m
  }

  lemma {:induction false} MapSize(attrs: seq<Attr>)
    requires Ascending(attrs)
    ensures |AttrMap(attrs)| == |attrs|
  {
    hide Less;
    if attrs != [] {
      MapSize(attrs[1..]);
      BelowMap(attrs[0].key, attrs[1..]);
      assert AttrMap(attrs).Keys == AttrMap(attrs[1..]).Keys + {attrs[0].key};
    }
  }

  /** A set of a key that fits its field. */
  lemma PutIs(attrs: seq<Attr>, key: Key, val: Value)
    requires Ascending(attrs) && |attrs| <= MAX_ATTRS
    ensures Ascending(Put(attrs, key, val)) && |Put(attrs, key, val)| <= MAX_ATTRS
    ensures AttrMap(Put(attrs, key, val)) == PutMap(AttrMap(attrs), key, val)
  {
    hide SetAttr, AttrMap, Ascending;
    SetAttrUpdates(attrs, key, val, |attrs| < MAX_ATTRS);
    MapSize(attrs);
    MapSize(Put(attrs, key, val));
    Grown(AttrMap(attrs), key, val);
  }

  lemma Grown(m: map<seq<byte>, Value>, k: seq<byte>, v: Value)
    ensures |m[k := v]| == |m| + if k in m then 0 else 1
  {
    assert m[k := v].Keys == m.Keys + {k};
    assert k in m ==> m[k := v].Keys == m.Keys;
  }
}
