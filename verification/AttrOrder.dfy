/** The order in which attributes are set, and setting one twice, for keys of any length (kernel/graph/graph.c). */
module AttrOrder {
  import opened Bytes
  import opened GraphEncoding

  // ---- keys and their stored forms

  lemma {:induction false} PrefixLess(e: seq<byte>, x: seq<byte>, n: nat)
    requires |e| <= n <= |x|
    ensures e != x[..n] ==> (Less(e, x) <==> Less(e, x[..n]))
    ensures e == x[..n] && n < |x| ==> Less(e, x)
    decreases n
  {
    if e != [] && e[0] == x[0] {
      PrefixLess(e[1..], x[1..], n - 1);
      assert x[..n][1..] == x[1..][..n - 1];
      assert e == [e[0]] + e[1..] && x[..n] == [x[0]] + x[..n][1..];
    } else if e == [] && n > 0 {
      assert x[..n][0] == x[0];
    }
  }

  /** A stored key stands to a key as to its stored form, and before a key it was cut from. */
  lemma Stored(e: Key, x: seq<byte>)
    ensures e != Truncate(x) ==> (Less(e, x) <==> Less(e, Truncate(x)))
    ensures e == Truncate(x) && e != x ==> Less(e, x)
    ensures |x| > KEY_MAX ==> e != x
  {
    if |x| > KEY_MAX {
      PrefixLess(e, x, KEY_MAX);
    }
  }

  /** The stored form does not come after the key. */
  lemma StoredFirst(x: seq<byte>, y: seq<byte>)
    requires Less(x, y)
    ensures Less(Truncate(x), y) && Truncate(x) != y
  {
    Stored(Truncate(x), x);
    if Truncate(x) != x {
      LessTransitive(Truncate(x), x, y);
    }
    LessIrreflexive(y);
  }

  lemma Order(x: seq<byte>, y: seq<byte>)
    ensures Less(x, y) ==> !Less(y, x) && x != y
    ensures Less(x, y) || x == y || Less(y, x)
  {
    LessTotal(x, y);
    if Less(x, y) {
      LessAsymmetric(x, y);
    }
  }

  // ---- one set

  lemma {:induction false} HeldFits(attrs: seq<Attr>, key: seq<byte>)
    requires Held(attrs, key)
    ensures |key| <= KEY_MAX
  {
    if attrs[0].key != key {
      HeldFits(attrs[1..], key);
    }
  }

  /** A key that is held is updated, room or none; another is put in, or refused. */
  lemma {:induction false} SetSize(attrs: seq<Attr>, key: seq<byte>, val: Value)
    ensures Held(attrs, key) ==> SetAttr(attrs, key, val, false) == SetAttr(attrs, key, val, true)
    ensures Held(attrs, key) ==> |SetAttr(attrs, key, val, true)| == |attrs|
    ensures !Held(attrs, key) ==> SetAttr(attrs, key, val, false) == attrs
    ensures !Held(attrs, key) ==> |SetAttr(attrs, key, val, true)| == |attrs| + 1
    ensures !Held(attrs, key) ==>
              multiset(SetAttr(attrs, key, val, true)) == multiset(attrs) + multiset{Attr(Truncate(key), val)}
  {
    hide Less, Truncate;
    if attrs != [] {
      assert attrs == [attrs[0]] + attrs[1..];
      if attrs[0].key != key && Less(attrs[0].key, key) {
        SetSize(attrs[1..], key, val);
      }
    }
  }

  /** Setting one key does not make another held, unless it stores what the other is. */
  lemma {:induction false} OtherHeld(attrs: seq<Attr>, k: seq<byte>, v: Value, l: seq<byte>)
    requires k != l && (Truncate(k) != l || Held(attrs, l))
    ensures Held(SetAttr(attrs, k, v, true), l) == Held(attrs, l)
  {
    hide Less, Truncate;
    if attrs != [] {
      var h := attrs[0].key;
      if h == k {
      } else if Less(h, k) {
        if h != l && Less(h, l) {
          OtherHeld(attrs[1..], k, v, l);
        }
      } else {
        Order(h, k);
        if Held(attrs, l) {
          if h != l {
            LessTransitive(k, h, l);
          }
          StoredFirst(k, l);
        }
      }
    }
  }

  // ---- two sets

  /** Two keys neither of which overwrites what the other stores go in, each in its place, in either order. */
  lemma {:induction false} Commute(attrs: seq<Attr>, k: seq<byte>, v: Value, l: seq<byte>, w: Value)
    requires k != l && (Truncate(k) != Truncate(l) || Held(attrs, k) || Held(attrs, l))
    ensures SetAttr(SetAttr(attrs, k, v, true), l, w, true) == SetAttr(SetAttr(attrs, l, w, true), k, v, true)
  {
    hide Less, Truncate;
    if attrs == [] {
      PlaceTwo(k, l);
    } else {
      var h := attrs[0].key;
      Order(h, k);
      Order(h, l);
      if h == k {
        if Less(l, h) {
          StoredFirst(l, k);
        }
      } else if h == l {
        if Less(k, h) {
          StoredFirst(k, l);
        }
      } else if Less(h, k) && Less(h, l) {
        Commute(attrs[1..], k, v, l, w);
      } else if Less(h, k) {
        LessTransitive(l, h, k);
        StoredFirst(l, k);
      } else if Less(h, l) {
        LessTransitive(k, h, l);
        StoredFirst(k, l);
      } else {
        PlaceTwo(k, l);
      }
    }
  }

  lemma PlaceTwo(k: seq<byte>, l: seq<byte>)
    requires Truncate(k) != Truncate(l)
    ensures Truncate(k) != l && Truncate(l) != k && (Less(Truncate(k), l) <==> !Less(Truncate(l), k))
  {
    Stored(Truncate(k), l);
    Stored(Truncate(l), k);
    Order(Truncate(k), Truncate(l));
  }

  /** A key that does not fit is stored under a shorter one, which then overwrites it. */
  lemma {:induction false} Overwritten(attrs: seq<Attr>, k: seq<byte>, v: Value, l: seq<byte>, w: Value, room: bool)
    requires k != l && Truncate(k) == l && !Held(attrs, l)
    ensures Held(SetAttr(attrs, k, v, true), l)
    ensures SetAttr(SetAttr(attrs, k, v, true), l, w, room) == SetAttr(attrs, l, w, true)
  {
    CutShort(k, l);
    hide Less, Truncate;
    if attrs != [] {
      var h := attrs[0].key;
      Stored(h, k);
      Order(h, k);
      Order(h, l);
      if Less(h, k) {
        Overwritten(attrs[1..], k, v, l, w, room);
      } else {
        StoredFirst(k, h);
      }
    }
  }

  lemma CutShort(k: seq<byte>, l: seq<byte>)
    requires k != l && Truncate(k) == l
    ensures |k| > KEY_MAX && |l| <= KEY_MAX && Truncate(l) == l
  {
  }

  /** Two keys that do not fit and are stored alike go to the same place. */
  lemma {:induction false} SamePlace(attrs: seq<Attr>, k: seq<byte>, l: seq<byte>, v: Value, room: bool)
    requires |k| > KEY_MAX && |l| > KEY_MAX && Truncate(k) == Truncate(l)
    ensures SetAttr(attrs, k, v, room) == SetAttr(attrs, l, v, room)
  {
    if attrs != [] {
      Stored(attrs[0].key, k);
      Stored(attrs[0].key, l);
      hide Less, Truncate;
      if Less(attrs[0].key, k) {
        SamePlace(attrs[1..], k, l, v, room);
      }
    }
  }

  /** Their values then lie in the order they were set. */
  lemma {:induction false} InTurn(attrs: seq<Attr>, k: seq<byte>, v: Value, l: seq<byte>, w: Value)
    requires |k| > KEY_MAX && |l| > KEY_MAX && Truncate(k) == Truncate(l) && v != w
    ensures SetAttr(SetAttr(attrs, k, v, true), l, w, true) != SetAttr(SetAttr(attrs, l, w, true), k, v, true)
  {
    if attrs != [] {
      Stored(attrs[0].key, k);
      Stored(attrs[0].key, l);
    }
    Stored(Truncate(k), k);
    Stored(Truncate(l), l);
    var t := Truncate(k);
    hide Less, Truncate, SetAttr;
    if attrs != [] && Less(attrs[0].key, k) {
      var h, rest := attrs[0], attrs[1..];
      assert attrs == [h] + rest;
      GoesOn(h, rest, k, v);
      GoesOn(h, rest, l, w);
      GoesOn(h, SetAttr(rest, k, v, true), l, w);
      GoesOn(h, SetAttr(rest, l, w, true), k, v);
      InTurn(rest, k, v, l, w);
      var x, y := SetAttr(SetAttr(rest, k, v, true), l, w, true), SetAttr(SetAttr(rest, l, w, true), k, v, true);
      assert ([h] + x)[1..] == x && ([h] + y)[1..] == y;
    } else {
      GoesIn(attrs, k, v);
      GoesIn(attrs, l, w);
      GoesOn(Attr(t, v), attrs, l, w);
      GoesOn(Attr(t, w), attrs, k, v);
      assert ([Attr(t, v)] + SetAttr(attrs, l, w, true))[0].val != ([Attr(t, w)] + SetAttr(attrs, k, v, true))[0].val;
    }
  }

  /** Setting a key goes on past one before it. */
  lemma GoesOn(h: Attr, rest: seq<Attr>, key: seq<byte>, val: Value)
    requires h.key != key && Less(h.key, key)
    ensures SetAttr([h] + rest, key, val, true) == [h] + SetAttr(rest, key, val, true)
  {
    assert ([h] + rest)[1..] == rest;
  }

  lemma GoesIn(attrs: seq<Attr>, key: seq<byte>, val: Value)
    requires attrs != [] ==> attrs[0].key != key && !Less(attrs[0].key, key)
    ensures SetAttr(attrs, key, val, true) == [Attr(Truncate(key), val)] + attrs
  {
  }

  // ---- the order of two sets

  /** The order of setting two keys shows. When they are stored under different keys: both are new and one slot
      is left. When they are stored alike, at least one does not fit; then, with a slot left, if both do not fit
      and the values differ, or if one fits, is not held, and there are two slots. */
  predicate OrderShows(attrs: seq<Attr>, k: seq<byte>, v: Value, l: seq<byte>, w: Value) {
    if Truncate(k) != Truncate(l) then !Held(attrs, k) && !Held(attrs, l) && |attrs| == MAX_ATTRS - 1
    else if |k| > KEY_MAX && |l| > KEY_MAX then v != w && |attrs| < MAX_ATTRS
    else !Held(attrs, k) && !Held(attrs, l) && |attrs| < MAX_ATTRS - 1
  }

  /** Setting two keys in either order gives the same array exactly when the order does not show, whatever the
      keys and the array. */
  lemma PutOrder(attrs: seq<Attr>, k: seq<byte>, v: Value, l: seq<byte>, w: Value)
    requires |attrs| <= MAX_ATTRS && k != l
    ensures Put(Put(attrs, k, v), l, w) == Put(Put(attrs, l, w), k, v) <==> !OrderShows(attrs, k, v, l, w)
  {
    if Truncate(k) != Truncate(l) {
      ApartOrder(attrs, k, v, l, w);
    } else if |k| > KEY_MAX && |l| > KEY_MAX {
      LongOrder(attrs, k, v, l, w);
    } else if |k| > KEY_MAX {
      CutOrder(attrs, k, v, l, w);
    } else {
      CutOrder(attrs, l, w, k, v);
    }
  }

  lemma ApartOrder(attrs: seq<Attr>, k: seq<byte>, v: Value, l: seq<byte>, w: Value)
    requires |attrs| <= MAX_ATTRS && Truncate(k) != Truncate(l)
    ensures Put(Put(attrs, k, v), l, w) == Put(Put(attrs, l, w), k, v) <==>
            !(!Held(attrs, k) && !Held(attrs, l) && |attrs| == MAX_ATTRS - 1)
  {
    PlaceTwo(k, l);
    hide SetAttr, Truncate, Held;
    SetSize(attrs, k, v);
    SetSize(attrs, l, w);
    OtherHeld(attrs, k, v, l);
    OtherHeld(attrs, l, w, k);
    var ak, al := SetAttr(attrs, k, v, true), SetAttr(attrs, l, w, true);
    SetSize(ak, l, w);
    SetSize(al, k, v);
    Commute(attrs, k, v, l, w);
    if !Held(attrs, k) && !Held(attrs, l) && |attrs| == MAX_ATTRS - 1 {
      DifferentAdded(attrs, ak, al, Attr(Truncate(k), v), Attr(Truncate(l), w));
    }
  }

  lemma DifferentAdded(attrs: seq<Attr>, ak: seq<Attr>, al: seq<Attr>, x: Attr, y: Attr)
    requires multiset(ak) == multiset(attrs) + multiset{x} && multiset(al) == multiset(attrs) + multiset{y} && x != y
    ensures ak != al
  {
    assert multiset(ak)[x] == multiset(al)[x] + 1;
  }

  lemma LongOrder(attrs: seq<Attr>, k: seq<byte>, v: Value, l: seq<byte>, w: Value)
    requires |attrs| <= MAX_ATTRS && |k| > KEY_MAX && |l| > KEY_MAX && Truncate(k) == Truncate(l)
    ensures Put(Put(attrs, k, v), l, w) == Put(Put(attrs, l, w), k, v) <==> !(v != w && |attrs| < MAX_ATTRS)
  {
    hide SetAttr, Truncate, Held;
    NeverHeld(attrs, k);
    NeverHeld(attrs, l);
    SetSize(attrs, k, v);
    SetSize(attrs, l, w);
    var ak, al := SetAttr(attrs, k, v, true), SetAttr(attrs, l, w, true);
    NeverHeld(ak, l);
    NeverHeld(al, k);
    SetSize(ak, l, w);
    SetSize(al, k, v);
    if v == w {
      SamePlace(attrs, k, l, v, true);
      SamePlace(ak, k, l, v, true);
    } else {
      InTurn(attrs, k, v, l, w);
      if |attrs| < MAX_ATTRS {
        DifferentAdded(attrs, ak, al, Attr(Truncate(k), v), Attr(Truncate(l), w));
      }
    }
  }

  lemma NeverHeld(attrs: seq<Attr>, key: seq<byte>)
    requires |key| > KEY_MAX
    ensures !Held(attrs, key)
  {
    if Held(attrs, key) {
      HeldFits(attrs, key);
    }
  }

  /** `k` does not fit and is stored as `l`. */
  lemma CutOrder(attrs: seq<Attr>, k: seq<byte>, v: Value, l: seq<byte>, w: Value)
    requires |attrs| <= MAX_ATTRS && |k| > KEY_MAX && |l| <= KEY_MAX && Truncate(k) == Truncate(l)
    ensures Put(Put(attrs, k, v), l, w) == Put(Put(attrs, l, w), k, v) <==>
            !(!Held(attrs, k) && !Held(attrs, l) && |attrs| < MAX_ATTRS - 1)
  {
    assert Truncate(l) == l;
    hide SetAttr, Truncate, Held;
    NeverHeld(attrs, k);
    SetSize(attrs, k, v);
    SetSize(attrs, l, w);
    var ak, al := SetAttr(attrs, k, v, true), SetAttr(attrs, l, w, true);
    NeverHeld(al, k);
    SetSize(ak, l, w);
    SetSize(al, k, v);
    if Held(attrs, l) {
      OtherHeld(attrs, k, v, l);
      Commute(attrs, k, v, l, w);
    } else {
      Overwritten(attrs, k, v, l, w, true);
      Overwritten(attrs, k, v, l, w, false);
    }
  }

  /** A second set of the same key leaves what setting the second value alone would, exactly when the key fits its
      16-byte field, or the first set was refused, or the second was and the values are the same: a longer key
      never matches its stored form. */
  lemma SetTwice(attrs: seq<Attr>, key: seq<byte>, v: Value, w: Value)
    requires |attrs| <= MAX_ATTRS
    ensures Put(Put(attrs, key, v), key, w) == Put(attrs, key, w) <==>
            |key| <= 15 || |attrs| == 12 || (|attrs| == 11 && v == w)
  {
    SetSize(attrs, key, v);
    SetSize(attrs, key, w);
    var once := SetAttr(attrs, key, v, true);
    SetSize(once, key, w);
    if |key| <= KEY_MAX {
      Updated(attrs, key, v, w);
      hide SetAttr, Held;
    } else {
      NeverHeld(attrs, key);
      NeverHeld(once, key);
      hide SetAttr, Held;
      if |attrs| == MAX_ATTRS - 1 && v != w {
        DifferentAdded(attrs, once, SetAttr(attrs, key, w, true), Attr(Truncate(key), v), Attr(Truncate(key), w));
      }
    }
  }

  lemma {:induction false} Updated(attrs: seq<Attr>, key: Key, v: Value, w: Value)
    ensures Held(SetAttr(attrs, key, v, true), key)
    ensures SetAttr(SetAttr(attrs, key, v, true), key, w, true) == SetAttr(attrs, key, w, true)
  {
    hide Less;
    if attrs != [] && attrs[0].key != key && Less(attrs[0].key, key) {
      Updated(attrs[1..], key, v, w);
    }
  }

  /** A key that does not fit takes another slot every time it is set, until none is left. */
  lemma LongKeyFills(attrs: seq<Attr>, key: seq<byte>, val: Value)
    requires |key| > KEY_MAX
    ensures |SetAttr(attrs, key, val, |attrs| < MAX_ATTRS)| == (if |attrs| < MAX_ATTRS then |attrs| + 1 else |attrs|)
  {
    if |attrs| < MAX_ATTRS {
      LongKeyGrows(attrs, key, val);
    } else {
      LongKeyStays(attrs, key, val);
    }
  }

  lemma {:induction false} LongKeyStays(attrs: seq<Attr>, key: seq<byte>, val: Value)
    requires |key| > KEY_MAX
    ensures SetAttr(attrs, key, val, false) == attrs
  {
    if attrs != [] && Less(attrs[0].key, key) {
      LongKeyStays(attrs[1..], key, val);
    }
  }

  lemma {:induction false} LongKeyGrows(attrs: seq<Attr>, key: seq<byte>, val: Value)
    requires |key| > KEY_MAX
    ensures |SetAttr(attrs, key, val, true)| == |attrs| + 1
  {
    if attrs != [] && Less(attrs[0].key, key) {
      LongKeyGrows(attrs[1..], key, val);
    }
  }

  /** Attributes named by single bytes from `from` on. */
  function Single(from: byte, n: nat): (r: seq<Attr>)
    requires from + n <= 256
    ensures |r| == n
    decreases n
  {
    if n == 0 then [] else [Attr([from], NoValue)] + (if n == 1 then [] else Single(from + 1, n - 1))
  }

  lemma {:induction false} SingleAscends(from: byte, n: nat)
    requires from + n <= 256
    ensures Ascending(Single(from, n))
    ensures forall k: byte :: [k] in AttrMap(Single(from, n)) ==> from <= k < from + n
    decreases n
  {
    if n > 1 {
      SingleAscends(from + 1, n - 1);
      assert Less([from], [from + 1]);
      BelowFirst([from], Single(from + 1, n - 1));
      assert forall k: byte :: [k] == [from] ==> k == [k][0] == from;
    }
  }

  lemma {:induction false} BelowFirst(k: seq<byte>, attrs: seq<Attr>)
    requires Ascending(attrs) && attrs != [] && Less(k, attrs[0].key)
    ensures Below(k, attrs)
  {
    BelowTransitive(k, attrs[0].key, attrs[1..]);
  }

  /** Eleven attributes are set, named by the bytes 1 to 11; the two orders of setting 12 and 13 keep different
      ones of them. */
  lemma PutOrderShows()
    ensures var attrs := Single(1, 11);
            && Ascending(attrs)
            && Put(Put(attrs, [12], U64(1)), [13], U64(1)) != Put(Put(attrs, [13], U64(1)), [12], U64(1))
  {
    SingleAscends(1, 11);
    HeldInMap(Single(1, 11), [12]);
    HeldInMap(Single(1, 11), [13]);
    hide Held, Single;
    PutOrder(Single(1, 11), [12], U64(1), [13], U64(1));
  }

  lemma {:induction false} HeldInMap(attrs: seq<Attr>, key: seq<byte>)
    ensures Held(attrs, key) ==> key in AttrMap(attrs)
  {
    hide Less;
    if attrs != [] && attrs[0].key != key {
      HeldInMap(attrs[1..], key);
    }
  }

  /** On an empty node, two keys that differ only in their sixteenth byte lie in the order they were set. */
  lemma LongKeysShow(a: seq<byte>)
    requires |a| == 15
    ensures Put(Put([], a + [1], U64(1)), a + [2], U64(2)) != Put(Put([], a + [2], U64(2)), a + [1], U64(1))
  {
    assert (a + [1])[..KEY_MAX] == a == (a + [2])[..KEY_MAX];
    assert (a + [1])[KEY_MAX] != (a + [2])[KEY_MAX];
    PutOrder([], a + [1], U64(1), a + [2], U64(2));
  }

  /** A run of sets, in order. */
  function PutAll(attrs: seq<Attr>, ops: seq<(Key, Value)>): seq<Attr>
    decreases |ops|
  {
    if ops == [] then attrs else Put(PutAll(attrs, ops[..|ops| - 1]), ops[|ops| - 1].0, ops[|ops| - 1].1)
  }

  /** The last value given to each key. */
  ghost function Latest(ops: seq<(Key, Value)>): map<seq<byte>, Value>
    decreases |ops|
  {
    if ops == [] then map[] else Latest(ops[..|ops| - 1])[ops[|ops| - 1].0 := ops[|ops| - 1].1]
  }

  lemma {:induction false} PutAllIs(attrs: seq<Attr>, ops: seq<(Key, Value)>)
    requires Ascending(attrs) && |attrs| <= MAX_ATTRS && |AttrMap(attrs).Keys + Latest(ops).Keys| <= MAX_ATTRS
    ensures Ascending(PutAll(attrs, ops)) && |PutAll(attrs, ops)| <= MAX_ATTRS
    ensures AttrMap(PutAll(attrs, ops)) == AttrMap(attrs) + Latest(ops)
    decreases |ops|
  {
    hide SetAttr, AttrMap, Ascending, Put;
    if ops == [] {
      assert AttrMap(attrs) + Latest(ops) == AttrMap(attrs);
    } else {
      var ops', key, val := ops[..|ops| - 1], ops[|ops| - 1].0, ops[|ops| - 1].1;
      Smaller(AttrMap(attrs).Keys + Latest(ops').Keys, AttrMap(attrs).Keys + Latest(ops).Keys);
      PutAllIs(attrs, ops');
      PutIs(PutAll(attrs, ops'), key, val);
      OneMore(AttrMap(attrs), Latest(ops'), key, val);
    }
  }

  lemma OneMore(m: map<seq<byte>, Value>, n: map<seq<byte>, Value>, key: Key, val: Value)
    requires |m.Keys + n[key := val].Keys| <= MAX_ATTRS
    ensures PutMap(m + n, key, val) == m + n[key := val]
  {
    Merged(m, n, key, val);
    Grown(m + n, key, val);
  }

  lemma Merged(m: map<seq<byte>, Value>, n: map<seq<byte>, Value>, k: seq<byte>, v: Value)
    ensures (m + n)[k := v] == m + n[k := v]
    ensures |(m + n)[k := v]| == |m.Keys + n[k := v].Keys|
  {
    var all := m + n[k := v];
    assert all.Keys == m.Keys + n[k := v].Keys;
    assert |all| == |all.Keys|;
  }

  lemma Smaller(a: set<seq<byte>>, b: set<seq<byte>>)
    requires a <= b
    ensures |a| <= |b|
  {
    assert b == a + (b - a);
  }

  /** With slots for all the keys, the order in which attributes were set does not show: two runs that
      give each key the same last value leave the same array. */
  lemma PutAllCanonical(attrs: seq<Attr>, a: seq<(Key, Value)>, b: seq<(Key, Value)>)
    requires Ascending(attrs) && |attrs| <= MAX_ATTRS
    requires Latest(a) == Latest(b) && |AttrMap(attrs).Keys + Latest(a).Keys| <= MAX_ATTRS
    ensures PutAll(attrs, a) == PutAll(attrs, b)
  {
    hide AttrMap, Ascending;
    PutAllIs(attrs, a);
    PutAllIs(attrs, b);
    AttrsCanonical(PutAll(attrs, a), PutAll(attrs, b));
  }
}
