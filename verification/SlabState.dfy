/** The invariant of the slab layer over one heap state, and what keeps it from operation to operation. */
module SlabState {
  import opened Arith
  import opened Common
  import opened SlabGeometry

  datatype Cache = Cache(shape: Shape, partial: seq<nat>, full: seq<nat>, empty: seq<nat>)

  datatype Slab = Slab(cache: nat, freelist: nat, inuse: nat, total: nat, order: nat)

  /** `owned` are the page blocks taken from the page allocator; `free` is the free list of each slab
      and `live` the cache of each object handed out. */
  datatype H = H(words: map<nat, nat>, owned: map<nat, nat>, slabs: map<nat, Slab>, caches: seq<Cache>,
                 free: map<nat, seq<nat>>, live: map<nat, nat>)

  predicate Apart(b: nat, o: nat, b': nat, o': nat) {
    b + Block(o) <= b' || b' + Block(o') <= b
  }

  predicate InBlock(b: nat, o: nat, a: nat) {
    b <= a < b + Block(o)
  }

  /** A block may be handed out: on its own size, and clear of every block outstanding. */
  predicate Available(owned: map<nat, nat>, b: nat, o: nat) {
    && b > 0 && b % Block(o) == 0 && b !in owned
    && forall b' :: b' in owned ==> Apart(b', owned[b'], b, o)
  }

  /** Blocks are apart when they share no address. */
  lemma ApartMeans(b: nat, o: nat, b': nat, o': nat)
    ensures Apart(b, o, b', o') <==> forall a: nat :: !(InBlock(b, o, a) && InBlock(b', o', a))
  {
    if !Apart(b, o, b', o') {
      var a := if b < b' then b' else b;
      assert InBlock(b, o, a) && InBlock(b', o', a);
    }
  }

  /** However many blocks are outstanding, one of any size is clear of them all. */
  lemma {:induction false} AlwaysAvailable(owned: map<nat, nat>, o: nat) returns (b: nat)
    ensures Available(owned, b, o)
  {
    var top := Above(owned);
    b := (top + 1) * Block(o);
    MultipleOf(top + 1, Block(o));
    Grows(1, Block(o), top + 1);
    hide Block;
  }

  /** An address no outstanding block reaches. */
  lemma {:induction false} Above(owned: map<nat, nat>) returns (top: nat)
    ensures forall b :: b in owned ==> b + Block(owned[b]) <= top
  {
    top := 0;
    if owned != map[] {
      var b: nat :| b in owned;
      top := Above(owned - {b});
      assert forall b' :: b' in owned && b' != b ==> b' in owned - {b} && (owned - {b})[b'] == owned[b'];
      if top < b + Block(owned[b]) {
        top := b + Block(owned[b]);
      }
    }
  }

  ghost predicate BlocksOk(owned: map<nat, nat>) {
    && (forall b :: b in owned ==> b > 0 && b % Block(owned[b]) == 0)
    && forall b, b' :: b in owned && b' in owned && b != b' ==> Apart(b, owned[b], b', owned[b'])
  }

  /** The free list is in memory, within the slab and without repeats; it and the live objects
      share out the object slots; and the counts agree. */
  ghost predicate SlabOk(h: H, b: nat) {
    && b in h.slabs
    && var s := h.slabs[b];
    && s.cache < |h.caches|
    && var g := h.caches[s.cache].shape;
       && WellShaped(g) && Fits(g)
       && b in h.owned && h.owned[b] == s.order == g.order && s.total == PerSlab(g)
       && b in h.free && Chain(h.words, s.freelist, h.free[b]) && Distinct(h.free[b])
       && s.inuse + |h.free[b]| == s.total
       && (forall a :: a in h.free[b] ==> IsObj(g, b, a) && a !in h.live)
       && (forall a: nat :: IsObj(g, b, a) && a !in h.free[b] ==> a in h.live && h.live[a] == s.cache)
  }

  /** A live object is a slot of a slab of its cache. */
  ghost predicate LiveOk(h: H, a: nat) {
    && a in h.live && h.live[a] < |h.caches|
    && var g := h.caches[h.live[a]].shape;
       && WellShaped(g)
       && var b := SlabOf(a, g.order);
          b in h.slabs && h.slabs[b].cache == h.live[a] && IsObj(g, b, a)
  }

  /** A slab is on the list its occupancy calls for, once. */
  ghost predicate ListsOk(slabs: map<nat, Slab>, c: Cache, ci: nat) {
    && Distinct(c.partial) && Distinct(c.full) && Distinct(c.empty)
    && (forall b :: b in c.partial <==> b in slabs && slabs[b].cache == ci && 0 < slabs[b].inuse < slabs[b].total)
    && (forall b :: b in c.full <==> b in slabs && slabs[b].cache == ci && 0 < slabs[b].inuse == slabs[b].total)
    && (forall b :: b in c.empty <==> b in slabs && slabs[b].cache == ci && 0 == slabs[b].inuse)
  }

  ghost predicate CachesOk(h: H) {
    forall ci :: 0 <= ci < |h.caches| ==> WellShaped(h.caches[ci].shape) && ListsOk(h.slabs, h.caches[ci], ci)
  }

  ghost predicate SlabsOk(h: H) {
    forall b :: b in h.slabs ==> SlabOk(h, b)
  }

  ghost predicate LivesOk(h: H) {
    forall a :: a in h.live ==> LiveOk(h, a)
  }

  ghost predicate HeapOk(h: H) {
    BlocksOk(h.owned) && SlabsOk(h) && LivesOk(h) && CachesOk(h)
  }

  lemma HeapParts(h: H)
    requires HeapOk(h)
    ensures BlocksOk(h.owned) && SlabsOk(h) && LivesOk(h) && CachesOk(h)
  {
  }

  ghost predicate SameShapes(h: H, h': H) {
    |h'.caches| == |h.caches| && forall ci :: 0 <= ci < |h.caches| ==> h'.caches[ci].shape == h.caches[ci].shape
  }

  /** `h'` differs from `h` only in the slab at `b` and inside its block. */
  ghost predicate OnlySlab(h: H, h': H, b: nat, o: nat) {
    && SameShapes(h, h')
    && (forall b' :: b' in h.owned && b' != b ==> b' in h'.owned && h'.owned[b'] == h.owned[b'])
    && (forall b' :: b' != b ==> Get(h'.slabs, b') == Get(h.slabs, b') && Get(h'.free, b') == Get(h.free, b'))
    && (forall x: nat :: !InBlock(b, o, x) ==> Word(h'.words, x) == Word(h.words, x))
    && (forall a: nat :: !InBlock(b, o, a) ==> Get(h'.live, a) == Get(h.live, a))
  }

  lemma OtherSlab(h: H, h': H, b: nat, o: nat, b': nat)
    requires b' in h.slabs && SlabOk(h, b') && OnlySlab(h, h', b, o) && b' != b
    requires Apart(b', h.slabs[b'].order, b, o)
    ensures b' in h'.slabs && SlabOk(h', b')
  {
    var s := h.slabs[b'];
    var g := h.caches[s.cache].shape;
    assert Get(h'.slabs, b') == Some(s) && Get(h'.free, b') == Some(h.free[b']);
    assert h'.caches[s.cache].shape == g;
    forall a: nat | IsObj(g, b', a)
      ensures !InBlock(b, o, a) && Get(h'.live, a) == Get(h.live, a) && Word(h'.words, a) == Word(h.words, a)
    {
    }
    hide IsObj, Word, Apart, InBlock, Block;
    ChainFrame(h.words, h'.words, s.freelist, h.free[b']);
  }

  /** The block at `b` overlaps no other outstanding. */
  predicate Clear(owned: map<nat, nat>, b: nat, o: nat) {
    forall b' :: b' in owned && b' != b ==> Apart(b', owned[b'], b, o)
  }

  lemma BlockClear(owned: map<nat, nat>, b: nat)
    requires BlocksOk(owned) && b in owned
    ensures Clear(owned, b, owned[b])
  {
    hide Block;
  }

  lemma OtherSlabs(h: H, h': H, b: nat, o: nat)
    requires SlabsOk(h) && OnlySlab(h, h', b, o) && Clear(h.owned, b, o)
    requires b in h'.slabs ==> SlabOk(h', b)
    ensures SlabsOk(h')
  {
    forall b' | b' in h'.slabs
      ensures SlabOk(h', b')
    {
      if b' != b {
        assert Get(h'.slabs, b') == Get(h.slabs, b');
        assert SlabOk(h, b');
        OtherSlab(h, h', b, o, b');
      }
    }
  }

  /** A live object stays one while its slab is there. */
  lemma LiveFrame(h: H, h': H, a: nat)
    requires a in h.live && LiveOk(h, a) && SameShapes(h, h') && Get(h'.live, a) == Get(h.live, a)
    requires var b := SlabOf(a, h.caches[h.live[a]].shape.order); b in h'.slabs && h'.slabs[b].cache == h.slabs[b].cache
    ensures LiveOk(h', a)
  {
  }

  /** The lists follow the occupancy of the one slab that changed. */
  lemma ListsAfter(h: H, h': H, ci: nat, b: nat)
    requires CachesOk(h) && SameShapes(h, h') && ci < |h.caches|
    requires forall b' :: b' != b ==> Get(h'.slabs, b') == Get(h.slabs, b')
    requires forall cj :: 0 <= cj < |h.caches| && cj != ci ==> h'.caches[cj] == h.caches[cj]
    requires (b in h.slabs ==> h.slabs[b].cache == ci) && (b in h'.slabs ==> h'.slabs[b].cache == ci)
    requires Relisted(h.caches[ci], h'.caches[ci], b)
    requires b in h'.caches[ci].partial <==> b in h'.slabs && 0 < h'.slabs[b].inuse < h'.slabs[b].total
    requires b in h'.caches[ci].full <==> b in h'.slabs && 0 < h'.slabs[b].inuse == h'.slabs[b].total
    requires b in h'.caches[ci].empty <==> b in h'.slabs && 0 == h'.slabs[b].inuse
    ensures CachesOk(h')
  {
    hide WellShaped, Distinct;
    forall cj | 0 <= cj < |h'.caches|
      ensures WellShaped(h'.caches[cj].shape) && ListsOk(h'.slabs, h'.caches[cj], cj)
    {
      assert ListsOk(h.slabs, h.caches[cj], cj);
      OneCache(h.slabs, h'.slabs, h.caches[cj], h'.caches[cj], cj, b, ci);
    }
  }

  lemma OneCache(slabs: map<nat, Slab>, slabs': map<nat, Slab>, c: Cache, c': Cache, cj: nat, b: nat, ci: nat)
    requires ListsOk(slabs, c, cj) && forall b' :: b' != b ==> Get(slabs', b') == Get(slabs, b')
    requires (b in slabs ==> slabs[b].cache == ci) && (b in slabs' ==> slabs'[b].cache == ci)
    requires if cj == ci then Relisted(c, c', b) else c' == c
    requires cj == ci ==> (b in c'.partial <==> b in slabs' && 0 < slabs'[b].inuse < slabs'[b].total)
    requires cj == ci ==> (b in c'.full <==> b in slabs' && 0 < slabs'[b].inuse == slabs'[b].total)
    requires cj == ci ==> (b in c'.empty <==> b in slabs' && 0 == slabs'[b].inuse)
    ensures ListsOk(slabs', c', cj)
  {
    hide Distinct;
    forall b'
      ensures b' in c'.partial <==> b' in slabs' && slabs'[b'].cache == cj && 0 < slabs'[b'].inuse < slabs'[b'].total
      ensures b' in c'.full <==> b' in slabs' && slabs'[b'].cache == cj && 0 < slabs'[b'].inuse == slabs'[b'].total
      ensures b' in c'.empty <==> b' in slabs' && slabs'[b'].cache == cj && 0 == slabs'[b'].inuse
    {
      if b' != b {
        assert Get(slabs', b') == Get(slabs, b');
      }
    }
  }

  /** The two caches list the same slabs, but for where `b` is. */
  ghost predicate Relisted(c: Cache, c': Cache, b: nat) {
    && (Distinct(c.partial) ==> Distinct(c'.partial)) && (Distinct(c.full) ==> Distinct(c'.full))
    && (Distinct(c.empty) ==> Distinct(c'.empty)) && c'.shape == c.shape
    && forall b' :: b' != b ==>
       && (b' in c'.partial <==> b' in c.partial) && (b' in c'.full <==> b' in c.full)
       && (b' in c'.empty <==> b' in c.empty)
  }

  datatype Which = Partial | Full | Empty

  /** Unlink a slab from the list it is on and put it at the end of another. */
  function Place(c: Cache, b: nat, w: Which): (r: Cache)
    ensures Relisted(c, r, b)
    ensures b in r.partial <==> w == Partial
    ensures b in r.full <==> w == Full
    ensures b in r.empty <==> w == Empty
  {
    Cache(c.shape, Moved(c.partial, b, w == Partial), Moved(c.full, b, w == Full), Moved(c.empty, b, w == Empty))
  }

  function Moved(list: seq<nat>, b: nat, here: bool): (r: seq<nat>)
    ensures Distinct(list) ==> Distinct(r)
    ensures b in r <==> here
    ensures forall b' :: b' != b ==> (b' in r <==> b' in list)
  {
    var rest := Without(list, b);
    if here then
      AppendDistinct(rest, b);
      rest + [b]
    else rest
  }

  lemma AppendDistinct(s: seq<nat>, x: nat)
    requires x !in s
    ensures Distinct(s) ==> Distinct(s + [x])
    ensures forall y :: y in s + [x] <==> y in s || y == x
  {
  }

  /** Taking the head of a slab's free list. */
  lemma PopKeeps(h: H, h': H, b: nat)
    requires b in h.slabs && SlabOk(h, b) && h.free[b] != []
    requires h.slabs[b].cache < |h'.caches| && h'.caches[h.slabs[b].cache].shape == h.caches[h.slabs[b].cache].shape
    requires b in h'.slabs
    requires h'.slabs[b] == h.slabs[b].(inuse := h.slabs[b].inuse + 1, freelist := Word(h.words, h.slabs[b].freelist))
    requires h'.owned == h.owned && h'.words == h.words && b in h'.free && h'.free[b] == h.free[b][1..]
    requires h'.live == h.live[h.free[b][0] := h.slabs[b].cache]
    ensures SlabOk(h', b)
  {
    hide IsObj, WellShaped, Fits, PerSlab;
    var fl := h.free[b];
    assert fl[0] !in fl[1..];
    assert forall a :: a in fl <==> a == fl[0] || a in fl[1..];
  }

  /** Putting a live object at the head of its slab's free list; the slab was in use. */
  lemma PushKeeps(h: H, h': H, b: nat, a: nat)
    requires b in h.slabs && SlabOk(h, b) && a in h.live && a > 0
    requires IsObj(h.caches[h.slabs[b].cache].shape, b, a)
    requires h.slabs[b].cache < |h'.caches| && h'.caches[h.slabs[b].cache].shape == h.caches[h.slabs[b].cache].shape
    requires b in h'.slabs && h'.slabs[b] == h.slabs[b].(inuse := h'.slabs[b].inuse, freelist := a)
    requires h'.slabs[b].inuse == h.slabs[b].inuse - 1
    requires h'.owned == h.owned && h'.words == h.words[a := h.slabs[b].freelist]
    requires b in h'.free && h'.free[b] == [a] + h.free[b] && h'.live == h.live - {a}
    ensures SlabOk(h', b)
  {
    hide IsObj, WellShaped, Fits, PerSlab;
    ChainFrame(h.words, h'.words, h.slabs[b].freelist, h.free[b]);
    assert h'.free[b][1..] == h.free[b];
  }

  /** A live object keeps its slab in use; a slab all of whose slots are free has none. */
  lemma LiveInUse(h: H, b: nat, a: nat)
    requires b in h.slabs && SlabOk(h, b) && a in h.live
    requires IsObj(h.caches[h.slabs[b].cache].shape, b, a)
    ensures h.slabs[b].inuse > 0
  {
    var g := h.caches[h.slabs[b].cache].shape;
    var slots := Slots(b + Hdr(g.align), g.objsize, 0, PerSlab(g));
    hide IsObj, WellShaped, Fits, PerSlab, Hdr;
    forall x: nat | IsObj(g, b, x)
      ensures x in slots
    {
      SlotsAreObjs(g, b, x);
    }
    DistinctLength([a] + h.free[b], slots);
  }

  /** A new slab: every slot is on its free list. */
  lemma NewSlab(h: H, b: nat, g: Shape)
    requires b in h.slabs && h.slabs[b].cache < |h.caches| && g == h.caches[h.slabs[b].cache].shape
    requires WellShaped(g) && Fits(g) && b in h.owned && h.owned[b] == g.order
    requires h.slabs[b] == Slab(h.slabs[b].cache, h.slabs[b].freelist, 0, PerSlab(g), g.order)
    requires b in h.free && h.free[b] == Slots(b + Hdr(g.align), g.objsize, 0, PerSlab(g))
    requires Chain(h.words, h.slabs[b].freelist, h.free[b])
    requires forall a :: a in h.live ==> !InBlock(b, g.order, a)
    ensures SlabOk(h, b)
  {
    hide WellShaped, Fits, PerSlab, Hdr, IsObj, InBlock, Chain, Slots, Distinct, Block;
    AllSlots(g, b, h.free[b]);
  }

  lemma AllSlots(g: Shape, b: nat, all: seq<nat>)
    requires WellShaped(g) && Fits(g) && all == Slots(b + Hdr(g.align), g.objsize, 0, PerSlab(g))
    ensures Distinct(all) && |all| == PerSlab(g)
    ensures forall a: nat :: (a in all <==> IsObj(g, b, a)) && (IsObj(g, b, a) ==> InBlock(b, g.order, a))
  {
    SlotsDistinct(b + Hdr(g.align), g.objsize, 0, PerSlab(g));
    hide WellShaped, Fits, PerSlab, Hdr, IsObj, InBlock, Distinct, Block;
    forall a: nat
      ensures a in all <==> IsObj(g, b, a)
      ensures IsObj(g, b, a) ==> InBlock(b, g.order, a)
    {
      SlotsAreObjs(g, b, a);
      ObjInBlock(g, b, a);
    }
  }

  lemma ObjInBlock(g: Shape, b: nat, a: nat)
    requires WellShaped(g) && Fits(g)
    ensures IsObj(g, b, a) ==> InBlock(b, g.order, a)
  {
  }

  /** Live objects do not overlap one another. */
  lemma ObjsApart(h: H, a: nat, a': nat)
    requires BlocksOk(h.owned) && SlabsOk(h) && a in h.live && a' in h.live && LiveOk(h, a) && LiveOk(h, a') && a < a'
    ensures a + h.caches[h.live[a]].shape.objsize <= a'
  {
    var g, g' := h.caches[h.live[a]].shape, h.caches[h.live[a']].shape;
    var b, b' := SlabOf(a, g.order), SlabOf(a', g'.order);
    assert SlabOk(h, b) && SlabOk(h, b');
    if b == b' {
      SlotsApart(g.objsize, b + Hdr(g.align), a, a');
    } else {
      assert Apart(b, g.order, b', g'.order);
    }
  }

  /** A live object does not overlap a block that is not a slab. */
  lemma ObjBlockApart(h: H, a: nat, b: nat)
    requires BlocksOk(h.owned) && SlabsOk(h) && a in h.live && LiveOk(h, a) && b in h.owned && b !in h.slabs
    ensures a + h.caches[h.live[a]].shape.objsize <= b || b + Block(h.owned[b]) <= a
  {
    var g := h.caches[h.live[a]].shape;
    assert SlabOk(h, SlabOf(a, g.order));
    assert Apart(SlabOf(a, g.order), g.order, b, h.owned[b]);
  }

  /** The first word of a free object is null or on sixteen bytes. */
  lemma FreeWordAligned(h: H, b: nat, a: nat)
    requires BlocksOk(h.owned) && SlabOk(h, b) && a in h.free[b]
    ensures Word(h.words, a) % 16 == 0
  {
    ChainNext(h.words, h.slabs[b].freelist, h.free[b], a);
    var next := Word(h.words, a);
    if next != 0 {
      ObjAligned(h.caches[h.slabs[b].cache].shape, b, next);
    }
  }
}
