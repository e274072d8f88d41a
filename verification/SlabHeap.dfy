/** The slab caches: object allocation over page blocks (kernel/mm/kheap.c). */
module SlabHeap {
  import opened Arith
  import opened Common
  import opened SlabGeometry
  import opened SlabState

  const MAX_CACHES: nat := 32

  class Slabs {
    var words: map<nat, nat>
    var owned: map<nat, nat>
    var slabs: map<nat, Slab>
    var caches: seq<Cache>
    ghost var free: map<nat, seq<nat>>
    ghost var live: map<nat, nat>
    /** How often the page allocator has had nothing to give. */
    ghost var refusals: nat

    ghost function S(): H
      reads this
    {
      H(words, owned, slabs, caches, free, live)
    }

    ghost predicate Valid()
      reads this
    {
      HeapOk(S()) && |caches| <= MAX_CACHES
    }

    constructor (words: map<nat, nat>)
      ensures Valid() && caches == [] && owned == map[] && live == map[] && this.words == words && refusals == 0
    {
      this.words, owned, slabs, caches, free, live, refusals := words, map[], map[], [], map[], map[], 0;
    }

    /** The page allocator: any block on its own size and clear of those outstanding, or nothing. */
    method TakeBlock(order: nat) returns (b: nat)
      modifies this`owned, this`refusals
      ensures b == 0 ==> owned == old(owned) && refusals == old(refusals) + 1
      ensures b != 0 ==> Available(old(owned), b, order) && owned == old(owned)[b := order] && refusals == old(refusals)
    {
      b :| b == 0 || Available(owned, b, order);
      if b == 0 {
        refusals := refusals + 1;
      } else {
        owned := owned[b := order];
      }
    }

    /** The slab order is the least whose block holds eight objects, or the greatest; one object fits
        exactly when the rounded sizes come to no more than the greatest block. */
    method CacheCreate(objsize: nat, align: nat) returns (r: Option<nat>)
      requires Valid() && (align < 16 || Pow2(align))
      modifies this`caches
      ensures Valid() && (r == None <==> |old(caches)| >= MAX_CACHES)
      ensures r == None ==> caches == old(caches)
      ensures r.Some? ==> r.value == |old(caches)| && |caches| == r.value + 1 && caches[..r.value] == old(caches)
      ensures r.Some? ==> var c, a := caches[r.value], if align < 16 then 16 else align;
                var size := AlignUp(if objsize < 8 then 8 else objsize, a);
                && c == Cache(Shape(size, a, c.shape.order), [], [], [])
                && c.shape.order <= MAX_SLAB_ORDER && (c.shape.order < MAX_SLAB_ORDER ==> PerSlab(c.shape) >= 8)
                && (forall o :: 0 <= o < c.shape.order ==> PerSlab(Shape(size, a, o)) < 8)
                && (Fits(c.shape) <==> Hdr(a) + size <= 65536)
    {
      if |caches| >= MAX_CACHES {
        return None;
      }
      assert Pow2(16);
      var a := if align < 16 then 16 else align;
      var size := AlignUp(if objsize < 8 then 8 else objsize, a);
      hide HeapOk, AlignUp, Hdr, Fits, PerSlab, Block;
      var order := OrderFor(size, a);
      FitsWhen(Shape(size, a, order));
      ghost var h := S();
      caches := caches + [Cache(Shape(size, a, order), [], [], [])];
      NewCache(h, S());
      r := Some(|caches| - 1);
    }

    method OrderFor(size: nat, align: nat) returns (order: nat)
      requires size > 0 && align > 0
      ensures order <= MAX_SLAB_ORDER && (order < MAX_SLAB_ORDER ==> PerSlab(Shape(size, align, order)) >= 8)
      ensures forall o :: 0 <= o < order ==> PerSlab(Shape(size, align, o)) < 8
    {
      order := 0;
      while order < MAX_SLAB_ORDER && !(Block(order) > Hdr(align) && (Block(order) - Hdr(align)) / size >= 8)
        invariant order <= MAX_SLAB_ORDER
        invariant forall o :: 0 <= o < order ==> PerSlab(Shape(size, align, o)) < 8
      {
        order := order + 1;
      }
    }

    /** Take a block and thread its free list through the objects, last to first. */
    method SlabNew(ci: nat) returns (b: nat)
      requires Valid() && ci < |caches| && Fits(caches[ci].shape)
      modifies this`words, this`owned, this`slabs, this`free, this`refusals
      ensures b == 0 ==> S() == old(S()) && refusals == old(refusals) + 1
      ensures b != 0 ==> refusals == old(refusals) && Available(old(owned), b, caches[ci].shape.order)
      ensures b != 0 ==>
                OnlySlab(old(S()), S(), b, caches[ci].shape.order) && owned == old(owned)[b := caches[ci].shape.order]
      ensures b != 0 ==>
                b in slabs && slabs.Keys == old(slabs).Keys + {b} && BlocksOk(owned) && SlabsOk(S()) && LivesOk(S())
      ensures b != 0 ==> slabs[b].cache == ci && b in free && free[b] != []
    {
      hide HeapOk, LivesOk, SlabsOk, CachesOk, OnlySlab, BlocksOk, Available, Fits, PerSlab, Hdr, WellShaped, Slots;
      hide Chain, Word, InBlock, Block;
      ghost var h := S();
      var g := caches[ci].shape;
      ShapeOf(h, ci);
      b := TakeBlock(g.order);
      if b == 0 {
        return;
      }
      var first, head := ThreadObjects(b, g);
      slabs := slabs[b := Slab(ci, head, 0, PerSlab(g), g.order)];
      free := free[b := Slots(b + Hdr(g.align), g.objsize, 0, PerSlab(g))];
      SlabAdded(h, S(), b, ci);
    }

    method ThreadObjects(b: nat, g: Shape) returns (first: nat, head: nat)
      requires b > 0 && WellShaped(g) && Fits(g)
      modifies this`words
      ensures Chain(words, head, Slots(b + Hdr(g.align), g.objsize, 0, PerSlab(g)))
      ensures forall x: nat :: !InBlock(b, g.order, x) ==> Word(words, x) == Word(old(words), x)
    {
      hide Block, AlignUp, Pow2, Slots, InBlock, Chain, WellShaped;
      Positive(g);
      ThreadStart(words, b + Hdr(g.align), g.objsize, PerSlab(g));
      first := b + Hdr(g.align);
      head := 0;
      var i: nat := PerSlab(g);
      while i > 0
        invariant i <= PerSlab(g) && Chain(words, head, Slots(first, g.objsize, i, PerSlab(g)))
        invariant forall x: nat :: !InBlock(b, g.order, x) ==> Word(words, x) == Word(old(words), x)
      {
        i := i - 1;
        var obj := first + i * g.objsize;
        ghost var before := words;
        words := words[obj := head];
        ThreadedSlot(before, first, g.objsize, i, PerSlab(g), head);
        head := obj;
        SlotInside(b, g, i);
      }
    }

    /** An object nobody holds, on the cache's alignment; no block outstanding before loses a word. */
    method CacheAlloc(ci: nat) returns (obj: nat)
      requires Valid() && ci < |caches| && Fits(caches[ci].shape)
      modifies this
      ensures Valid() && SameShapes(old(S()), S())
      ensures obj == 0 ==> S() == old(S()) && refusals == old(refusals) + 1
      ensures obj != 0 ==>
                && obj !in old(live)
                && live == old(live)[obj := ci]
                && obj % caches[ci].shape.align == 0
                && refusals == old(refusals)
      ensures BlocksKept(old(S()), S())
      ensures old(caches)[ci].partial != [] || old(caches)[ci].empty != [] ==>
                owned == old(owned) && words == old(words) && obj != 0
    {
      hide HeapOk, SlabOk, OnlySlab, Available, BlocksKept, Taken, SameShapes, Fits;
      ghost var h := S();
      var b := PickSlab(ci);
      if b == 0 {
        NothingTaken(h);
        return 0;
      }
      ghost var t := S();
      ReadySlab(h, t, b, ci);
      hide Ready;
      obj := PopObject(b);
      ObjectTaken(h, t, S(), b, obj, ci);
    }

    /** The first partial slab, else the first empty one, else a new one, moved to the partial list. */
    method PickSlab(ci: nat) returns (b: nat)
      requires Valid() && ci < |caches| && Fits(caches[ci].shape)
      modifies this
      ensures b == 0 ==> S() == old(S()) && refusals == old(refusals) + 1
      ensures b != 0 ==> Ready(old(S()), S(), b, ci) && refusals == old(refusals)
      ensures old(caches)[ci].partial != [] || old(caches)[ci].empty != [] ==>
                owned == old(owned) && words == old(words) && b != 0
    {
      hide HeapOk, SlabOk, LivesOk, SlabsOk, CachesOk, OnlySlab, Available, Fits, Ready, BlocksOk;
      ghost var h := S();
      var c := caches[ci];
      if c.partial != [] || c.empty != [] {
        b := if c.partial != [] then c.partial[0] else c.empty[0];
        ListedSlab(h, ci, b);
        caches := caches[ci := Place(c, b, Partial)];
        Relist(h, S(), b, ci);
      } else {
        b := SlabNew(ci);
        if b != 0 {
          Attach(h, b, ci);
        }
      }
    }

    /** A new slab goes to the front of the partial list. */
    method Attach(ghost h: H, b: nat, ci: nat)
      requires HeapOk(h) && ci < |caches| && caches == h.caches && live == h.live
      requires Available(h.owned, b, caches[ci].shape.order) && OnlySlab(h, S(), b, caches[ci].shape.order)
      requires b in slabs && slabs.Keys == h.slabs.Keys + {b} && owned == h.owned[b := caches[ci].shape.order]
      requires BlocksOk(owned) && SlabsOk(S()) && LivesOk(S())
      requires slabs[b].cache == ci && b in free && free[b] != []
      modifies this`caches
      ensures Ready(h, S(), b, ci)
    {
      hide HeapOk, SlabOk, LivesOk, SlabsOk, OnlySlab, Available, Ready, BlocksOk;
      ghost var n := S();
      caches := caches[ci := caches[ci].(partial := [b] + caches[ci].partial)];
      Enlist(h, n, S(), b, ci);
    }

    /** Take the head of the slab's free list, moving the slab when it was the last. */
    method PopObject(b: nat) returns (obj: nat)
      requires b in slabs && b in free && SlabOk(S(), b) && free[b] != []
      modifies this`slabs, this`caches, this`free, this`live
      ensures SlabOk(S(), b) && Taken(old(S()), S(), b, obj, old(slabs)[b].cache)
    {
      hide WellShaped, Fits, IsObj, PerSlab;
      ghost var h := S();
      var s := slabs[b];
      obj := s.freelist;
      slabs := slabs[b := s.(freelist := Word(words, obj), inuse := s.inuse + 1)];
      free := free[b := free[b][1..]];
      live := live[obj := s.cache];
      assert Chain(words, slabs[b].freelist, free[b]);
      if slabs[b].freelist == 0 {
        caches := caches[s.cache := Place(caches[s.cache], b, Full)];
      }
      PopKeeps(h, S(), b);
    }

    /** Exactly `obj` stops being live, and only its first word changes. */
    method CacheFree(ci: nat, obj: nat)
      requires Valid() && obj in live && live[obj] == ci
      modifies this
      ensures Valid() && SameShapes(old(S()), S()) && live == old(live) - {obj} && owned == old(owned)
      ensures refusals == old(refusals)
      ensures slabs.Keys == old(slabs).Keys
      ensures forall x: nat :: x != obj ==> Word(words, x) == Word(old(words), x)
      ensures obj % 16 == 0 && FreeObject(S(), obj)
    {
      hide HeapOk, LiveOk, SlabOk, FreeObject, IsObj, WellShaped, SameShapes, InBlock, SlabOf, Place;
      ghost var h := S();
      LiveFacts(h, obj);
      var b := SlabOf(obj, caches[ci].shape.order);
      var s := slabs[b];
      words := words[obj := s.freelist];
      slabs := slabs[b := s.(freelist := obj, inuse := s.inuse - 1)];
      free := free[b := [obj] + free[b]];
      live := live - {obj};
      caches := caches[ci := Place(caches[ci], b, if slabs[b].inuse == 0 then Empty else Partial)];
      ObjectReturned(h, S(), b, obj, ci);
    }

    /** The slabs given back are exactly those of the cache with no live object. */
    method CacheDestroy(ci: nat)
      requires Valid() && ci < |caches|
      modifies this
      ensures Valid() && SameShapes(old(S()), S()) && live == old(live) && words == old(words)
      ensures refusals == old(refusals)
      ensures owned == old(owned) - Idle(old(slabs), ci) && slabs == old(slabs) - Idle(old(slabs), ci)
    {
      hide HeapOk, LivesOk, SlabsOk, SlabOk, CachesOk, BlocksOk;
      ghost var given: set<nat> := {};
      while caches[ci].empty != []
        invariant Valid() && SameShapes(old(S()), S()) && live == old(live) && words == old(words)
        invariant refusals == old(refusals)
        invariant given <= Idle(old(slabs), ci) && owned == old(owned) - given && slabs == old(slabs) - given
        decreases |caches[ci].empty|
      {
        var b := GiveSlab(ci);
        given := given + {b};
      }
      NoneIdle(S(), ci);
    }

    /** Give back the first of the cache's empty slabs. */
    method GiveSlab(ci: nat) returns (b: nat)
      requires Valid() && ci < |caches| && caches[ci].empty != []
      modifies this
      ensures Valid() && SameShapes(old(S()), S()) && live == old(live) && words == old(words)
      ensures refusals == old(refusals)
      ensures b in old(owned) && b in old(slabs) && old(slabs)[b].cache == ci && old(slabs)[b].inuse == 0
      ensures owned == old(owned) - {b} && slabs == old(slabs) - {b} && |caches[ci].empty| < |old(caches)[ci].empty|
    {
      hide HeapOk, LivesOk, SlabsOk, CachesOk, OnlySlab;
      ghost var h := S();
      HeapParts(h);
      b := caches[ci].empty[0];
      ListedSlab(h, ci, b);
      caches := caches[ci := caches[ci].(empty := caches[ci].empty[1..])];
      slabs := slabs - {b};
      free := free - {b};
      owned := owned - {b};
      SlabGone(h, S(), b, ci);
    }
  }

  /** Every block outstanding keeps its size, its kind and its words; a new one is a slab. */
  ghost predicate BlocksKept(h: H, h': H) {
    && (forall b :: b in h.owned ==> b in h'.owned && h'.owned[b] == h.owned[b] && (b in h'.slabs <==> b in h.slabs))
    && (forall b, x: nat :: b in h.owned && InBlock(b, h.owned[b], x) ==> Word(h'.words, x) == Word(h.words, x))
    && (forall b :: b in h'.owned && b !in h.owned ==> b in h'.slabs)
  }

  /** `a` is on the free list of some slab. */
  ghost predicate FreeObject(h: H, a: nat) {
    exists b :: b in h.slabs && b in h.free && a in h.free[b]
  }

  lemma FitsWhen(g: Shape)
    requires WellShaped(g)
    requires g.order < MAX_SLAB_ORDER ==> PerSlab(g) >= 8
    ensures Fits(g) <==> Hdr(g.align) + g.objsize <= 65536
  {
    BlockGrows(g.order, MAX_SLAB_ORDER);
    assert Block(4) == 65536 by {
      assert Block(1) == 8192 && Block(2) == 16384;
    }
    if g.order < MAX_SLAB_ORDER {
      RoomFor(Block(g.order) - Hdr(g.align), g.objsize, 0);
    }
  }

  lemma NewCache(h: H, h': H)
    requires HeapOk(h) && |h'.caches| == |h.caches| + 1 && h'.caches[..|h.caches|] == h.caches
    requires h' == h.(caches := h'.caches)
    requires var c := h'.caches[|h.caches|]; WellShaped(c.shape) && c.partial == c.full == c.empty == []
    ensures HeapOk(h')
  {
    HeapParts(h);
    hide *;
    NewCacheSlabs(h, h');
    NewCacheLists(h, h');
    BuildHeap(h');
  }

  lemma NewCacheSlabs(h: H, h': H)
    requires SlabsOk(h) && LivesOk(h) && |h'.caches| == |h.caches| + 1 && h'.caches[..|h.caches|] == h.caches
    requires h' == h.(caches := h'.caches)
    ensures SlabsOk(h') && LivesOk(h') && h'.owned == h.owned
  {
    hide WellShaped, IsObj, Chain, PerSlab, Fits, Distinct;
    forall b | b in h.slabs
      ensures SlabOk(h', b)
    {
      assert SlabOk(h, b);
    }
    forall a | a in h.live
      ensures LiveOk(h', a)
    {
      assert LiveOk(h, a);
    }
  }

  lemma NewCacheLists(h: H, h': H)
    requires SlabsOk(h) && CachesOk(h) && |h'.caches| == |h.caches| + 1 && h'.caches[..|h.caches|] == h.caches
    requires h'.slabs == h.slabs
    requires var c := h'.caches[|h.caches|]; WellShaped(c.shape) && c.partial == c.full == c.empty == []
    ensures CachesOk(h')
  {
    forall b | b in h.slabs
      ensures h.slabs[b].cache < |h.caches|
    {
      assert SlabOk(h, b);
    }
    hide WellShaped, SlabsOk;
    forall ci | 0 <= ci < |h'.caches|
      ensures WellShaped(h'.caches[ci].shape) && ListsOk(h'.slabs, h'.caches[ci], ci)
    {
      if ci < |h.caches| {
        assert h'.caches[ci] == h'.caches[..|h.caches|][ci] == h.caches[ci];
        assert ListsOk(h.slabs, h.caches[ci], ci);
      }
    }
  }

  /** The slabs of a cache with no live object. */
  ghost function Idle(slabs: map<nat, Slab>, ci: nat): set<nat> {
    set b | b in slabs && slabs[b].cache == ci && slabs[b].inuse == 0
  }

  lemma NoneIdle(h: H, ci: nat)
    requires HeapOk(h) && ci < |h.caches| && h.caches[ci].empty == []
    ensures Idle(h.slabs, ci) == {}
  {
    assert ListsOk(h.slabs, h.caches[ci], ci);
  }

  lemma SlabsOwned(h: H)
    requires SlabsOk(h)
    ensures forall b :: b in h.slabs ==> b in h.owned
  {
    forall b | b in h.slabs
      ensures b in h.owned
    {
      assert SlabOk(h, b);
    }
  }

  lemma ShapeOf(h: H, ci: nat)
    requires HeapOk(h) && ci < |h.caches|
    ensures WellShaped(h.caches[ci].shape) && BlocksOk(h.owned) && h.caches[ci].shape.align > 0
    ensures h.caches[ci].shape.objsize > 0
  {
  }

  lemma SlotFresh(first: nat, size: nat, i: nat, n: nat)
    requires i < n && size > 0
    ensures first + i * size !in Slots(first, size, i + 1, n)
  {
    SlotsDistinct(first, size, i, n);
    var r := Slots(first, size, i, n);
    assert r[0] !in r[1..];
  }

  lemma Positive(g: Shape)
    requires WellShaped(g)
    ensures g.align > 0 && g.objsize > 0
  {
  }

  lemma ThreadStart(words: map<nat, nat>, first: nat, size: nat, n: nat)
    ensures Chain(words, 0, Slots(first, size, n, n))
  {
  }

  lemma ThreadedSlot(words: map<nat, nat>, first: nat, size: nat, i: nat, n: nat, head: nat)
    requires i < n && size > 0 && first > 0 && Chain(words, head, Slots(first, size, i + 1, n))
    ensures Chain(words[first + i * size := head], first + i * size, Slots(first, size, i, n))
  {
    var rest := Slots(first, size, i + 1, n);
    SlotFresh(first, size, i, n);
    ChainFrame(words, words[first + i * size := head], head, rest);
    assert Slots(first, size, i, n)[1..] == rest;
  }

  lemma SlotInside(b: nat, g: Shape, i: nat)
    requires WellShaped(g) && Fits(g) && i < PerSlab(g)
    ensures InBlock(b, g.order, b + Hdr(g.align) + i * g.objsize)
  {
    hide Block, Hdr, Pow2;
    RoomFor(Block(g.order) - Hdr(g.align), g.objsize, i);
    assert (i + 1) * g.objsize == i * g.objsize + g.objsize;
  }

  /** A slab on the partial or empty list has an object to give. */
  lemma ListedSlab(h: H, ci: nat, b: nat)
    requires HeapOk(h) && ci < |h.caches| && (b in h.caches[ci].partial || b in h.caches[ci].empty)
    ensures b in h.slabs && SlabOk(h, b) && h.slabs[b].cache == ci && b in h.owned && b in h.free && h.free[b] != []
    ensures b in h.caches[ci].empty ==> h.slabs[b].inuse == 0
    ensures b > 0
  {
    HeapParts(h);
    hide HeapOk, BlocksOk, LivesOk, Chain, Distinct;
    assert ListsOk(h.slabs, h.caches[ci], ci);
    assert SlabOk(h, b);
    SlabHasSlots(h, b);
    BlockPositive(h.owned, b);
  }

  lemma SlabHasSlots(h: H, b: nat)
    requires SlabOk(h, b)
    ensures h.slabs[b].total > 0
  {
    var g := h.caches[h.slabs[b].cache].shape;
    RoomFor(Block(g.order) - Hdr(g.align), g.objsize, 0);
  }

  lemma BlockPositive(owned: map<nat, nat>, b: nat)
    requires BlocksOk(owned) && b in owned
    ensures b > 0
  {
  }

  /** A block was taken and made a slab of cache `ci`. */
  ghost predicate Added(h: H, h': H, b: nat, ci: nat) {
    && ci < |h.caches| && h'.caches == h.caches && h'.live == h.live && b in h'.slabs
    && var g := h.caches[ci].shape;
       && WellShaped(g) && Fits(g) && Available(h.owned, b, g.order) && h'.owned == h.owned[b := g.order]
       && h'.slabs == h.slabs[b := h'.slabs[b]] && h'.slabs[b] == Slab(ci, h'.slabs[b].freelist, 0, PerSlab(g), g.order)
       && h'.free == h.free[b := Slots(b + Hdr(g.align), g.objsize, 0, PerSlab(g))]
       && Chain(h'.words, h'.slabs[b].freelist, h'.free[b])
       && forall x: nat :: !InBlock(b, g.order, x) ==> Word(h'.words, x) == Word(h.words, x)
  }

  lemma SlabAdded(h: H, h': H, b: nat, ci: nat)
    requires HeapOk(h) && Added(h, h', b, ci)
    ensures OnlySlab(h, h', b, h.caches[ci].shape.order) && BlocksOk(h'.owned) && SlabsOk(h') && LivesOk(h')
    ensures h'.free[b] != [] && h'.slabs.Keys == h.slabs.Keys + {b}
  {
    HeapParts(h);
    hide *;
    AddedBlocks(h, h', b, ci);
    AddedLives(h, h', b, ci);
    AddedOnly(h, h', b, ci);
    OtherSlabs(h, h', b, h.caches[ci].shape.order);
  }

  lemma AddedBlocks(h: H, h': H, b: nat, ci: nat)
    requires BlocksOk(h.owned) && Added(h, h', b, ci)
    ensures BlocksOk(h'.owned) && Clear(h.owned, b, h.caches[ci].shape.order) && h'.slabs.Keys == h.slabs.Keys + {b}
    ensures b in h'.free && h'.free[b] != []
  {
    var g := h.caches[ci].shape;
    RoomFor(Block(g.order) - Hdr(g.align), g.objsize, 0);
    hide Hdr, Chain, Word, WellShaped, Block;
  }

  lemma AddedLives(h: H, h': H, b: nat, ci: nat)
    requires SlabsOk(h) && LivesOk(h) && Added(h, h', b, ci)
    ensures LivesOk(h') && SlabOk(h', b)
  {
    hide WellShaped, Fits, PerSlab, Hdr, Chain, Word, IsObj, SlabOk, Block, SlabsOk, Slots;
    var g := h.caches[ci].shape;
    forall a | a in h.live
      ensures LiveOk(h', a) && !InBlock(b, g.order, a)
    {
      assert LiveOk(h, a);
      LiveInside(h, a);
    }
    NewSlab(h', b, g);
  }

  lemma AddedOnly(h: H, h': H, b: nat, ci: nat)
    requires Added(h, h', b, ci)
    ensures OnlySlab(h, h', b, h.caches[ci].shape.order)
  {
    hide Hdr, Chain, Word, WellShaped, Block, Fits, PerSlab;
  }

  /** A live object lies within the block of its slab, which is outstanding. */
  lemma LiveInside(h: H, a: nat)
    requires SlabsOk(h) && a in h.live && LiveOk(h, a)
    ensures var o := h.caches[h.live[a]].shape.order; var b := SlabOf(a, o);
            b in h.owned && h.owned[b] == o && InBlock(b, o, a) && a + h.caches[h.live[a]].shape.objsize <= b + Block(o)
  {
    assert SlabOk(h, SlabOf(a, h.caches[h.live[a]].shape.order));
  }

  /** The slab at `b` heads for the partial list, whichever way it got there. */
  ghost predicate Ready(h: H, t: H, b: nat, ci: nat) {
    && ci < |h.caches| && BlocksOk(t.owned) && SlabsOk(t) && LivesOk(t) && t.live == h.live
    && |t.caches| == |h.caches| && t.caches == h.caches[ci := t.caches[ci]] && Relisted(h.caches[ci], t.caches[ci], b)
    && OnlySlab(h, t, b, h.caches[ci].shape.order)
    && b in t.caches[ci].partial && b !in t.caches[ci].full && b !in t.caches[ci].empty
    && (b in h.slabs ==> h.slabs[b].cache == ci && t.words == h.words && t.owned == h.owned)
    && (b !in h.slabs ==>
          && b !in h.owned && Available(h.owned, b, h.caches[ci].shape.order)
          && t.owned == h.owned[b := h.caches[ci].shape.order])
    && b in t.slabs && t.slabs[b].cache == ci && b in t.free && t.free[b] != []
    && t.slabs.Keys == h.slabs.Keys + {b}
  }

  lemma ReadyLists(h: H, t: H, b: nat, ci: nat)
    requires Ready(h, t, b, ci)
    ensures ci < |h.caches| == |t.caches| && Relisted(h.caches[ci], t.caches[ci], b) && b in t.slabs
    ensures t.slabs[b].cache == ci
    ensures forall cj :: 0 <= cj < |h.caches| && cj != ci ==> t.caches[cj] == h.caches[cj]
    ensures b in t.caches[ci].partial && b !in t.caches[ci].full && b !in t.caches[ci].empty
    ensures forall b' :: b' != b ==> Get(t.slabs, b') == Get(h.slabs, b')
    ensures b in h.slabs ==> h.slabs[b].cache == ci
  {
    hide SlabsOk, LivesOk, BlocksOk, Relisted, Available, Word, SameShapes, Block;
  }

  lemma ReadySlab(h: H, t: H, b: nat, ci: nat)
    requires Ready(h, t, b, ci)
    ensures b in t.slabs && b in t.free && SlabOk(t, b) && t.free[b] != [] && t.slabs[b].cache == ci < |t.caches|
    ensures t.live == h.live
  {
    assert SlabOk(t, b);
  }

  lemma ReadyBlocks(h: H, t: H, b: nat, ci: nat)
    requires Ready(h, t, b, ci)
    ensures SlabsOk(t) && LivesOk(t) && BlocksOk(t.owned)
  {
    hide SlabsOk, LivesOk, BlocksOk, Relisted, Available, Word, SameShapes, Block, OnlySlab;
  }

  lemma ShapesOnly(h: H, t: H)
    requires SlabsOk(h) && LivesOk(h) && SameShapes(h, t) && t == h.(caches := t.caches)
    ensures SlabsOk(t) && LivesOk(t)
  {
    hide IsObj, WellShaped, Chain, Fits, PerSlab, Distinct;
    forall b | b in t.slabs
      ensures SlabOk(t, b)
    {
      assert SlabOk(h, b);
    }
    forall a | a in t.live
      ensures LiveOk(t, a)
    {
      assert LiveOk(h, a);
    }
  }

  lemma Relist(h: H, t: H, b: nat, ci: nat)
    requires HeapOk(h) && ci < |h.caches| && t == h.(caches := h.caches[ci := Place(h.caches[ci], b, Partial)])
    requires b in h.slabs && h.slabs[b].cache == ci && b in h.free && h.free[b] != []
    ensures Ready(h, t, b, ci)
  {
    hide SlabOk, LiveOk, ListsOk, Word;
    ShapesOnly(h, t);
  }

  lemma Enlist(h: H, n: H, t: H, b: nat, ci: nat)
    requires HeapOk(h) && ci < |h.caches| && n.caches == h.caches && n.live == h.live
    requires Available(h.owned, b, h.caches[ci].shape.order) && OnlySlab(h, n, b, h.caches[ci].shape.order)
    requires b in n.slabs && n.slabs.Keys == h.slabs.Keys + {b} && n.owned == h.owned[b := h.caches[ci].shape.order]
    requires BlocksOk(n.owned) && SlabsOk(n) && LivesOk(n)
    requires n.slabs[b].cache == ci && b in n.free && n.free[b] != []
    requires |t.caches| == |h.caches| && t == n.(caches := t.caches)
    requires t.caches == h.caches[ci := h.caches[ci].(partial := [b] + h.caches[ci].partial)]
    ensures Ready(h, t, b, ci)
  {
    hide SlabOk, LiveOk, Word, SlabsOk, LivesOk, BlocksOk, HeapOk, Available, Distinct, Block, CachesOk;
    NotASlab(h, b, h.caches[ci].shape.order);
    EnlistHead(h, b, ci);
    EnlistOnly(h, n, t, b, h.caches[ci].shape.order);
    ShapesOnly(n, t);
  }

  lemma EnlistOnly(h: H, n: H, t: H, b: nat, o: nat)
    requires OnlySlab(h, n, b, o) && n.caches == h.caches && t == n.(caches := t.caches) && SameShapes(h, t)
    ensures OnlySlab(h, t, b, o)
  {
    hide Word, Block, InBlock;
  }

  lemma NotASlab(h: H, b: nat, o: nat)
    requires HeapOk(h) && Available(h.owned, b, o)
    ensures b !in h.slabs && b !in h.owned
  {
    SlabsOwned(h);
  }

  lemma EnlistHead(h: H, b: nat, ci: nat)
    requires HeapOk(h) && ci < |h.caches| && b !in h.slabs
    ensures Relisted(h.caches[ci], h.caches[ci].(partial := [b] + h.caches[ci].partial), b)
    ensures b !in h.caches[ci].partial && b !in h.caches[ci].full && b !in h.caches[ci].empty
  {
    assert ListsOk(h.slabs, h.caches[ci], ci);
    hide CachesOk, SlabsOk, LivesOk, BlocksOk;
  }

  lemma NothingTaken(h: H)
    ensures SameShapes(h, h) && BlocksKept(h, h)
  {
  }

  /** The head of the free list of `b` was taken and the slab relisted if it was the last. */
  ghost predicate Taken(t: H, h': H, b: nat, obj: nat, ci: nat) {
    && ci < |t.caches| == |h'.caches| && b in t.slabs && b in h'.slabs && b in t.free && t.free[b] != []
    && obj == t.free[b][0] && h'.live == t.live[obj := ci] && h'.words == t.words && h'.owned == t.owned
    && h'.slabs == t.slabs[b := h'.slabs[b]] && h'.free == t.free[b := t.free[b][1..]]
    && h'.slabs[b] == t.slabs[b].(inuse := t.slabs[b].inuse + 1, freelist := h'.slabs[b].freelist)
    && h'.caches == t.caches[ci := h'.caches[ci]]
    && h'.caches[ci] == if h'.slabs[b].inuse == h'.slabs[b].total then Place(t.caches[ci], b, Full) else t.caches[ci]
  }

  lemma ObjectTaken(h: H, t: H, h': H, b: nat, obj: nat, ci: nat)
    requires HeapOk(h) && Ready(h, t, b, ci) && Taken(t, h', b, obj, ci) && SlabOk(h', b)
    ensures HeapOk(h') && SameShapes(h, h') && BlocksKept(h, h') && |h'.caches| == |h.caches|
    ensures ci < |h.caches| && h'.caches[ci].shape == h.caches[ci].shape && h'.live == h.live[obj := ci]
    ensures obj != 0 && obj !in h.live && ci < |h.caches| && obj % h.caches[ci].shape.align == 0
  {
    HeapParts(h);
    hide *;
    TakenObject(h, t, h', b, obj, ci);
    TakenShapes(h, t, h', b, obj, ci);
    TakenSlabs(h, t, h', b, obj, ci);
    TakenLives(h, t, h', b, obj, ci);
    TakenLists(h, t, h', b, obj, ci);
    TakenBlocks(h, t, h', b, obj, ci);
    BuildHeap(h');
  }

  lemma TakenObject(h: H, t: H, h': H, b: nat, obj: nat, ci: nat)
    requires Ready(h, t, b, ci) && Taken(t, h', b, obj, ci)
    ensures b in t.slabs && SlabOk(t, b) && t.slabs[b].cache == ci < |t.caches|
    ensures var g := t.caches[ci].shape;
            && obj > 0 && obj !in t.live && obj !in h.live && obj % g.align == 0 && WellShaped(g) && IsObj(g, b, obj)
            && InBlock(b, g.order, obj) && SlabOf(obj, g.order) == b && ci < |h.caches| && g == h.caches[ci].shape
            && b in t.owned && t.owned[b] == g.order
  {
    assert SlabOk(t, b);
    hide PerSlab, Fits, Chain, Block, Pow2, Word, AlignUp;
    ObjAligned(t.caches[ci].shape, b, obj);
    SlabOfObj(t.caches[ci].shape, b, obj);
  }

  lemma TakenShapes(h: H, t: H, h': H, b: nat, obj: nat, ci: nat)
    requires Ready(h, t, b, ci) && Taken(t, h', b, obj, ci)
    ensures SameShapes(h, h') && SameShapes(t, h') && BlocksOk(h'.owned) && |h'.caches| == |h.caches|
    ensures ci < |h.caches| && h'.caches[ci].shape == h.caches[ci].shape && h'.live == h.live[obj := ci]
  {
    hide SlabsOk, LivesOk, BlocksOk, Distinct;
  }

  lemma TakenSlabs(h: H, t: H, h': H, b: nat, obj: nat, ci: nat)
    requires Ready(h, t, b, ci) && Taken(t, h', b, obj, ci) && SlabOk(h', b)
    ensures SlabsOk(h')
  {
    TakenObject(h, t, h', b, obj, ci);
    ReadyBlocks(h, t, b, ci);
    hide *;
    TakenOnly(h, t, h', b, obj, ci);
    BlockClear(t.owned, b);
    OtherSlabs(t, h', b, t.caches[ci].shape.order);
  }

  lemma TakenOnly(h: H, t: H, h': H, b: nat, obj: nat, ci: nat)
    requires Ready(h, t, b, ci) && Taken(t, h', b, obj, ci)
    ensures OnlySlab(t, h', b, t.caches[ci].shape.order)
  {
    hide Ready, SlabOk, IsObj, WellShaped, Block, Word, SameShapes, InBlock, Place, SlabOf;
    TakenObject(h, t, h', b, obj, ci);
    TakenShapes(h, t, h', b, obj, ci);
  }

  lemma TakenLives(h: H, t: H, h': H, b: nat, obj: nat, ci: nat)
    requires Ready(h, t, b, ci) && Taken(t, h', b, obj, ci)
    ensures LivesOk(h')
  {
    TakenObject(h, t, h', b, obj, ci);
    TakenShapes(h, t, h', b, obj, ci);
    hide SlabOk, IsObj, WellShaped, Block, Word, SlabsOk, Distinct, Relisted, Available, OnlySlab, BlocksOk;
    forall a | a in h'.live
      ensures LiveOk(h', a)
    {
      if a != obj {
        assert LiveOk(t, a);
        LiveFrame(t, h', a);
      }
    }
  }

  lemma TakenLists(h: H, t: H, h': H, b: nat, obj: nat, ci: nat)
    requires CachesOk(h) && Ready(h, t, b, ci) && Taken(t, h', b, obj, ci) && SlabOk(h', b)
    ensures CachesOk(h')
  {
    hide Ready, SlabOk, CachesOk, Distinct, ListsOk, SameShapes;
    TakenShapes(h, t, h', b, obj, ci);
    ReadyLists(h, t, b, ci);
    CountFits(h', b);
    assert Relisted(h.caches[ci], h'.caches[ci], b);
    ListsAfter(h, h', ci, b);
  }

  lemma CountFits(h: H, b: nat)
    requires SlabOk(h, b)
    ensures b in h.slabs && h.slabs[b].inuse <= h.slabs[b].total
  {
  }

  lemma TakenBlocks(h: H, t: H, h': H, b: nat, obj: nat, ci: nat)
    requires Ready(h, t, b, ci) && Taken(t, h', b, obj, ci)
    ensures BlocksKept(h, h')
  {
    hide SlabsOk, LivesOk, BlocksOk, SameShapes, Relisted, Word, Block, Distinct;
    assert h'.slabs.Keys == t.slabs.Keys;
  }

  /** Where a live object is. */
  lemma LiveFacts(h: H, a: nat)
    requires HeapOk(h) && a in h.live
    ensures LiveOk(h, a) && a > 0 && a % 16 == 0 && h.live[a] < |h.caches|
    ensures var g := h.caches[h.live[a]].shape; var b := SlabOf(a, g.order);
            && b in h.slabs && b in h.free && h.slabs[b].cache == h.live[a] && SlabOk(h, b) && IsObj(g, b, a)
            && h.slabs[b].inuse > 0
            && InBlock(b, g.order, a) && b in h.owned && h.owned[b] == h.slabs[b].order == g.order
  {
    assert LiveOk(h, a);
    var g := h.caches[h.live[a]].shape;
    var b := SlabOf(a, g.order);
    assert SlabOk(h, b);
    LiveInside(h, a);
    LiveInUse(h, b, a);
    ObjAligned(g, b, a);
  }

  /** A live object was put at the head of its slab's free list and the slab relisted. */
  ghost predicate Returned(h: H, h': H, b: nat, obj: nat, ci: nat) {
    && ci < |h.caches| == |h'.caches| && b in h.slabs && b in h'.slabs && b in h.free && obj in h.live
    && h.live[obj] == ci
    && b == SlabOf(obj, h.caches[ci].shape.order)
    && h'.free == h.free[b := [obj] + h.free[b]] && h'.live == h.live - {obj}
    && h'.words == h.words[obj := h.slabs[b].freelist] && h'.owned == h.owned
    && h'.slabs == h.slabs[b := h.slabs[b].(freelist := obj, inuse := h'.slabs[b].inuse)]
    && h'.slabs[b].inuse == h.slabs[b].inuse - 1
    && h'.caches == h.caches[ci := Place(h.caches[ci], b, if h'.slabs[b].inuse == 0 then Empty else Partial)]
  }

  lemma ObjectReturned(h: H, h': H, b: nat, obj: nat, ci: nat)
    requires HeapOk(h) && Returned(h, h', b, obj, ci)
    ensures HeapOk(h') && SameShapes(h, h') && FreeObject(h', obj) && |h'.caches| == |h.caches|
    ensures h'.slabs.Keys == h.slabs.Keys
  {
    HeapParts(h);
    ReturnedKeys(h, h', b, obj, ci);
    hide *;
    ReturnedSlabs(h, h', b, obj, ci);
    ReturnedLives(h, h', b, obj, ci);
    ReturnedLists(h, h', b, obj, ci);
    BuildHeap(h');
  }

  lemma BuildHeap(h: H)
    requires BlocksOk(h.owned) && SlabsOk(h) && LivesOk(h) && CachesOk(h)
    ensures HeapOk(h)
  {
  }

  lemma ReturnedKeys(h: H, h': H, b: nat, obj: nat, ci: nat)
    requires Returned(h, h', b, obj, ci)
    ensures |h'.caches| == |h.caches| && h'.slabs.Keys == h.slabs.Keys
  {
    hide Place;
  }

  lemma ReturnedSlabs(h: H, h': H, b: nat, obj: nat, ci: nat)
    requires HeapOk(h) && Returned(h, h', b, obj, ci)
    ensures SlabsOk(h') && SameShapes(h, h') && FreeObject(h', obj) && h'.owned == h.owned && BlocksOk(h'.owned)
  {
    HeapParts(h);
    LiveFacts(h, obj);
    assert obj in h'.free[b];
    hide HeapOk, CachesOk, LivesOk, IsObj, WellShaped, Block, SlabOk, Distinct, LiveOk, Word, SlabsOk, BlocksOk;
    hide InBlock;
    PushKeeps(h, h', b, obj);
    ReturnedOnly(h, h', b, obj, ci);
    BlockClear(h.owned, b);
    hide *;
    OtherSlabs(h, h', b, h.caches[ci].shape.order);
  }

  lemma ReturnedOnly(h: H, h': H, b: nat, obj: nat, ci: nat)
    requires Returned(h, h', b, obj, ci) && InBlock(b, h.caches[ci].shape.order, obj)
    ensures OnlySlab(h, h', b, h.caches[ci].shape.order) && SameShapes(h, h')
  {
    hide Block, InBlock;
  }

  lemma ReturnedLives(h: H, h': H, b: nat, obj: nat, ci: nat)
    requires LivesOk(h) && Returned(h, h', b, obj, ci)
    ensures LivesOk(h')
  {
    hide WellShaped, IsObj, Block;
    forall a | a in h'.live
      ensures LiveOk(h', a)
    {
      assert LiveOk(h, a);
      LiveFrame(h, h', a);
    }
  }

  lemma ReturnedLists(h: H, h': H, b: nat, obj: nat, ci: nat)
    requires HeapOk(h) && Returned(h, h', b, obj, ci)
    ensures CachesOk(h')
  {
    LiveFacts(h, obj);
    assert h'.slabs[b].inuse < h'.slabs[b].total;
    HeapParts(h);
    hide HeapOk, SlabOk, SlabsOk, LivesOk, LiveOk, BlocksOk, CachesOk, Distinct, Block, Word, WellShaped, IsObj;
    hide Fits, PerSlab, Hdr, Chain, FreeObject, InBlock;
    Relisting(h, h', b, obj, ci);
    hide SameShapes;
    ListsAfter(h, h', ci, b);
  }

  lemma Relisting(h: H, h': H, b: nat, obj: nat, ci: nat)
    requires Returned(h, h', b, obj, ci)
    ensures SameShapes(h, h') && Relisted(h.caches[ci], h'.caches[ci], b)
    ensures forall c :: 0 <= c < |h.caches| && c != ci ==> h'.caches[c] == h.caches[c]
    ensures forall x :: x != b ==> Get(h'.slabs, x) == Get(h.slabs, x)
  {
    hide Block, Word, SlabOf;
  }

  lemma SlabGone(h: H, h': H, b: nat, ci: nat)
    requires HeapOk(h) && ci < |h.caches| && h.caches[ci].empty != [] && b == h.caches[ci].empty[0]
    requires h' == h.(owned := h.owned - {b}, slabs := h.slabs - {b}, free := h.free - {b},
                      caches := h.caches[ci := h.caches[ci].(empty := h.caches[ci].empty[1..])])
    ensures HeapOk(h') && SameShapes(h, h')
  {
    HeapParts(h);
    ListedSlab(h, ci, b);
    GoneLists(h, h', b, ci);
    GoneLives(h, h', b, ci);
    GoneOnly(h, h', b, ci);
    BlockClear(h.owned, b);
    hide *;
    OtherSlabs(h, h', b, h.owned[b]);
    BuildHeap(h');
  }

  lemma GoneOnly(h: H, h': H, b: nat, ci: nat)
    requires BlocksOk(h.owned) && ci < |h.caches| && b in h.owned && h.caches[ci].empty != []
    requires h' == h.(owned := h.owned - {b}, slabs := h.slabs - {b}, free := h.free - {b},
                      caches := h.caches[ci := h.caches[ci].(empty := h.caches[ci].empty[1..])])
    ensures OnlySlab(h, h', b, h.owned[b]) && SameShapes(h, h') && BlocksOk(h'.owned) && b !in h'.slabs
  {
    hide Block, Word;
  }

  lemma GoneLives(h: H, h': H, b: nat, ci: nat)
    requires LivesOk(h) && SlabOk(h, b) && h.slabs[b].inuse == 0 && h.slabs[b].cache == ci < |h.caches|
    requires h.caches[ci].empty != []
    requires h'.live == h.live && h'.slabs == h.slabs - {b}
    requires h'.caches == h.caches[ci := h.caches[ci].(empty := h.caches[ci].empty[1..])]
    ensures LivesOk(h')
  {
    hide WellShaped, IsObj, SlabOk, Block;
    forall a | a in h'.live
      ensures LiveOk(h', a)
    {
      assert LiveOk(h, a);
      if SlabOf(a, h.caches[h.live[a]].shape.order) == b {
        LiveInUse(h, b, a);
      }
      LiveFrame(h, h', a);
    }
  }

  lemma GoneLists(h: H, h': H, b: nat, ci: nat)
    requires CachesOk(h) && ci < |h.caches| && h.caches[ci].empty != [] && b == h.caches[ci].empty[0]
    requires h'.slabs == h.slabs - {b} && h'.caches == h.caches[ci := h.caches[ci].(empty := h.caches[ci].empty[1..])]
    ensures CachesOk(h')
  {
    var c := h.caches[ci];
    assert ListsOk(h.slabs, c, ci);
    assert b !in c.empty[1..] && forall x :: x in c.empty <==> x == b || x in c.empty[1..];
    assert b !in c.partial && b !in c.full;
    ListsAfter(h, h', ci, b);
  }
}
