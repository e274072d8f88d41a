/** The invariant of the kernel heap above the slabs: every allocation, its header and its extent. */
module HeapState {
  import opened Arith
  import opened Common
  import opened SlabGeometry
  import opened SlabState
  import opened SlabHeap

  const KH_MAGIC: nat := 0x4B48ADDE
  const KH_MAGIC_FREE: nat := 0xDEADBEEF
  const HEADER: nat := 16
  const MAX_ORDER: nat := 18
  const SIZE_CLASSES: seq<nat> := [32, 64, 128, 256, 512, 1024, 2048, 4096]

  datatype Alloc = Alloc(slab: bool, idx: nat, offset: nat, size: nat)

  /** The heap with its allocations by payload address, and the payload in each page block. */
  datatype K = K(h: H, classes: seq<Option<nat>>, allocs: map<nat, Alloc>, pageOf: map<nat, nat>)

  /** The header's first word: magic, kind and class or order. */
  function FirstWord(magic: nat, slab: bool, idx: nat): nat {
    magic + (if slab then 0 else U32) + idx * 0x1_0000_0000_0000
  }

  /** The header's second word: distance from the block's base and the size asked for. */
  function SecondWord(offset: nat, size: nat): nat {
    offset + size * U32
  }

  function Magic(w: nat): nat {
    w % U32
  }

  function KindIsSlab(w: nat): bool {
    (w / U32) % U16 == 0
  }

  function Index(w: nat): nat {
    w / U32 / U16 % U16
  }

  function Offset(w: nat): nat {
    w % U32
  }

  function Size(w: nat): nat {
    w / U32 % U32
  }

  lemma HeaderRoundTrip(magic: nat, slab: bool, idx: nat, offset: nat, size: nat)
    requires magic < U32 && idx < U16 && offset < U32 && size < U32
    ensures var w := FirstWord(magic, slab, idx); Magic(w) == magic && KindIsSlab(w) == slab && Index(w) == idx
    ensures var w := SecondWord(offset, size); Offset(w) == offset && Size(w) == size
  {
    var w := FirstWord(magic, slab, idx);
    assert w / U32 == (if slab then 0 else 1) + idx * U16;
  }

  /** The memory at `p` is not a live header. */
  predicate Refused(words: map<nat, nat>, p: nat) {
    p >= HEADER && Magic(Word(words, p - HEADER)) != KH_MAGIC
  }

  /** The memory at `p` is a header marked as freed. */
  predicate Marked(words: map<nat, nat>, p: nat) {
    p >= HEADER && Magic(Word(words, p - HEADER)) == KH_MAGIC_FREE
  }

  ghost predicate ClassesOk(k: K) {
    && (k.classes == [] || |k.classes| == |SIZE_CLASSES|)
    && forall i :: 0 <= i < |k.classes| && k.classes[i].Some? ==>
       && k.classes[i].value < |k.h.caches|
       && ClassShape(k.h.caches[k.classes[i].value].shape, SIZE_CLASSES[i])
  }

  ghost predicate ClassShape(g: Shape, size: nat) {
    WellShaped(g) && Fits(g) && g.align == 16 && g.objsize == size + HEADER
  }

  ghost predicate AllocOk(k: K, p: nat) {
    && p in k.allocs && p >= HEADER && p % 16 == 0
    && var a := k.allocs[p];
       && a.idx < U16 && a.offset < U32 && 1 <= a.size < U32
       && Word(k.h.words, p - 16) == FirstWord(KH_MAGIC, a.slab, a.idx)
       && Word(k.h.words, p - 8) == SecondWord(a.offset, a.size)
       && if a.slab then
         && a.idx < |k.classes| && a.idx < |SIZE_CLASSES| && k.classes[a.idx].Some?
         && p - HEADER in k.h.live && k.h.live[p - HEADER] == k.classes[a.idx].value < |k.h.caches|
         && ClassShape(k.h.caches[k.classes[a.idx].value].shape, SIZE_CLASSES[a.idx]) && a.size <= SIZE_CLASSES[a.idx]
       else
         && a.offset + HEADER <= p
         && var b := p - HEADER - a.offset;
            && b in k.h.owned && b !in k.h.slabs && k.h.owned[b] == a.idx && p + a.size <= b + Block(a.idx)
            && b in k.pageOf && k.pageOf[b] == p
  }

  ghost predicate AllocsOk(k: K) {
    forall p :: p in k.allocs ==> AllocOk(k, p)
  }

  /** No block is lost: each is a slab or holds one allocation. */
  ghost predicate PagesOk(k: K) {
    forall b :: b in k.h.owned && b !in k.h.slabs ==> b in k.pageOf && Holds(k, b, k.pageOf[b])
  }

  ghost predicate Holds(k: K, b: nat, p: nat) {
    p in k.allocs && !k.allocs[p].slab && p == b + HEADER + k.allocs[p].offset
  }

  ghost predicate KOk(k: K) {
    HeapOk(k.h) && ClassesOk(k) && AllocsOk(k) && PagesOk(k)
  }

  /** The bytes reserved for an allocation: its object, or its whole block. */
  ghost function Lo(k: K, p: nat): nat {
    if p in k.allocs && !k.allocs[p].slab && k.allocs[p].offset + HEADER <= p then p - HEADER - k.allocs[p].offset
    else if p >= HEADER then p - HEADER else 0
  }

  ghost function Hi(k: K, p: nat): nat {
    if p !in k.allocs then 0
    else if !k.allocs[p].slab then Lo(k, p) + Block(k.allocs[p].idx)
    else Lo(k, p) + (if k.allocs[p].idx < |SIZE_CLASSES| then SIZE_CLASSES[k.allocs[p].idx] + HEADER else 0)
  }

  /** Header and payload are within the reserved bytes. */
  lemma Inside(k: K, p: nat)
    requires AllocOk(k, p)
    ensures Lo(k, p) + HEADER <= p && p + k.allocs[p].size <= Hi(k, p)
  {
  }

  /** The reserved bytes of two allocations do not overlap. */
  lemma ExtentsApart(k: K, p: nat, q: nat)
    requires HeapOk(k.h) && p in k.allocs && q in k.allocs && AllocOk(k, p) && AllocOk(k, q) && p != q
    ensures Hi(k, p) <= Lo(k, q) || Hi(k, q) <= Lo(k, p)
  {
    hide *;
    if !k.allocs[p].slab && !k.allocs[q].slab {
      BlockBlock(k, p, q);
    } else if !k.allocs[p].slab {
      SlabBlock(k, q, p);
    } else if !k.allocs[q].slab {
      SlabBlock(k, p, q);
    } else if p < q {
      SlabSlab(k, p, q);
    } else {
      SlabSlab(k, q, p);
    }
  }

  lemma SlabSlab(k: K, p: nat, q: nat)
    requires HeapOk(k.h) && p in k.allocs && q in k.allocs && AllocOk(k, p) && AllocOk(k, q) && p < q
    requires k.allocs[p].slab && k.allocs[q].slab
    ensures Hi(k, p) <= Lo(k, q)
  {
    hide *;
    HeapParts(k.h);
    Extent(k, p);
    Extent(k, q);
    ObjsApart(k.h, p - HEADER, q - HEADER);
  }

  lemma SlabBlock(k: K, p: nat, q: nat)
    requires HeapOk(k.h) && p in k.allocs && q in k.allocs && AllocOk(k, p) && AllocOk(k, q) && k.allocs[p].slab
    requires !k.allocs[q].slab
    ensures Hi(k, p) <= Lo(k, q) || Hi(k, q) <= Lo(k, p)
  {
    hide *;
    HeapParts(k.h);
    Extent(k, p);
    Extent(k, q);
    ObjBlockApart(k.h, p - HEADER, Lo(k, q));
  }

  lemma BlockBlock(k: K, p: nat, q: nat)
    requires HeapOk(k.h) && p in k.allocs && q in k.allocs && AllocOk(k, p) && AllocOk(k, q) && p != q
    requires !k.allocs[p].slab && !k.allocs[q].slab
    ensures Hi(k, p) <= Lo(k, q) || Hi(k, q) <= Lo(k, p)
  {
    hide *;
    HeapParts(k.h);
    Extent(k, p);
    Extent(k, q);
    BlocksApart(k.h.owned, Lo(k, p), Lo(k, q));
  }

  lemma Extent(k: K, p: nat)
    requires LivesOk(k.h) && AllocOk(k, p)
    ensures p in k.allocs && p >= HEADER
    ensures k.allocs[p].slab ==>
              && Lo(k, p) == p - HEADER && p - HEADER in k.h.live && LiveOk(k.h, p - HEADER)
              && k.h.live[p - HEADER] < |k.h.caches|
              && Hi(k, p) == p - HEADER + k.h.caches[k.h.live[p - HEADER]].shape.objsize
    ensures !k.allocs[p].slab ==>
              && Lo(k, p) in k.h.owned && Lo(k, p) !in k.h.slabs && Hi(k, p) == Lo(k, p) + Block(k.h.owned[Lo(k, p)])
              && Lo(k, p) in k.pageOf && k.pageOf[Lo(k, p)] == p
  {
    hide LiveOk, Block, FirstWord, SecondWord, Word, WellShaped, Fits;
  }

  lemma BlocksApart(owned: map<nat, nat>, b: nat, b': nat)
    requires BlocksOk(owned) && b in owned && b' in owned && b != b'
    ensures b + Block(owned[b]) <= b' || b' + Block(owned[b']) <= b
  {
    assert Apart(b, owned[b], b', owned[b']);
  }

  /** A live payload never meets another's header or payload. */
  lemma LiveApart(k: K, p: nat, q: nat)
    requires KOk(k) && p in k.allocs && q in k.allocs && p < q
    ensures p + k.allocs[p].size <= q - HEADER
  {
    assert AllocOk(k, p) && AllocOk(k, q);
    hide HeapOk, AllocOk;
    ExtentsApart(k, p, q);
    Inside(k, p);
    Inside(k, q);
  }

  /** An object slot that is not live is refused by free, and not as a double free: its first word is a free-list
      pointer, and no pointer to a sixteen-byte boundary ends in the magic number or in the mark of a freed header. */
  lemma SlotRefused(h: H, b: nat, p: nat)
    requires HeapOk(h) && SlabOk(h, b) && p >= HEADER
    requires IsObj(h.caches[h.slabs[b].cache].shape, b, p - HEADER) && p - HEADER !in h.live
    ensures Refused(h.words, p) && !Marked(h.words, p)
  {
    assert p - HEADER in h.free[b];
    HeapParts(h);
    hide HeapOk, SlabOk, IsObj, WellShaped;
    FreedRefused(h, b, p);
  }

  lemma SixteenNotMagic(w: nat)
    requires w % 16 == 0
    ensures Magic(w) != KH_MAGIC && Magic(w) != KH_MAGIC_FREE
  {
    assert w == U32 * (w / U32) + w % U32;
  }

  lemma FreedRefused(h: H, b: nat, p: nat)
    requires BlocksOk(h.owned) && SlabOk(h, b) && p >= HEADER && b in h.free && p - HEADER in h.free[b]
    ensures Refused(h.words, p) && !Marked(h.words, p)
  {
    hide BlocksOk, SlabOk, Magic;
    FreeWordAligned(h, b, p - HEADER);
    SixteenNotMagic(Word(h.words, p - HEADER));
  }

  /** No free object starts inside a live one or inside a block that is not a slab. */
  lemma FreeOutside(h: H, b: nat, f: nat, a: nat)
    requires BlocksOk(h.owned) && SlabsOk(h) && b in h.slabs && b in h.free && f in h.free[b] && LiveOk(h, a)
    ensures !(a <= f < a + h.caches[h.live[a]].shape.objsize)
  {
    var g := h.caches[h.live[a]].shape;
    var s := SlabOf(a, g.order);
    assert SlabOk(h, b) && SlabOk(h, s);
    hide WellShaped, Hdr, PerSlab, Block, Pow2, Chain;
    if s == b {
      if a < f {
        SlotsApart(g.objsize, b + Hdr(g.align), a, f);
      }
    } else {
      assert Apart(s, g.order, b, h.slabs[b].order);
    }
  }

  lemma FreeOffBlock(h: H, b: nat, f: nat, p: nat)
    requires BlocksOk(h.owned) && SlabsOk(h) && b in h.slabs && b in h.free && f in h.free[b]
    requires p in h.owned && p !in h.slabs
    ensures !(p <= f < p + Block(h.owned[p]))
  {
    assert SlabOk(h, b);
    assert Apart(b, h.owned[b], p, h.owned[p]);
  }

  /** Blocks that are not slabs may come and go, and words off the free lists may change. */
  lemma HeapFrame(h: H, h': H)
    requires HeapOk(h) && h'.slabs == h.slabs && h'.caches == h.caches && h'.free == h.free && h'.live == h.live
    requires BlocksOk(h'.owned) && forall b :: b in h.slabs ==> Get(h'.owned, b) == Get(h.owned, b)
    requires forall b, f :: b in h.slabs && b in h.free && f in h.free[b] ==> Word(h'.words, f) == Word(h.words, f)
    ensures HeapOk(h')
  {
    HeapParts(h);
    assert CachesOk(h');
    hide *;
    SlabsFrame(h, h');
    LivesFrame(h, h');
    BuildHeap(h');
  }

  lemma LivesFrame(h: H, h': H)
    requires LivesOk(h) && h'.slabs == h.slabs && h'.caches == h.caches && h'.live == h.live
    ensures LivesOk(h')
  {
    hide IsObj, WellShaped;
    forall a | a in h'.live
      ensures LiveOk(h', a)
    {
      assert LiveOk(h, a);
    }
  }

  lemma SlabsFrame(h: H, h': H)
    requires SlabsOk(h) && h'.slabs == h.slabs && h'.caches == h.caches && h'.free == h.free && h'.live == h.live
    requires forall b :: b in h.slabs ==> Get(h'.owned, b) == Get(h.owned, b)
    requires forall b, f :: b in h.slabs && b in h.free && f in h.free[b] ==> Word(h'.words, f) == Word(h.words, f)
    ensures SlabsOk(h')
  {
    hide IsObj, WellShaped, Fits, PerSlab, Word, Distinct;
    forall b | b in h'.slabs
      ensures SlabOk(h', b)
    {
      assert SlabOk(h, b) && Get(h'.owned, b) == Get(h.owned, b);
      ChainFrame(h.words, h'.words, h.slabs[b].freelist, h.free[b]);
    }
  }

  /** Payload words are the same in both states. */
  ghost predicate SamePayloads(k: K, k': K) {
    forall q, x: nat :: q in k.allocs && q in k'.allocs && q <= x < q + k.allocs[q].size ==>
      Word(k'.h.words, x) == Word(k.h.words, x)
  }

  ghost function Bytes(allocs: map<nat, Alloc>): nat {
    if allocs == map[] then 0
    else
      var p :| p in allocs;
      allocs[p].size + Bytes(allocs - {p})
  }

  lemma {:induction false} BytesWithout(allocs: map<nat, Alloc>, p: nat)
    requires p in allocs
    ensures Bytes(allocs) == allocs[p].size + Bytes(allocs - {p})
  {
    var q :| q in allocs && Bytes(allocs) == allocs[q].size + Bytes(allocs - {q});
    if q != p {
      BytesWithout(allocs - {q}, p);
      BytesWithout(allocs - {p}, q);
      assert allocs - {q} - {p} == allocs - {p} - {q};
    }
  }

  lemma BytesWith(allocs: map<nat, Alloc>, p: nat, a: Alloc)
    requires p !in allocs
    ensures Bytes(allocs[p := a]) == Bytes(allocs) + a.size
  {
    BytesWithout(allocs[p := a], p);
    assert allocs[p := a] - {p} == allocs;
  }

  /** Everything allocation `q` rests on is the same in both states. */
  ghost predicate Keeps(k: K, k': K, q: nat) {
    && Get(k'.allocs, q) == Get(k.allocs, q) && k'.classes == k.classes && SameShapes(k.h, k'.h)
    && (forall x: nat :: Lo(k, q) <= x < Hi(k, q) ==> Word(k'.h.words, x) == Word(k.h.words, x))
    && (q in k.allocs && k.allocs[q].slab ==> Get(k'.h.live, Lo(k, q)) == Get(k.h.live, Lo(k, q)))
    && (q in k.allocs && !k.allocs[q].slab ==>
          && Get(k'.h.owned, Lo(k, q)) == Get(k.h.owned, Lo(k, q))
          && (Lo(k, q) in k'.h.slabs <==> Lo(k, q) in k.h.slabs)
          && Get(k'.pageOf, Lo(k, q)) == Get(k.pageOf, Lo(k, q)))
  }

  lemma KeptAlloc(k: K, k': K, q: nat)
    requires AllocOk(k, q) && Keeps(k, k', q)
    ensures AllocOk(k', q)
    ensures forall x: nat :: q <= x < q + k.allocs[q].size ==> Word(k'.h.words, x) == Word(k.h.words, x)
  {
    hide Word, FirstWord, SecondWord, Block, ClassShape;
    Inside(k, q);
  }

  /** Allocations kept one by one are kept together. */
  lemma KeptAllocs(k: K, k': K, gone: set<nat>)
    requires AllocsOk(k) && forall q :: q in k.allocs && q !in gone ==> Keeps(k, k', q)
    requires forall q :: q in gone ==> q !in k'.allocs || (AllocOk(k', q) && q !in k.allocs)
    requires forall q :: q in k'.allocs ==> q in k.allocs || q in gone
    ensures AllocsOk(k') && SamePayloads(k, k')
  {
    hide AllocOk, Keeps, Word;
    forall q | q in k.allocs && q !in gone
      ensures AllocOk(k', q)
      ensures forall x: nat :: q <= x < q + k.allocs[q].size ==> Word(k'.h.words, x) == Word(k.h.words, x)
    {
      KeptAlloc(k, k', q);
    }
  }

  /** A block that is not a slab still holds what it held. */
  lemma KeptPages(k: K, k': K, b: nat)
    requires b in k.pageOf && Holds(k, b, k.pageOf[b]) && Get(k'.pageOf, b) == Get(k.pageOf, b)
    requires Get(k'.allocs, k.pageOf[b]) == Get(k.allocs, k.pageOf[b])
    ensures b in k'.pageOf && Holds(k', b, k'.pageOf[b])
  {
  }

  lemma ParseK(k: K)
    requires KOk(k)
    ensures HeapOk(k.h) && ClassesOk(k) && AllocsOk(k) && PagesOk(k)
    ensures BlocksOk(k.h.owned) && SlabsOk(k.h) && LivesOk(k.h) && CachesOk(k.h)
  {
  }

  lemma BuildK(k: K)
    requires HeapOk(k.h) && ClassesOk(k) && AllocsOk(k) && PagesOk(k)
    ensures KOk(k)
  {
  }

  /** The reserved bytes lie inside one outstanding block: the allocation's own, or its slab. */
  lemma ExtentOwned(k: K, q: nat) returns (b: nat)
    requires SlabsOk(k.h) && LivesOk(k.h) && AllocOk(k, q)
    ensures b in k.h.owned && b <= Lo(k, q) && Hi(k, q) <= b + Block(k.h.owned[b])
    ensures if k.allocs[q].slab then b in k.h.slabs else b == Lo(k, q)
  {
    Extent(k, q);
    hide AllocOk, SlabsOk, Block, Lo, Hi;
    if k.allocs[q].slab {
      LiveInside(k.h, q - HEADER);
      b := SlabOf(q - HEADER, k.h.caches[k.h.live[q - HEADER]].shape.order);
    } else {
      b := Lo(k, q);
    }
  }

  ghost predicate Allocated(k: K, k': K, p: nat, n: nat) {
    p != 0 && p !in k.allocs && p in k'.allocs && k'.allocs == k.allocs[p := k'.allocs[p]] && k'.allocs[p].size == n
  }

  /** No allocation reserves any byte from `lo` up to `hi`. */
  ghost predicate Unreserved(k: K, lo: nat, hi: nat) {
    forall q :: q in k.allocs ==> hi <= Lo(k, q) || Hi(k, q) <= lo
  }

  lemma UnreservedNew(k: K, lo: nat, hi: nat, p: nat)
    requires AllocsOk(k) && Unreserved(k, lo, hi) && lo + HEADER <= p < hi
    ensures p !in k.allocs
  {
    if p in k.allocs {
      assert AllocOk(k, p);
      Inside(k, p);
    }
  }

  /** An object was taken from a class cache; nothing of it is reserved yet. */
  ghost predicate Held(k: K, k': K, obj: nat, ci: nat) {
    && k' == K(k'.h, k.classes, k.allocs, k.pageOf) && HeapOk(k'.h) && SameShapes(k.h, k'.h) && BlocksKept(k.h, k'.h)
    && obj !in k.h.live && k'.h.live == k.h.live[obj := ci] && ci < |k.h.caches|
  }

  lemma HeldKeeps(k: K, k': K, obj: nat, ci: nat, q: nat)
    requires SlabsOk(k.h) && LivesOk(k.h) && AllocOk(k, q) && Held(k, k', obj, ci)
    ensures Keeps(k, k', q)
  {
    hide AllocOk, LiveOk, HeapOk, SlabsOk, LivesOk, Block, Word, SameShapes, Lo, Hi, BlocksKept;
    var b := ExtentOwned(k, q);
    Extent(k, q);
    BlockKept(k.h, k'.h, b, Lo(k, q), Hi(k, q));
    if !k.allocs[q].slab {
      assert Get(k'.h.owned, b) == Get(k.h.owned, b);
    }
  }

  lemma BlockKept(h: H, h': H, b: nat, lo: nat, hi: nat)
    requires BlocksKept(h, h') && b in h.owned && b <= lo && hi <= b + Block(h.owned[b])
    ensures forall x: nat :: lo <= x < hi ==> Word(h'.words, x) == Word(h.words, x)
    ensures Get(h'.owned, b) == Get(h.owned, b) && (b in h'.slabs <==> b in h.slabs)
  {
    hide Block, Word;
    forall x: nat | lo <= x < hi
      ensures Word(h'.words, x) == Word(h.words, x)
    {
      assert InBlock(b, h.owned[b], x);
    }
  }

  lemma ObjectHeld(k: K, k': K, obj: nat, ci: nat)
    requires KOk(k) && Held(k, k', obj, ci)
    ensures KOk(k') && SamePayloads(k, k')
  {
    ParseK(k);
    hide *;
    HeldAllocs(k, k', obj, ci);
    HeldPages(k, k', obj, ci);
    BuildK(k');
  }

  lemma HeldAllocs(k: K, k': K, obj: nat, ci: nat)
    requires SlabsOk(k.h) && LivesOk(k.h) && AllocsOk(k) && Held(k, k', obj, ci)
    ensures AllocsOk(k') && SamePayloads(k, k')
  {
    hide SlabsOk, LivesOk, AllocOk, HeapOk, Keeps, SamePayloads, BlocksKept;
    forall q | q in k.allocs
      ensures Keeps(k, k', q)
    {
      HeldKeeps(k, k', obj, ci, q);
    }
    KeptAllocs(k, k', {});
  }

  lemma HeldPages(k: K, k': K, obj: nat, ci: nat)
    requires ClassesOk(k) && PagesOk(k) && Held(k, k', obj, ci)
    ensures HeapOk(k'.h) && ClassesOk(k') && PagesOk(k')
  {
    hide HeapOk, ClassShape, Word;
  }

  /** No allocation reserves a byte of a live object that is not one of theirs. */
  lemma ObjectUnreserved(k: K, obj: nat)
    requires KOk(k) && obj in k.h.live && obj + HEADER !in k.allocs
    ensures LiveOk(k.h, obj) && k.h.live[obj] < |k.h.caches|
    ensures Unreserved(k, obj, obj + k.h.caches[k.h.live[obj]].shape.objsize)
  {
    hide KOk, HeapOk, CachesOk, SlabsOk, PagesOk, ClassesOk, BlocksOk, Lo, Hi, AllocOk, LiveOk, Block;
    ParseK(k);
    LiveBound(k.h, obj);
    forall q | q in k.allocs
      ensures obj + k.h.caches[k.h.live[obj]].shape.objsize <= Lo(k, q) || Hi(k, q) <= obj
    {
      ObjectApart(k, obj, q);
    }
  }

  lemma LiveBound(h: H, a: nat)
    requires LivesOk(h) && a in h.live
    ensures LiveOk(h, a) && h.live[a] < |h.caches|
  {
    assert LiveOk(h, a);
  }

  lemma ObjectApart(k: K, obj: nat, q: nat)
    requires BlocksOk(k.h.owned) && SlabsOk(k.h) && LivesOk(k.h) && q in k.allocs && AllocOk(k, q)
    requires obj in k.h.live && LiveOk(k.h, obj) && k.h.live[obj] < |k.h.caches| && obj + HEADER != q
    ensures obj + k.h.caches[k.h.live[obj]].shape.objsize <= Lo(k, q) || Hi(k, q) <= obj
  {
    hide *;
    Extent(k, q);
    if !k.allocs[q].slab {
      ObjBlockApart(k.h, obj, Lo(k, q));
    } else if obj < q - HEADER {
      ObjsApart(k.h, obj, q - HEADER);
    } else {
      assert obj != q - HEADER;
      ObjsApart(k.h, q - HEADER, obj);
    }
  }

  /** A header was written at `p` inside unreserved bytes. */
  ghost predicate Headed(k: K, k': K, p: nat, a: Alloc, lo: nat, hi: nat) {
    && lo + HEADER <= p && p < hi && k'.classes == k.classes && k'.allocs == k.allocs[p := a] && SameShapes(k.h, k'.h)
    && (forall x: nat :: !(lo <= x < hi) ==> Word(k'.h.words, x) == Word(k.h.words, x))
    && k'.h.live == k.h.live && k'.h.slabs == k.h.slabs
    && (forall b :: b in k.h.owned ==> Get(k'.h.owned, b) == Get(k.h.owned, b))
    && (forall b :: b in k.h.owned ==> Get(k'.pageOf, b) == Get(k.pageOf, b))
  }

  lemma HeadedKeeps(k: K, k': K, p: nat, a: Alloc, lo: nat, hi: nat, q: nat)
    requires LivesOk(k.h) && AllocOk(k, q) && Headed(k, k', p, a, lo, hi) && q != p
    requires (hi <= Lo(k, q) || Hi(k, q) <= lo)
    ensures Keeps(k, k', q)
  {
    Extent(k, q);
    hide AllocOk, LiveOk, LivesOk, Block, Word, SameShapes, Lo, Hi;
  }

  lemma HeadedAllocs(k: K, k': K, p: nat, a: Alloc, lo: nat, hi: nat)
    requires LivesOk(k.h) && AllocsOk(k) && Unreserved(k, lo, hi) && Headed(k, k', p, a, lo, hi) && AllocOk(k', p)
    ensures AllocsOk(k') && SamePayloads(k, k') && p !in k.allocs
  {
    UnreservedNew(k, lo, hi, p);
    hide LivesOk, AllocOk, Keeps, SamePayloads, Word, Lo, Hi;
    forall q | q in k.allocs
      ensures Keeps(k, k', q)
    {
      HeadedKeeps(k, k', p, a, lo, hi, q);
    }
    KeptAllocs(k, k', {p});
  }

  lemma HeadedPages(k: K, k': K, p: nat, a: Alloc, lo: nat, hi: nat)
    requires PagesOk(k) && ClassesOk(k) && Headed(k, k', p, a, lo, hi) && p !in k.allocs
    requires forall b :: b in k'.h.owned && b !in k.h.owned ==> b in k'.pageOf && Holds(k', b, k'.pageOf[b])
    ensures PagesOk(k') && ClassesOk(k')
  {
    hide Word, ClassShape;
    forall b | b in k'.h.owned && b !in k'.h.slabs
      ensures b in k'.pageOf && Holds(k', b, k'.pageOf[b])
    {
      if b in k.h.owned {
        assert Get(k'.pageOf, b) == Get(k.pageOf, b);
      }
    }
  }

  /** The allocation at `p` went; nothing changed outside the bytes it reserved. */
  ghost predicate Dropped(k: K, k': K, p: nat) {
    && p in k.allocs && k'.allocs == k.allocs - {p} && k'.classes == k.classes && k'.pageOf == k.pageOf
    && SameShapes(k.h, k'.h)
    && (forall x: nat :: !(Lo(k, p) <= x < Hi(k, p)) ==> Word(k'.h.words, x) == Word(k.h.words, x))
    && (forall a: nat :: a != Lo(k, p) ==>
          Get(k'.h.live, a) == Get(k.h.live, a) && Get(k'.h.owned, a) == Get(k.h.owned, a))
    && k'.h.slabs.Keys == k.h.slabs.Keys && (k.allocs[p].slab ==> k'.h.owned == k.h.owned)
    && k'.h.owned.Keys <= k.h.owned.Keys
    && (!k.allocs[p].slab ==> Lo(k, p) !in k'.h.owned)
  }

  lemma DroppedKeeps(k: K, k': K, p: nat, q: nat)
    requires AllocOk(k, p) && AllocOk(k, q) && Dropped(k, k', p) && q != p
    requires (Hi(k, p) <= Lo(k, q) || Hi(k, q) <= Lo(k, p))
    ensures Keeps(k, k', q)
  {
    hide AllocOk, Word, SameShapes, Lo, Hi;
    Inside(k, p);
    Inside(k, q);
  }

  lemma DroppedAllocs(k: K, k': K, p: nat)
    requires HeapOk(k.h) && AllocsOk(k) && Dropped(k, k', p)
    ensures AllocsOk(k') && SamePayloads(k, k')
  {
    hide HeapOk, AllocOk, Keeps, SamePayloads, Word, Lo, Hi, SameShapes;
    forall q | q in k.allocs && q !in {p}
      ensures Keeps(k, k', q)
    {
      ExtentsApart(k, p, q);
      DroppedKeeps(k, k', p, q);
    }
    KeptAllocs(k, k', {p});
  }

  lemma DroppedPages(k: K, k': K, p: nat)
    requires PagesOk(k) && ClassesOk(k) && Dropped(k, k', p) && AllocOk(k, p)
    ensures PagesOk(k') && ClassesOk(k')
  {
    hide Word, ClassShape, Block;
    Inside(k, p);
    forall b | b in k'.h.owned && b !in k'.h.slabs
      ensures b in k'.pageOf && Holds(k', b, k'.pageOf[b])
    {
      assert Holds(k, b, k.pageOf[b]);
    }
  }

  lemma DroppedOk(k: K, k': K, p: nat)
    requires KOk(k) && p in k.allocs && Dropped(k, k', p) && HeapOk(k'.h)
    ensures KOk(k') && SamePayloads(k, k')
  {
    hide HeapOk, PagesOk, ClassesOk, Dropped, SamePayloads, AllocOk;
    ParseK(k);
    DroppedAllocs(k, k', p);
    DroppedPages(k, k', p);
    BuildK(k');
  }

  lemma SamePayloadsVia(k: K, t: K, k': K)
    requires SamePayloads(k, t) && SamePayloads(t, k') && t.allocs == k.allocs
    ensures SamePayloads(k, k')
  {
    hide Word;
  }

  /** What a free of `p` reads back from its header. */
  lemma HeaderOf(k: K, p: nat)
    requires KOk(k) && p in k.allocs
    ensures p >= HEADER && Magic(Word(k.h.words, p - HEADER)) == KH_MAGIC
    ensures KindIsSlab(Word(k.h.words, p - HEADER)) == k.allocs[p].slab
    ensures Index(Word(k.h.words, p - HEADER)) == k.allocs[p].idx
    ensures Offset(Word(k.h.words, p - 8)) == k.allocs[p].offset && Size(Word(k.h.words, p - 8)) == k.allocs[p].size
  {
    var a := k.allocs[p];
    assert AllocOk(k, p);
    HeaderRoundTrip(KH_MAGIC, a.slab, a.idx, a.offset, a.size);
  }

  /** An object just taken has no allocation yet. */
  lemma NotYet(k: K, k': K, obj: nat, ci: nat)
    requires KOk(k) && KOk(k') && Held(k, k', obj, ci)
    ensures obj + HEADER !in k.allocs
  {
    hide HeapOk, AllocOk, LiveOk, Block, SameShapes, BlocksKept, Lo, Hi;
    ParseK(k);
    ParseK(k');
    if obj + HEADER in k.allocs {
      var q := obj + HEADER;
      Extent(k', q);
      if k.allocs[q].slab {
        Extent(k, q);
      } else {
        LiveBound(k'.h, obj);
        ObjBlockApart(k'.h, obj, Lo(k', q));
        Inside(k', q);
        LivePositive(k'.h, obj);
      }
    }
  }

  lemma LivePositive(h: H, a: nat)
    requires LiveOk(h, a)
    ensures h.caches[h.live[a]].shape.objsize > 0
  {
  }

  lemma ClassUsable(k: K, cls: nat)
    requires KOk(k) && cls < |k.classes| && cls < |SIZE_CLASSES| && k.classes[cls].Some?
    ensures k.classes[cls].value < |k.h.caches| && Fits(k.h.caches[k.classes[cls].value].shape)
    ensures ClassShape(k.h.caches[k.classes[cls].value].shape, SIZE_CLASSES[cls])
    ensures k.h.caches[k.classes[cls].value].shape.align == 16
    ensures k.h.caches[k.classes[cls].value].shape.objsize == SIZE_CLASSES[cls] + HEADER
  {
  }

  lemma NoChange(k: K)
    ensures SamePayloads(k, k)
  {
  }

  lemma AllocsAre(k: K)
    requires KOk(k)
    ensures 0 !in k.allocs && (k.classes == [] || |k.classes| == |SIZE_CLASSES|)
    ensures forall p :: p in k.allocs ==> p >= HEADER
    ensures forall p :: p !in k.allocs ==> k.allocs - {p} == k.allocs
  {
    hide HeapOk, PagesOk, AllocOk, ClassShape;
    forall p | p in k.allocs
      ensures p >= HEADER
    {
      AllocHigh(k, p);
    }
  }

  lemma AllocHigh(k: K, p: nat)
    requires AllocsOk(k) && p in k.allocs
    ensures p >= HEADER && p > 0
  {
    assert AllocOk(k, p);
  }
}
