/** kmalloc and kfree over the slab caches and the page allocator (kernel/mm/kheap.c). */
module KernelHeap {
  import opened Arith
  import opened Common
  import opened SlabGeometry
  import opened SlabState
  import opened SlabHeap
  import opened HeapState

  const MAX_REQUEST: nat := 0x100_0000_0000

  class Heap {
    const base: Slabs
    var classes: seq<Option<nat>>
    var bytesLive: nat
    ghost var allocs: map<nat, Alloc>
    ghost var pageOf: map<nat, nat>

    ghost function State(): K
      reads this, base
    {
      K(base.S(), classes, allocs, pageOf)
    }

    ghost predicate Valid()
      reads this, base
    {
      KOk(State()) && bytesLive == Bytes(allocs) && |base.caches| <= MAX_CACHES
    }

    constructor (memory: map<nat, nat>)
      ensures Valid() && allocs == map[] && classes == [] && fresh(base) && base.caches == [] && base.refusals == 0
    {
      base := new Slabs(memory);
      classes, bytesLive, allocs, pageOf := [], 0, map[], map[];
    }

    /** One cache for each size class, while the pool of caches lasts. */
    method Init()
      requires Valid() && classes == []
      modifies this`classes, base`caches
      ensures Valid() && |classes| == |SIZE_CLASSES| && allocs == old(allocs)
      ensures forall i :: 0 <= i < |SIZE_CLASSES| ==> (classes[i].Some? <==> |old(base.caches)| + i < MAX_CACHES)
    {
      hide HeapOk, AllocOk, Holds, ClassShape;
      var made: seq<Option<nat>> := [];
      for i := 0 to |SIZE_CLASSES|
        invariant |made| == i && base.Valid() && |base.caches| <= MAX_CACHES
        invariant |old(base.caches)| <= |base.caches| && base.caches[..|old(base.caches)|] == old(base.caches)
        invariant if |old(base.caches)| + i < MAX_CACHES then |base.caches| == |old(base.caches)| + i
                  else |base.caches| == MAX_CACHES
        invariant forall j :: 0 <= j < i ==> (made[j].Some? <==> |old(base.caches)| + j < MAX_CACHES)
        invariant forall j :: 0 <= j < i && made[j].Some? ==> made[j].value < |base.caches|
        invariant forall j ::
                    0 <= j < i && made[j].Some? ==> ClassShape(base.caches[made[j].value].shape, SIZE_CLASSES[j])
      {
        ghost var before := base.caches;
        var c := base.CacheCreate(SIZE_CLASSES[i] + HEADER, 16);
        if c.Some? {
          ClassFits(base.caches[c.value].shape, i);
        }
        assert forall ci :: 0 <= ci < |before| ==> base.caches[ci] == before[ci];
        made := made + [c];
      }
      ghost var k := State();
      classes := made;
      ClassesSet(K(old(base.S()), [], allocs, pageOf), State());
    }

    /** A fresh payload on its alignment, or nothing; every other payload keeps its words. */
    method KmallocAligned(n: nat, align: nat) returns (p: nat)
      requires Valid() && (align < 16 || Pow2(align))
      modifies this, base
      ensures Valid() && classes == old(classes) && SamePayloads(old(State()), State())
      ensures p == 0 ==> allocs == old(allocs) && base.owned == old(base.owned)
      ensures p != 0 ==> Allocated(old(State()), State(), p, n) && p % (if align < 16 then 16 else align) == 0
      ensures p != 0 ==> p in allocs && Sized(allocs[p], n, align, classes != [])
      ensures p == 0 <==>
                (n == 0 || n > MAX_REQUEST || !Servable(old(classes), n, align) || base.refusals > old(base.refusals))
    {
      hide HeapOk, AllocsOk, PagesOk, SamePayloads, Allocated, Block, KOk, Paged, AllocOk, Classed, Sized;
      hide Bytes, Refused, ClassesOk;
      AllocsAre(State());
      NoChange(State());
      if n == 0 || n > MAX_REQUEST {
        return 0;
      }
      ClassIs(n);
      var a := if align < 16 then 16 else align;
      assert Pow2(16);
      hide Pow2, ClassOf;
      if a <= 16 {
        var cls := ClassFor(n);
        if cls.Some? && classes != [] {
          IsClassed(n, align);
          p := SlabAlloc(n, cls.value);
          return;
        }
      }
      p := PageAlloc(n, a);
      if p != 0 {
        IsPaged(allocs[p], n, align, classes != []);
      }
    }

    /** The least size class the request fits. */
    method ClassFor(n: nat) returns (r: Option<nat>)
      ensures r == ClassOf(n, 0)
    {
      for i := 0 to |SIZE_CLASSES|
        invariant ClassOf(n, 0) == ClassOf(n, i)
      {
        if n <= SIZE_CLASSES[i] {
          return Some(i);
        }
      }
      r := None;
    }

    /** An object of the size class, its header written in front of the payload. */
    method SlabAlloc(n: nat, cls: nat) returns (p: nat)
      requires Valid() && cls < |SIZE_CLASSES| == |classes| && 1 <= n <= SIZE_CLASSES[cls]
      modifies this, base
      ensures Valid() && classes == old(classes) && SamePayloads(old(State()), State())
      ensures p == 0 <==> classes[cls] == None || base.refusals > old(base.refusals)
      ensures p == 0 ==> allocs == old(allocs) && base.owned == old(base.owned)
      ensures p != 0 ==> Allocated(old(State()), State(), p, n) && p % 16 == 0
      ensures p != 0 ==> p in allocs && allocs[p] == Alloc(true, cls, 0, n)
    {
      hide HeapOk, KOk, SamePayloads, Allocated, SameShapes, BlocksKept, Held, ClassShape, Fits, FirstWord, SecondWord;
      hide Bytes;
      ghost var k := State();
      NoChange(k);
      ParseK(k);
      if classes[cls] == None {
        return 0;
      }
      ClassUsable(k, cls);
      var obj := base.CacheAlloc(classes[cls].value);
      if obj == 0 {
        return 0;
      }
      ghost var k1 := State();
      Took(k, k1, obj, classes[cls].value);
      p := HeadObject(k, obj, cls, n);
    }

    /** Write the header of a new object. */
    method HeadObject(ghost k: K, obj: nat, cls: nat, n: nat) returns (p: nat)
      requires KOk(k) && KOk(State()) && k.allocs == allocs && SamePayloads(k, State()) && obj + HEADER !in allocs
      requires obj in base.live
      requires cls < |classes| && cls < |SIZE_CLASSES| && classes[cls] == Some(base.live[obj])
      requires 1 <= n <= SIZE_CLASSES[cls]
      requires bytesLive == Bytes(allocs) && |base.caches| <= MAX_CACHES
      modifies this`allocs, this`bytesLive, base`words
      ensures Valid() && SamePayloads(k, State()) && Allocated(k, State(), p, n) && p % 16 == 0 && p != 0
      ensures p in allocs && allocs[p] == Alloc(true, cls, 0, n)
    {
      hide KOk, SamePayloads, Allocated, FirstWord, SecondWord, Bytes;
      ghost var t := State();
      p := obj + HEADER;
      base.words := base.words[obj := FirstWord(KH_MAGIC, true, cls)];
      base.words := base.words[obj + 8 := SecondWord(0, n)];
      bytesLive := bytesLive + n;
      allocs := allocs[p := Alloc(true, cls, 0, n)];
      ObjectHeaded(k, t, State(), obj, cls, n);
    }

    /** A block with room for the header just below the aligned payload. */
    method PageAlloc(n: nat, align: nat) returns (p: nat)
      requires Valid() && 1 <= n <= MAX_REQUEST && align >= 16 && Pow2(align)
      modifies this, base
      ensures Valid() && classes == old(classes) && SamePayloads(old(State()), State())
      ensures p == 0 <==> n + HEADER + align > Block(MAX_ORDER) || base.refusals > old(base.refusals)
      ensures p == 0 ==> allocs == old(allocs) && base.owned == old(base.owned)
      ensures p != 0 ==> Allocated(old(State()), State(), p, n) && p % align == 0
      ensures p != 0 ==> p in allocs && Paged(allocs[p], n + HEADER + align)
    {
      hide HeapOk, KOk, SamePayloads, Allocated, Available, Block, FirstWord, SecondWord, Bytes, Pow2, AlignUp;
      ghost var k := State();
      NoChange(k);
      ParseK(k);
      var need := n + HEADER + align;
      var order := PageOrder(need);
      BlockGrows(order, MAX_ORDER);
      if Block(order) < need {
        return 0;
      }
      var b := base.TakeBlock(order);
      if b == 0 {
        return 0;
      }
      p := AlignUp(b + HEADER, align);
      AlignedBySixteen(p, align);
      HeadBlock(k, b, order, p, n);
    }

    /** Write the header of a new block's only allocation, `p`. */
    method HeadBlock(ghost k: K, b: nat, order: nat, p: nat, n: nat)
      requires KOk(k) && Available(k.h.owned, b, order) && order <= MAX_ORDER && n >= 1
      requires b + HEADER <= p && p + n <= b + Block(order) && p % 16 == 0
      requires State() == k.(h := k.h.(owned := k.h.owned[b := order])) && bytesLive == Bytes(allocs)
      requires |base.caches| <= MAX_CACHES
      modifies this`allocs, this`pageOf, this`bytesLive, base`words
      ensures Valid() && SamePayloads(k, State()) && Allocated(k, State(), p, n)
      ensures p in allocs && allocs[p] == Alloc(false, order, p - HEADER - b, n)
    {
      hide KOk, SamePayloads, Allocated, Available, Block, FirstWord, SecondWord, Bytes;
      var h := p - HEADER;
      base.words := base.words[h := FirstWord(KH_MAGIC, false, order)];
      base.words := base.words[h + 8 := SecondWord(h - b, n)];
      bytesLive := bytesLive + n;
      allocs := allocs[p := Alloc(false, order, h - b, n)];
      pageOf := pageOf[b := p];
      BlockHeaded(k, State(), b, order, p, n);
    }

    method PageOrder(need: nat) returns (order: nat)
      ensures order <= MAX_ORDER && (Block(order) < need ==> order == MAX_ORDER)
      ensures forall o :: 0 <= o < order ==> Block(o) < need
    {
      order := 0;
      while Block(order) < need && order < MAX_ORDER
        invariant order <= MAX_ORDER && forall o :: 0 <= o < order ==> Block(o) < need
      {
        order := order + 1;
      }
    }

    /** The size asked for, or zero when there is no live header. */
    method KSize(p: nat) returns (r: nat)
      requires Valid() && (p == 0 || p in allocs || Refused(base.words, p))
      ensures r == if p in allocs then allocs[p].size else 0
    {
      AllocsAre(State());
      if p == 0 {
        return 0;
      }
      if p in allocs {
        HeaderOf(State(), p);
      }
      r := if Magic(Word(base.words, p - HEADER)) == KH_MAGIC then Size(Word(base.words, p - 8)) else 0;
    }

    /** Exactly the allocation at `p` goes, with its object or its block; anything but a live header is
        refused; and the pointer is refused when it is freed again, as a double free exactly when it had a block
        of its own: the free list overwrites the mark in an object. */
    method KFree(p: nat)
      requires Valid() && (p == 0 || p in allocs || Refused(base.words, p))
      modifies this, base
      ensures Valid() && classes == old(classes) && SamePayloads(old(State()), State())
      ensures base.refusals == old(base.refusals)
      ensures allocs == old(allocs) - {p} && (p != 0 ==> Refused(base.words, p))
      ensures p in old(allocs) ==> (Marked(base.words, p) <==> !old(allocs)[p].slab)
      ensures p !in old(allocs) ==> State() == old(State())
      ensures p in old(allocs) && old(allocs)[p].slab ==>
                base.owned == old(base.owned) && base.live == old(base.live) - {p - HEADER}
      ensures p in old(allocs) && !old(allocs)[p].slab ==>
                base.live == old(base.live) && base.owned == old(base.owned) - {p - HEADER - old(allocs)[p].offset}
    {
      hide HeapOk, KOk, SamePayloads, Bytes;
      NoChange(State());
      AllocsAre(State());
      if p == 0 {
        return;
      }
      var first := Word(base.words, p - HEADER);
      if p in allocs {
        HeaderOf(State(), p);
      }
      if Magic(first) == KH_MAGIC_FREE || Magic(first) != KH_MAGIC {
        return;
      }
      var second := Word(base.words, p - 8);
      BytesWithout(allocs, p);
      if KindIsSlab(first) {
        FreeSlabObject(p, first);
      } else {
        FreePageBlock(p, first, Offset(second));
      }
      bytesLive := bytesLive - Size(second);
    }

    method FreeSlabObject(p: nat, first: nat)
      requires KOk(State()) && |base.caches| <= MAX_CACHES && p in allocs && p >= HEADER && allocs[p].slab
      requires first == Word(base.words, p - HEADER) && Index(first) == allocs[p].idx
      modifies base, this`allocs
      ensures KOk(State()) && |base.caches| <= MAX_CACHES && SamePayloads(old(State()), State())
      ensures base.refusals == old(base.refusals)
      ensures allocs == old(allocs) - {p} && Refused(base.words, p) && !Marked(base.words, p)
      ensures base.owned == old(base.owned) && base.live == old(base.live) - {p - HEADER}
    {
      hide HeapOk, KOk, SamePayloads, SameShapes, Refused, Marked, FreeObject, Dropped, Index;
      ghost var k := State();
      SlabAllocFacts(k, p);
      base.words := base.words[p - HEADER := Stamped(first)];
      StaleHeader(k, State(), p);
      ghost var t := State();
      base.CacheFree(classes[Index(first)].value, p - HEADER);
      allocs := allocs - {p};
      ObjectDropped(k, t, State(), p);
    }

    method FreePageBlock(p: nat, first: nat, offset: nat)
      requires KOk(State()) && |base.caches| <= MAX_CACHES && p in allocs && p >= HEADER && !allocs[p].slab
      requires first == Word(base.words, p - HEADER) && offset == allocs[p].offset
      modifies base`words, base`owned, this`allocs
      ensures KOk(State()) && SamePayloads(old(State()), State())
      ensures allocs == old(allocs) - {p} && Refused(base.words, p) && Marked(base.words, p)
      ensures offset + HEADER <= p && base.owned == old(base.owned) - {p - HEADER - offset}
    {
      hide HeapOk, KOk, SamePayloads, Refused, Marked;
      ghost var k := State();
      base.words := base.words[p - HEADER := Stamped(first)];
      BlockFacts(k, p);
      base.owned := base.owned - {p - HEADER - offset};
      allocs := allocs - {p};
      BlockDropped(k, State(), p);
    }

    /** The contents survive a move: the first bytes of the new payload are those of the old, up to the old size. */
    method KRealloc(p: nat, n: nat) returns (q: nat)
      requires Valid() && (p == 0 || p in allocs)
      modifies this, base
      ensures Valid() && classes == old(classes)
      ensures p == 0 && q == 0 ==> allocs == old(allocs)
      ensures p == 0 && q != 0 ==> Allocated(old(State()), State(), q, n)
      ensures p != 0 && n == 0 ==> q == 0 && allocs == old(allocs) - {p}
      ensures p != 0 && 1 <= n <= old(allocs)[p].size ==> q == p && State() == old(State())
      ensures p != 0 && n > old(allocs)[p].size && q == 0 ==> allocs == old(allocs)
      ensures p != 0 && n > old(allocs)[p].size && q != 0 ==> Relocated(old(State()), State(), p, q, n)
      ensures OtherPayloads(old(State()), State(), q)
    {
      hide HeapOk, KOk, Allocated, Word, CopiedBytes, SamePayloads, OtherPayloads, Refused, Relocated;
      ghost var k := State();
      AllocsAre(k);
      NoChange(k);
      OthersSame(k, k, 0);
      if p == 0 {
        q := KmallocAligned(n, 16);
        OthersSame(k, State(), q);
        return;
      }
      if n == 0 {
        KFree(p);
        OthersSame(k, State(), 0);
        return 0;
      }
      var size := KSize(p);
      if n <= size {
        OthersSame(k, k, p);
        return p;
      }
      q := KmallocAligned(n, 16);
      ghost var k1 := State();
      OthersSame(k, k1, q);
      if q == 0 {
        return;
      }
      MoveStart(k, k1, p, q, n);
      CopyBytes(q, p, size);
      ghost var k2 := State();
      PayloadWritten(k1, k2, q);
      KFree(p);
      RelocatedBy(k, k1, k2, State(), p, q, n);
    }

    /** Whole words first, then the low bytes of the last word. */
    method CopyBytes(q: nat, p: nat, len: nat)
      requires p + len <= q || q + len <= p
      requires p % 8 == 0 && q % 8 == 0
      modifies base`words
      ensures CopiedBytes(old(base.words), p, base.words, q, len)
      ensures forall x: nat :: !(q <= x < q + len) ==> Word(base.words, x) == Word(old(base.words), x)
    {
      hide Mixed, Pow256, CopiedBytes;
      var whole := CopyWords(q, p, len);
      if len % 8 != 0 {
        var from, to, m := Word(base.words, p + whole), Word(base.words, q + whole), Pow256(len % 8);
        MixedLow(from, to, m);
        ghost var w := base.words;
        base.words := base.words[q + whole := Mixed(from, to, m)];
        assert forall x: nat :: q <= x < q + whole ==> Word(base.words, x) == Word(w, x);
      } else {
        NoBytes(Word(base.words, q + whole), Word(old(base.words), p + whole));
      }
      CopyTail(old(base.words), base.words, p, q, len);
    }

    method CopyWords(q: nat, p: nat, len: nat) returns (whole: nat)
      requires p + len <= q || q + len <= p
      modifies base`words
      ensures whole == len / 8 * 8
      ensures forall x: nat ::
                q <= x < q + whole && (x - q) % 8 == 0 ==> Word(base.words, x) == Word(old(base.words), x - q + p)
      ensures forall x: nat :: !(q <= x < q + whole) ==> Word(base.words, x) == Word(old(base.words), x)
    {
      whole := 0;
      while whole < len / 8 * 8
        invariant 0 <= whole <= len / 8 * 8 && whole % 8 == 0
        invariant forall x: nat ::
                    q <= x < q + whole && (x - q) % 8 == 0 ==> Word(base.words, x) == Word(old(base.words), x - q + p)
        invariant forall x: nat :: !(q <= x < q + whole) ==> Word(base.words, x) == Word(old(base.words), x)
      {
        ghost var w := base.words;
        base.words := base.words[q + whole := Word(base.words, p + whole)];
        CopyStep(old(base.words), w, base.words, p, q, whole);
        whole := whole + 8;
      }
    }
  }

  function Pow256(k: nat): (r: nat)
    ensures r > 0
  {
    if k == 0 then 1 else 256 * Pow256(k - 1)
  }

  lemma CopyStep(before: map<nat, nat>, w: map<nat, nat>, w': map<nat, nat>, p: nat, q: nat, whole: nat)
    requires whole % 8 == 0 && !(q <= p + whole < q + whole) && w' == w[q + whole := Word(w, p + whole)]
    requires forall x: nat :: q <= x < q + whole && (x - q) % 8 == 0 ==> Word(w, x) == Word(before, x - q + p)
    requires forall x: nat :: !(q <= x < q + whole) ==> Word(w, x) == Word(before, x)
    ensures forall x: nat :: q <= x < q + whole + 8 && (x - q) % 8 == 0 ==> Word(w', x) == Word(before, x - q + p)
    ensures forall x: nat :: !(q <= x < q + whole + 8) ==> Word(w', x) == Word(before, x)
  {
    forall x: nat | q <= x < q + whole + 8 && (x - q) % 8 == 0
      ensures Word(w', x) == Word(before, x - q + p)
    {
      if x >= q + whole {
        assert x == q + whole && x - q + p == p + whole;
        assert Word(w', x) == Word(w, p + whole) == Word(before, p + whole);
      } else {
        assert Word(w', x) == Word(w, x);
      }
    }
  }

  lemma CopyTail(before: map<nat, nat>, w: map<nat, nat>, p: nat, q: nat, len: nat)
    requires var e := len / 8 * 8; Word(w, q + e) % Pow256(len % 8) == Word(before, p + e) % Pow256(len % 8)
    requires forall x: nat :: q <= x < q + len / 8 * 8 && (x - q) % 8 == 0 ==> Word(w, x) == Word(before, x - q + p)
    ensures CopiedBytes(before, p, w, q, len)
  {
  }

  /** The low bytes of one word, below `m`, with the high bytes of another. */
  function Mixed(from: nat, to: nat, m: nat): nat
    requires m > 0
  {
    assert to / m * m >= 0;
    from % m + to / m * m
  }

  lemma MixedLow(from: nat, to: nat, m: nat)
    requires m > 0
    ensures Mixed(from, to, m) % m == from % m
  {
    ModUnique(from % m + to / m * m, to / m, from % m, m);
  }

  /** The first `len` bytes at `q` in `after` are those at `p` in `before`. */
  ghost predicate CopiedBytes(before: map<nat, nat>, p: nat, after: map<nat, nat>, q: nat, len: nat) {
    && (forall x: nat :: q <= x < q + len / 8 * 8 && (x - q) % 8 == 0 ==> Word(after, x) == Word(before, x - q + p))
    && Word(after, q + len / 8 * 8) % Pow256(len % 8) == Word(before, p + len / 8 * 8) % Pow256(len % 8)
  }

  /** Byte `j` of a word, the low one first. */
  function Octet(w: nat, j: nat): nat {
    if j == 0 then w % 256 else Octet(w / 256, j - 1)
  }

  /** Each of the first `len` bytes at `q` is the one at its place at `p`. */
  ghost predicate CopiedEach(before: map<nat, nat>, p: nat, after: map<nat, nat>, q: nat, len: nat) {
    forall i: nat :: i < len ==> Octet(Word(after, q + i / 8 * 8), i % 8) == Octet(Word(before, p + i / 8 * 8), i % 8)
  }

  lemma EachCopied(before: map<nat, nat>, p: nat, after: map<nat, nat>, q: nat, len: nat)
    requires CopiedBytes(before, p, after, q, len)
    ensures CopiedEach(before, p, after, q, len)
  {
    hide Octet, Word, CopiedBytes;
    forall i: nat | i < len
      ensures Octet(Word(after, q + i / 8 * 8), i % 8) == Octet(Word(before, p + i / 8 * 8), i % 8)
    {
      OneCopied(before, p, after, q, len, i, i / 8 * 8, i % 8);
    }
  }

  lemma OneCopied(before: map<nat, nat>, p: nat, after: map<nat, nat>, q: nat, len: nat, i: nat, e: nat, j: nat)
    requires CopiedBytes(before, p, after, q, len) && i < len && e == i / 8 * 8 && j == i % 8
    ensures Octet(Word(after, q + e), j) == Octet(Word(before, p + e), j)
  {
    hide Octet, Word, Pow256;
    if i / 8 < len / 8 {
      WholeWord(i, len);
      assert Word(after, q + e) == Word(before, (q + e) - q + p);
    } else {
      LastWord(i, len);
      LowOctets(Word(after, q + e), Word(before, p + e), len % 8, j);
    }
  }

  lemma WholeWord(i: nat, len: nat)
    requires i / 8 < len / 8
    ensures i / 8 * 8 < len / 8 * 8 && i / 8 * 8 % 8 == 0
  {
  }

  lemma LastWord(i: nat, len: nat)
    requires i < len && i / 8 >= len / 8
    ensures i / 8 == len / 8 && i % 8 < len % 8
  {
  }

  /** Words that agree in their low bytes agree in each of them. */
  lemma {:induction false} LowOctets(x: nat, y: nat, r: nat, j: nat)
    requires j < r && x % Pow256(r) == y % Pow256(r)
    ensures Octet(x, j) == Octet(y, j)
  {
    var m := Pow256(r - 1);
    LowAndRest(x, m);
    LowAndRest(y, m);
    SameParts(x / 256 % m, x % 256, y / 256 % m, y % 256, 256);
    if j > 0 {
      LowOctets(x / 256, y / 256, r - 1, j - 1);
    }
  }

  lemma LowAndRest(x: nat, m: nat)
    requires m > 0
    ensures x % (256 * m) == x / 256 % m * 256 + x % 256
  {
    var a, q, r := x / 256, x / 256 / m, x / 256 % m;
    Parts(a, m);
    Products(q, m, r, 256);
    assert x == q * (m * 256) + (r * 256 + x % 256);
    assert r * 256 <= (m - 1) * 256;
    ModUnique(x, q, r * 256 + x % 256, m * 256);
  }

  /** Every payload but that at `q` is untouched. */
  ghost predicate OtherPayloads(k: K, k': K, q: nat) {
    forall r, x: nat :: r in k.allocs && r in k'.allocs && r != q && r <= x < r + k.allocs[r].size ==>
      Word(k'.h.words, x) == Word(k.h.words, x)
  }

  /** The allocation at `p` became one of `n` bytes at `q` with the same contents. */
  ghost predicate Relocated(k: K, k': K, p: nat, q: nat, n: nat) {
    && p in k.allocs && q !in k.allocs && q in k'.allocs && k'.allocs == k.allocs[q := k'.allocs[q]] - {p}
    && k'.allocs[q].size == n
    && CopiedBytes(k.h.words, p, k'.h.words, q, k.allocs[p].size)
    && CopiedEach(k.h.words, p, k'.h.words, q, k.allocs[p].size)
  }

  lemma OthersSame(k: K, k': K, q: nat)
    requires SamePayloads(k, k')
    ensures OtherPayloads(k, k', q)
  {
    hide Word;
  }

  /** Whatever a caller writes inside its own payload, the heap stays sound and other payloads unchanged. */
  lemma PayloadWritten(k: K, k': K, q: nat)
    requires KOk(k) && q in k.allocs && k' == k.(h := k.h.(words := k'.h.words))
    requires forall x: nat :: !(q <= x < q + k.allocs[q].size) ==> Word(k'.h.words, x) == Word(k.h.words, x)
    ensures KOk(k') && OtherPayloads(k, k', q)
  {
    hide HeapOk, KOk, AllocOk, LiveOk, AllocsOk, PagesOk, Word, Lo, Hi, Keeps, OtherPayloads, SamePayloads, Block;
    hide BlocksOk, SlabsOk, LivesOk, CachesOk;
    ParseK(k);
    AllocFacts(k, q);
    PayloadFrame(k, k', q);
    WrittenPages(k, k');
    WrittenAllocs(k, k', q);
    BuildK(k');
  }

  lemma AllocFacts(k: K, q: nat)
    requires AllocsOk(k) && q in k.allocs
    ensures AllocOk(k, q) && Lo(k, q) + HEADER <= q && q + k.allocs[q].size <= Hi(k, q)
  {
    assert AllocOk(k, q);
    Inside(k, q);
  }

  lemma PayloadFrame(k: K, k': K, q: nat)
    requires HeapOk(k.h) && AllocOk(k, q) && Lo(k, q) + HEADER <= q && q + k.allocs[q].size <= Hi(k, q)
    requires k'.h == k.h.(words := k'.h.words)
    requires forall x: nat :: !(q <= x < q + k.allocs[q].size) ==> Word(k'.h.words, x) == Word(k.h.words, x)
    ensures HeapOk(k'.h)
  {
    hide HeapOk, AllocOk, LiveOk, Word, Lo, Hi, Block, BlocksOk, SlabsOk, CachesOk, LivesOk;
    HeapParts(k.h);
    Extent(k, q);
    if k.allocs[q].slab {
      ObjectFrame(k.h, k'.h, q - HEADER, Hi(k, q));
    } else {
      forall s, f | s in k.h.slabs && s in k.h.free && f in k.h.free[s]
        ensures Word(k'.h.words, f) == Word(k.h.words, f)
      {
        FreeOffBlock(k.h, s, f, Lo(k, q));
      }
      HeapFrame(k.h, k'.h);
    }
  }

  lemma WrittenPages(k: K, k': K)
    requires ClassesOk(k) && PagesOk(k) && k' == k.(h := k.h.(words := k'.h.words))
    ensures ClassesOk(k') && PagesOk(k')
  {
    hide ClassShape;
  }

  lemma WrittenAllocs(k: K, k': K, q: nat)
    requires HeapOk(k.h) && AllocsOk(k) && AllocOk(k, q) && q in k.allocs && k' == k.(h := k.h.(words := k'.h.words))
    requires Lo(k, q) + HEADER <= q && q + k.allocs[q].size <= Hi(k, q)
    requires forall x: nat :: !(q <= x < q + k.allocs[q].size) ==> Word(k'.h.words, x) == Word(k.h.words, x)
    ensures AllocsOk(k') && OtherPayloads(k, k', q)
  {
    hide HeapOk, AllocOk, Word, Lo, Hi, Keeps;
    forall r | r in k.allocs && r != q
      ensures AllocOk(k', r)
      ensures forall x: nat :: r <= x < r + k.allocs[r].size ==> Word(k'.h.words, x) == Word(k.h.words, x)
    {
      ExtentsApart(k, q, r);
      WrittenKeeps(k, k', q, r);
      KeptAlloc(k, k', r);
    }
    WrittenSelf(k, k', q);
  }

  lemma WrittenKeeps(k: K, k': K, q: nat, r: nat)
    requires k' == k.(h := k.h.(words := k'.h.words)) && q in k.allocs
    requires Lo(k, q) + HEADER <= q && q + k.allocs[q].size <= Hi(k, q)
    requires (Hi(k, q) <= Lo(k, r) || Hi(k, r) <= Lo(k, q))
    requires forall x: nat :: !(q <= x < q + k.allocs[q].size) ==> Word(k'.h.words, x) == Word(k.h.words, x)
    ensures Keeps(k, k', r)
  {
    hide Word, Lo, Hi;
  }

  lemma WrittenSelf(k: K, k': K, q: nat)
    requires AllocOk(k, q) && k' == k.(h := k.h.(words := k'.h.words))
    requires forall x: nat :: !(q <= x < q + k.allocs[q].size) ==> Word(k'.h.words, x) == Word(k.h.words, x)
    ensures AllocOk(k', q)
  {
    hide Word, FirstWord, SecondWord, Block, ClassShape;
  }

  /** Source and destination are separate and both on eight bytes. */
  lemma MoveStart(k: K, k1: K, p: nat, q: nat, n: nat)
    requires KOk(k) && KOk(k1) && p in k.allocs && Allocated(k, k1, q, n) && n > k.allocs[p].size && q % 16 == 0
    ensures q in k1.allocs && p in k1.allocs && p != q && k1.allocs[p] == k.allocs[p] && k1.allocs[q].size == n
    ensures p + k.allocs[p].size <= q || q + k.allocs[p].size <= p
    ensures p % 8 == 0 && q % 8 == 0
  {
    hide KOk;
    if p < q {
      LiveApart(k1, p, q);
    } else {
      LiveApart(k1, q, p);
    }
    PayloadAligned(k, p);
    Eight(p);
    Eight(q);
  }

  lemma Eight(x: nat)
    requires x % 16 == 0
    ensures x % 8 == 0
  {
  }

  lemma PayloadAligned(k: K, p: nat)
    requires KOk(k) && p in k.allocs
    ensures p % 16 == 0
  {
    assert AllocOk(k, p);
  }

  lemma RelocatedBy(k: K, k1: K, k2: K, k3: K, p: nat, q: nat, n: nat)
    requires p in k.allocs && Allocated(k, k1, q, n) && n > k.allocs[p].size && SamePayloads(k, k1)
    requires k2 == k1.(h := k2.h) && OtherPayloads(k1, k2, q)
    requires CopiedBytes(k1.h.words, p, k2.h.words, q, k.allocs[p].size)
    requires SamePayloads(k2, k3) && k3.allocs == k2.allocs - {p} && p != q
    ensures Relocated(k, k3, p, q, n) && OtherPayloads(k, k3, q)
  {
    hide Word, CopiedBytes, CopiedEach;
    var size := k.allocs[p].size;
    forall x: nat | p <= x < p + size
      ensures Word(k1.h.words, x) == Word(k.h.words, x)
    {
    }
    forall x: nat | q <= x < q + size
      ensures Word(k3.h.words, x) == Word(k2.h.words, x)
    {
    }
    CopiedVia(k.h.words, k1.h.words, k2.h.words, k3.h.words, p, q, size);
    EachCopied(k.h.words, p, k3.h.words, q, size);
  }

  /** The bytes copied are those there before and those there after. */
  lemma CopiedVia(w: map<nat, nat>, w1: map<nat, nat>, w2: map<nat, nat>, w3: map<nat, nat>, p: nat, q: nat, size: nat)
    requires forall x: nat :: p <= x < p + size ==> Word(w1, x) == Word(w, x)
    requires forall x: nat :: q <= x < q + size ==> Word(w3, x) == Word(w2, x)
    requires CopiedBytes(w1, p, w2, q, size)
    ensures CopiedBytes(w, p, w3, q, size)
  {
    hide Word, Pow256;
    var e := size / 8 * 8;
    forall x: nat | q <= x < q + e && (x - q) % 8 == 0
      ensures Word(w3, x) == Word(w, x - q + p)
    {
      assert Word(w1, x - q + p) == Word(w, x - q + p);
    }
    if size % 8 == 0 {
      NoBytes(Word(w3, q + e), Word(w, p + e));
    } else {
      assert Word(w1, p + e) == Word(w, p + e) && Word(w3, q + e) == Word(w2, q + e);
    }
  }

  lemma NoBytes(x: nat, y: nat)
    ensures x % Pow256(0) == y % Pow256(0)
  {
  }

  /** The allocation is of the least size class that holds the bytes. */
  predicate Classed(a: Alloc, n: nat) {
    && a.slab && a.idx < 8 && n <= SIZE_CLASSES[a.idx]
    && forall i :: 0 <= i < a.idx ==> SIZE_CLASSES[i] < n
  }

  /** The allocation is of a block of the least order that holds the bytes. */
  ghost predicate Paged(a: Alloc, need: nat) {
    !a.slab && need <= Block(a.idx) && forall o: nat :: o < a.idx ==> Block(o) < need
  }

  /** By class where the caches are set up and nothing stricter than sixteen bytes is asked, else by block. */
  ghost predicate Sized(a: Alloc, n: nat, align: nat, ready: bool) {
    if align <= 16 && n <= 4096 && ready then Classed(a, n)
    else Paged(a, n + HEADER + if align < 16 then 16 else align)
  }

  lemma IsClassed(n: nat, align: nat)
    requires ClassOf(n, 0).Some? && align <= 16
    ensures Sized(Alloc(true, ClassOf(n, 0).value, 0, n), n, align, true)
  {
    ClassIs(n);
    hide ClassOf;
  }

  lemma IsPaged(a: Alloc, n: nat, align: nat, ready: bool)
    requires Paged(a, n + HEADER + if align < 16 then 16 else align)
    ensures !(align <= 16 && n <= 4096 && ready) ==> Sized(a, n, align, ready)
  {
  }

  lemma ClassIs(n: nat)
    ensures ClassOf(n, 0).Some? <==> n <= 4096
  {
    assert n <= 4096 ==> n <= SIZE_CLASSES[7];
    assert forall i :: 0 <= i < 8 ==> SIZE_CLASSES[i] <= 4096;
  }

  /** The first size class from `i` on that holds `n` bytes. */
  function ClassOf(n: nat, i: nat): (r: Option<nat>)
    requires i <= |SIZE_CLASSES|
    ensures r.Some? ==> i <= r.value < |SIZE_CLASSES| && n <= SIZE_CLASSES[r.value]
    ensures r.Some? ==> forall j :: i <= j < r.value ==> n > SIZE_CLASSES[j]
    ensures r == None ==> forall j :: i <= j < |SIZE_CLASSES| ==> n > SIZE_CLASSES[j]
    decreases |SIZE_CLASSES| - i
  {
    if i == |SIZE_CLASSES| then None
    else if n <= SIZE_CLASSES[i] then Some(i)
    else ClassOf(n, i + 1)
  }

  /** Whether the request can be met when memory is there: its class has a cache, or a block is large enough. */
  predicate Servable(classes: seq<Option<nat>>, n: nat, align: nat) {
    if align <= 16 && ClassOf(n, 0).Some? && classes != [] then
      ClassOf(n, 0).value < |classes| && classes[ClassOf(n, 0).value].Some?
    else
      n + HEADER + (if align < 16 then 16 else align) <= Block(MAX_ORDER)
  }

  lemma Took(k: K, k': K, obj: nat, ci: nat)
    requires KOk(k) && k' == K(k'.h, k.classes, k.allocs, k.pageOf) && HeapOk(k'.h) && SameShapes(k.h, k'.h)
    requires BlocksKept(k.h, k'.h)
    requires obj !in k.h.live && k'.h.live == k.h.live[obj := ci] && ci < |k.h.caches|
    ensures KOk(k') && SamePayloads(k, k') && obj + HEADER !in k.allocs && obj in k'.h.live && k'.h.live[obj] == ci
  {
    hide KOk, HeapOk, SameShapes, BlocksKept, SamePayloads;
    ObjectHeld(k, k', obj, ci);
    NotYet(k, k', obj, ci);
  }

  function WithHeader(words: map<nat, nat>, a: nat, first: nat, second: nat): map<nat, nat> {
    words[a := first][a + 8 := second]
  }

  lemma AlignedBySixteen(p: nat, align: nat)
    requires align >= 16 && Pow2(align) && p % align == 0
    ensures p % 16 == 0
  {
    assert Pow2(16);
    Pow2Divides(16, align);
    Through(p, align, 16);
  }

  lemma Sixteen(x: nat)
    requires x % 16 == 0
    ensures (x + HEADER) % 16 == 0
  {
  }

  lemma ObjectHeaded(k: K, t: K, k': K, obj: nat, cls: nat, n: nat)
    requires KOk(k) && KOk(t) && k.allocs == t.allocs && SamePayloads(k, t) && obj + HEADER !in t.allocs
    requires obj in t.h.live
    requires cls < |t.classes| && cls < |SIZE_CLASSES| && t.classes[cls] == Some(t.h.live[obj])
    requires 1 <= n <= SIZE_CLASSES[cls]
    requires k'.h == t.h.(words := WithHeader(t.h.words, obj, FirstWord(KH_MAGIC, true, cls), SecondWord(0, n)))
    requires k' == K(k'.h, t.classes, t.allocs[obj + HEADER := Alloc(true, cls, 0, n)], t.pageOf)
    ensures KOk(k') && SamePayloads(k, k') && Allocated(k, k', obj + HEADER, n)
    ensures Bytes(k'.allocs) == Bytes(k.allocs) + n
    ensures (obj + HEADER) % 16 == 0
  {
    hide HeapOk, KOk, ClassesOk, PagesOk, AllocsOk, AllocOk, SlabsOk, LivesOk, BlocksOk, LiveOk, CachesOk, SamePayloads,
         Headed, Unreserved, Bytes, ClassShape, WellShaped, Fits, FirstWord, SecondWord, WithHeader,
         Word, IsObj, SlabOf, Block, InBlock, SlabOk;
    var p, a := obj + HEADER, Alloc(true, cls, 0, n);
    ParseK(t);
    BytesWith(t.allocs, p, a);
    ClassUsable(t, cls);
    ObjectUnreserved(t, obj);
    LiveFacts(t.h, obj);
    Sixteen(obj);
    var hi := obj + SIZE_CLASSES[cls] + HEADER;
    ObjectHeader(t, k', obj, cls, n);
    ObjectFrame(t.h, k'.h, obj, hi);
    HeadedAllocs(t, k', p, a, obj, hi);
    HeadedPages(t, k', p, a, obj, hi);
    BuildK(k');
    SamePayloadsVia(k, t, k');
  }

  lemma ObjectHeader(t: K, k': K, obj: nat, cls: nat, n: nat)
    requires obj in t.h.live && cls < |t.classes| && cls < |SIZE_CLASSES| && t.classes[cls] == Some(t.h.live[obj])
    requires 1 <= n <= SIZE_CLASSES[cls]
    requires t.h.live[obj] < |t.h.caches| && ClassShape(t.h.caches[t.h.live[obj]].shape, SIZE_CLASSES[cls])
    requires k'.h == t.h.(words := WithHeader(t.h.words, obj, FirstWord(KH_MAGIC, true, cls), SecondWord(0, n)))
    requires k' == K(k'.h, t.classes, t.allocs[obj + HEADER := Alloc(true, cls, 0, n)], t.pageOf) && obj % 16 == 0
    ensures AllocOk(k', obj + HEADER)
    ensures Headed(t, k', obj + HEADER, Alloc(true, cls, 0, n), obj, obj + SIZE_CLASSES[cls] + HEADER)
    ensures forall x: nat ::
              !(obj <= x < obj + SIZE_CLASSES[cls] + HEADER) ==> Word(k'.h.words, x) == Word(t.h.words, x)
  {
    hide ClassShape, FirstWord, SecondWord, Block;
    assert SIZE_CLASSES[cls] >= 32;
  }

  lemma ObjectFrame(h: H, h': H, obj: nat, hi: nat)
    requires HeapOk(h) && LiveOk(h, obj) && hi == obj + h.caches[h.live[obj]].shape.objsize
    requires h' == h.(words := h'.words) && forall x: nat :: !(obj <= x < hi) ==> Word(h'.words, x) == Word(h.words, x)
    ensures HeapOk(h')
  {
    hide HeapOk, SlabsOk, LiveOk, Word, BlocksOk, CachesOk, LivesOk;
    HeapParts(h);
    forall b, f | b in h.slabs && b in h.free && f in h.free[b]
      ensures Word(h'.words, f) == Word(h.words, f)
    {
      FreeOutside(h, b, f, obj);
    }
    HeapFrame(h, h');
  }

  lemma ClassFits(g: Shape, i: nat)
    requires i < |SIZE_CLASSES| && WellShaped(g) && g.align == 16 && g.objsize == AlignUp(SIZE_CLASSES[i] + HEADER, 16)
    requires Fits(g) <==> Hdr(16) + g.objsize <= 65536
    ensures ClassShape(g, SIZE_CLASSES[i])
  {
  }

  lemma ClassesSet(k: K, k': K)
    requires KOk(k) && k.classes == [] && k'.h == k.h.(caches := k'.h.caches)
    requires k' == K(k'.h, k'.classes, k.allocs, k.pageOf)
    requires HeapOk(k'.h) && ClassesOk(k')
    ensures KOk(k')
  {
    hide HeapOk, AllocOk, Holds, ClassesOk;
    forall p | p in k'.allocs
      ensures AllocOk(k', p)
    {
      ClassesSetAlloc(k, k', p);
    }
    forall b | b in k'.h.owned && b !in k'.h.slabs
      ensures b in k'.pageOf && Holds(k', b, k'.pageOf[b])
    {
      KeptPages(k, k', b);
    }
  }

  lemma ClassesSetAlloc(k: K, k': K, p: nat)
    requires AllocOk(k, p) && k.classes == []
    requires k'.h == k.h.(caches := k'.h.caches) && k' == K(k'.h, k'.classes, k.allocs, k.pageOf)
    ensures AllocOk(k', p)
  {
    hide Word, FirstWord, SecondWord, Block;
  }

  lemma BlockHeaded(k: K, k': K, b: nat, order: nat, p: nat, n: nat)
    requires KOk(k) && Available(k.h.owned, b, order) && order <= MAX_ORDER && n >= 1
    requires b + HEADER <= p && p + n <= b + Block(order) && p % 16 == 0
    requires k'.h == k.h.(words := WithHeader(k.h.words, p - HEADER, FirstWord(KH_MAGIC, false, order),
                                              SecondWord(p - HEADER - b, n)),
                          owned := k.h.owned[b := order])
    requires k' == K(k'.h, k.classes, k.allocs[p := Alloc(false, order, p - HEADER - b, n)], k.pageOf[b := p])
    ensures KOk(k') && SamePayloads(k, k') && Allocated(k, k', p, n) && Bytes(k'.allocs) == Bytes(k.allocs) + n
  {
    hide HeapOk, KOk, ClassesOk, PagesOk, AllocsOk, AllocOk, SlabsOk, LivesOk, BlocksOk, CachesOk, SamePayloads,
         Headed, Unreserved, Bytes, FirstWord, SecondWord, Block, Word, Available;
    var a, hi := Alloc(false, order, p - HEADER - b, n), b + Block(order);
    ParseK(k);
    NotASlab(k.h, b, order);
    BlockUnreserved(k, b, order);
    BlockHeader(k, k', b, order, p, n);
    NewBlockFrame(k.h, k'.h, b, order);
    UnreservedNew(k, b, hi, p);
    BytesWith(k.allocs, p, a);
    HeadedAllocs(k, k', p, a, b, hi);
    HeadedPages(k, k', p, a, b, hi);
    BuildK(k');
  }

  lemma BlockUnreserved(k: K, b: nat, order: nat)
    requires SlabsOk(k.h) && LivesOk(k.h) && AllocsOk(k) && Available(k.h.owned, b, order)
    ensures Unreserved(k, b, b + Block(order))
  {
    hide SlabsOk, LivesOk, AllocOk, Block, Lo, Hi;
    forall q | q in k.allocs
      ensures b + Block(order) <= Lo(k, q) || Hi(k, q) <= b
    {
      var b' := ExtentOwned(k, q);
      assert Apart(b', k.h.owned[b'], b, order);
    }
  }

  lemma BlockHeader(k: K, k': K, b: nat, order: nat, p: nat, n: nat)
    requires b !in k.h.owned && b !in k.h.slabs && order <= MAX_ORDER && n >= 1
    requires b + HEADER <= p && p + n <= b + Block(order) && p % 16 == 0
    requires k'.h == k.h.(words := WithHeader(k.h.words, p - HEADER, FirstWord(KH_MAGIC, false, order),
                                              SecondWord(p - HEADER - b, n)),
                          owned := k.h.owned[b := order])
    requires k' == K(k'.h, k.classes, k.allocs[p := Alloc(false, order, p - HEADER - b, n)], k.pageOf[b := p])
    ensures AllocOk(k', p) && Headed(k, k', p, Alloc(false, order, p - HEADER - b, n), b, b + Block(order))
    ensures Holds(k', b, k'.pageOf[b])
    ensures forall x: nat :: !(b <= x < b + Block(order)) ==> Word(k'.h.words, x) == Word(k.h.words, x)
  {
    hide FirstWord, SecondWord, Block;
    LargestBlock(order);
  }

  lemma LargestBlock(order: nat)
    requires order <= MAX_ORDER
    ensures Block(order) <= 0x4000_0000
  {
    BlockGrows(order, MAX_ORDER);
    assert Block(18) == 0x4000_0000 by {
      assert Block(6) == 0x4_0000;
      assert Block(12) == 0x100_0000;
    }
  }

  lemma NewBlockFrame(h: H, h': H, b: nat, order: nat)
    requires HeapOk(h) && Available(h.owned, b, order) && h' == h.(words := h'.words, owned := h.owned[b := order])
    requires forall x: nat :: !(b <= x < b + Block(order)) ==> Word(h'.words, x) == Word(h.words, x)
    ensures HeapOk(h')
  {
    hide HeapOk, SlabsOk, Word, CachesOk, LivesOk, Block;
    HeapParts(h);
    forall s, f | s in h.slabs && s in h.free && f in h.free[s]
      ensures Word(h'.words, f) == Word(h.words, f)
    {
      FreeInSlab(h, s, f);
      assert Apart(s, h.owned[s], b, order);
    }
    SlabsOwned(h);
    HeapFrame(h, h');
  }

  lemma FreeInSlab(h: H, b: nat, f: nat)
    requires SlabsOk(h) && b in h.slabs && b in h.free && f in h.free[b]
    ensures b in h.owned && b <= f < b + Block(h.owned[b])
  {
    assert SlabOk(h, b);
  }

  lemma SlabAllocFacts(k: K, p: nat)
    requires KOk(k) && p in k.allocs && k.allocs[p].slab
    ensures p >= HEADER && k.allocs[p].idx < |k.classes| && k.classes[k.allocs[p].idx].Some? && HeapOk(k.h)
    ensures p - HEADER in k.h.live && k.h.live[p - HEADER] == k.classes[k.allocs[p].idx].value
  {
    assert AllocOk(k, p);
  }

  /** Marking the header free disturbs no slab. */
  lemma StaleHeader(k: K, t: K, p: nat)
    requires KOk(k) && p in k.allocs && k.allocs[p].slab && p >= HEADER && p - HEADER in t.h.words
    requires t == k.(h := k.h.(words := k.h.words[p - HEADER := t.h.words[p - HEADER]]))
    ensures HeapOk(t.h)
  {
    hide KOk, HeapOk, AllocOk, LiveOk;
    ParseK(k);
    Extent(k, p);
    LivePositive(k.h, p - HEADER);
    ObjectFrame(k.h, t.h, p - HEADER, Hi(k, p));
  }

  lemma ObjectDropped(k: K, t: K, k': K, p: nat)
    requires KOk(k) && p in k.allocs && k.allocs[p].slab && p >= HEADER && p - HEADER in t.h.words
    requires t == k.(h := k.h.(words := k.h.words[p - HEADER := t.h.words[p - HEADER]]))
    requires HeapOk(k'.h) && SameShapes(t.h, k'.h) && k'.h.live == t.h.live - {p - HEADER} && k'.h.owned == t.h.owned
    requires k'.h.slabs.Keys == t.h.slabs.Keys
    requires forall x: nat :: x != p - HEADER ==> Word(k'.h.words, x) == Word(t.h.words, x)
    requires FreeObject(k'.h, p - HEADER)
    requires k' == K(k'.h, k.classes, k.allocs - {p}, k.pageOf)
    ensures KOk(k') && SamePayloads(k, k') && Refused(k'.h.words, p) && !Marked(k'.h.words, p)
  {
    hide HeapOk, KOk, AllocOk, LiveOk, SameShapes, SlabsOk, BlocksOk, SlabOk, SamePayloads, AllocsOk, PagesOk;
    hide Refused, Marked;
    ParseK(k);
    Extent(k, p);
    LivePositive(k.h, p - HEADER);
    assert Dropped(k, k', p) by {
      SameShapesVia(k.h, t.h, k'.h);
    }
    DroppedOk(k, k', p);
    FreeSlot(k'.h, p);
  }

  lemma SameShapesVia(h: H, t: H, h': H)
    requires t.caches == h.caches && SameShapes(t, h')
    ensures SameShapes(h, h')
  {
  }

  lemma FreeSlot(h: H, p: nat)
    requires HeapOk(h) && p >= HEADER && FreeObject(h, p - HEADER)
    ensures Refused(h.words, p) && !Marked(h.words, p)
  {
    HeapParts(h);
    hide HeapOk, SlabOk, BlocksOk, Refused, Marked, CachesOk, LivesOk;
    var b :| b in h.slabs && b in h.free && p - HEADER in h.free[b];
    FreedRefused(h, b, p);
  }

  lemma BlockFacts(k: K, p: nat)
    requires KOk(k) && p in k.allocs && !k.allocs[p].slab
    ensures p >= HEADER + k.allocs[p].offset
  {
    assert AllocOk(k, p);
  }

  lemma BlockDropped(k: K, k': K, p: nat)
    requires KOk(k) && p in k.allocs && !k.allocs[p].slab && p >= HEADER + k.allocs[p].offset
    requires p - HEADER in k'.h.words && Word(k'.h.words, p - HEADER) == Stamped(Word(k.h.words, p - HEADER))
    requires k'.h == k.h.(words := k.h.words[p - HEADER := k'.h.words[p - HEADER]],
                          owned := k.h.owned - {p - HEADER - k.allocs[p].offset})
    requires k' == K(k'.h, k.classes, k.allocs - {p}, k.pageOf)
    ensures KOk(k') && SamePayloads(k, k') && Refused(k'.h.words, p) && Marked(k'.h.words, p)
  {
    hide HeapOk, KOk, AllocOk, LiveOk, SlabsOk, BlocksOk, SamePayloads, AllocsOk, PagesOk, Block, LivesOk;
    hide Dropped, Stamped, Refused, Marked;
    ParseK(k);
    BlockHas(k, p);
    GoneBlock(k, k', p);
    GoneBlockFrame(k.h, k'.h, Lo(k, p));
    DroppedOk(k, k', p);
    MarkedFree(k.h.words, k'.h.words, p);
  }

  lemma BlockHas(k: K, p: nat)
    requires LivesOk(k.h) && AllocsOk(k) && p in k.allocs && !k.allocs[p].slab
    ensures AllocOk(k, p) && Lo(k, p) in k.h.owned && Lo(k, p) !in k.h.slabs
    ensures Hi(k, p) == Lo(k, p) + Block(k.h.owned[Lo(k, p)])
    ensures Lo(k, p) + HEADER <= p < Hi(k, p)
  {
    hide LivesOk, Block;
    assert AllocOk(k, p);
    Extent(k, p);
    Inside(k, p);
  }

  lemma GoneBlock(k: K, k': K, p: nat)
    requires p in k.allocs && !k.allocs[p].slab && Lo(k, p) + HEADER <= p < Hi(k, p) && p - HEADER in k'.h.words
    requires k'.h == k.h.(words := k.h.words[p - HEADER := k'.h.words[p - HEADER]], owned := k.h.owned - {Lo(k, p)})
    requires k' == K(k'.h, k.classes, k.allocs - {p}, k.pageOf)
    ensures Dropped(k, k', p)
    ensures forall x: nat :: !(Lo(k, p) <= x < Hi(k, p)) ==> Word(k'.h.words, x) == Word(k.h.words, x)
  {
    hide Lo, Hi;
  }

  /** A header word with the live magic replaced by the freed one. */
  function Stamped(w: nat): nat {
    w - Magic(w) + KH_MAGIC_FREE
  }

  lemma MarkedFree(words: map<nat, nat>, words': map<nat, nat>, p: nat)
    requires p >= HEADER
    requires Word(words', p - HEADER) == Stamped(Word(words, p - HEADER))
    ensures Refused(words', p) && Marked(words', p)
  {
    var w := Word(words, p - HEADER);
    assert w == U32 * (w / U32) + w % U32;
  }

  lemma GoneBlockFrame(h: H, h': H, b: nat)
    requires HeapOk(h) && b in h.owned && b !in h.slabs && h' == h.(words := h'.words, owned := h.owned - {b})
    requires forall x: nat :: !(b <= x < b + Block(h.owned[b])) ==> Word(h'.words, x) == Word(h.words, x)
    ensures HeapOk(h')
  {
    hide HeapOk, SlabsOk, Word, CachesOk, LivesOk, Block;
    HeapParts(h);
    forall s, f | s in h.slabs && s in h.free && f in h.free[s]
      ensures Word(h'.words, f) == Word(h.words, f)
    {
      FreeOffBlock(h, s, f, b);
    }
    HeapFrame(h, h');
  }
}
