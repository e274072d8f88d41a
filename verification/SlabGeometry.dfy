/** Sizes and addresses of the slab heap: order-aligned blocks, object slots, the free list in memory. */
module SlabGeometry {
  import opened Arith
  import opened Common

  const SLAB_HEADER: nat := 48
  const MAX_SLAB_ORDER: nat := 4

  /** The part of a cache fixed at its creation. */
  datatype Shape = Shape(objsize: nat, align: nat, order: nat)

  /** Bytes in a block of 2^order pages. */
  function Block(order: nat): (r: nat)
    ensures r >= 4096
  {
    if order == 0 then 4096 else 2 * Block(order - 1)
  }

  lemma {:induction false} BlockPow2(order: nat)
    ensures Pow2(Block(order))
  {
    if order > 0 {
      BlockPow2(order - 1);
    } else {
      assert Pow2(2048) by {
        assert Pow2(256) by {
          assert Pow2(16);
          assert Pow2(64);
        }
        assert Pow2(1024);
      }
    }
  }

  lemma {:induction false} BlockGrows(o: nat, o': nat)
    requires o <= o'
    ensures Block(o) <= Block(o')
  {
    if o < o' {
      BlockGrows(o, o' - 1);
    }
  }

  function AlignUp(x: nat, a: nat): (r: nat)
    requires a > 0
    ensures r % a == 0 && x <= r < x + a
  {
    MultipleOf((x + a - 1) / a, a);
    (x + a - 1) / a * a
  }

  function Hdr(align: nat): nat
    requires align > 0
  {
    AlignUp(SLAB_HEADER, align)
  }

  /** Objects lie on the cache's alignment. */
  ghost predicate WellShaped(g: Shape) {
    && g.align >= 16 && Pow2(g.align)
    && g.objsize > 0 && g.objsize % g.align == 0 && g.order <= MAX_SLAB_ORDER
  }

  /** At least one object fits in a slab. */
  predicate Fits(g: Shape)
    requires g.align > 0
  {
    Hdr(g.align) + g.objsize <= Block(g.order)
  }

  function PerSlab(g: Shape): nat
    requires g.align > 0 && g.objsize > 0
  {
    if Block(g.order) < Hdr(g.align) then 0 else (Block(g.order) - Hdr(g.align)) / g.objsize
  }

  /** Address `a` is one of the object slots of the slab of cache `c` at block `b`. */
  ghost predicate IsObj(g: Shape, b: nat, a: nat)
    requires WellShaped(g)
  {
    && b + Hdr(g.align) <= a && a + g.objsize <= b + Block(g.order)
    && (a - b - Hdr(g.align)) % g.objsize == 0
  }

  /** The block an object lies in, found by masking its address. */
  function SlabOf(a: nat, order: nat): nat {
    ModLess(a, Block(order));
    a - a % Block(order)
  }

  lemma SlabOfObj(g: Shape, b: nat, a: nat)
    requires WellShaped(g) && IsObj(g, b, a) && b % Block(g.order) == 0
    ensures SlabOf(a, g.order) == b
  {
    var m := Block(g.order);
    RemainderOf(b, a - b, m);
  }

  /** Two object slots of a slab do not overlap. */
  lemma SlotsApart(size: nat, first: nat, a: nat, a': nat)
    requires size > 0 && first <= a < a' && (a - first) % size == 0 && (a' - first) % size == 0
    ensures a + size <= a'
  {
    var q, q' := (a - first) / size, (a' - first) / size;
    assert a - first == q * size && a' - first == q' * size;
    assert (q' - q) * size == q' * size - q * size;
    Multiples(q' - q, size);
  }

  /** Every object slot is on the cache's alignment, so on sixteen bytes. */
  lemma ObjAligned(g: Shape, b: nat, a: nat)
    requires WellShaped(g) && IsObj(g, b, a) && b % Block(g.order) == 0
    ensures a % g.align == 0 && a % 16 == 0
  {
    hide Block, AlignUp, Pow2;
    AlignDivides(g.align, g.order);
    AlignedSum(b, Block(g.order), Hdr(g.align), a - b - Hdr(g.align), g.objsize, g.align);
  }

  lemma AlignDivides(align: nat, order: nat)
    requires Pow2(align) && 16 <= align <= Block(order)
    ensures Block(order) % align == 0 && align % 16 == 0
  {
    BlockPow2(order);
    Pow2Divides(align, Block(order));
    assert Pow2(16);
    Pow2Divides(16, align);
  }

  lemma AlignedSum(b: nat, block: nat, h: nat, d: nat, size: nat, align: nat)
    requires block > 0 && size > 0 && align > 0 && b % block == 0 && block % align == 0
    requires h % align == 0 && d % size == 0 && size % align == 0 && align % 16 == 0
    ensures (b + h + d) % align == 0 && (b + h + d) % 16 == 0
  {
    Through(b, block, align);
    Through(d, size, align);
    SumOf(b, h, align);
    SumOf(b + h, d, align);
    Through(b + h + d, align, 16);
  }

  /** The object addresses `first + i * size` for `i` from `from` up to `n`. */
  ghost function Slots(first: nat, size: nat, from: nat, n: nat): (r: seq<nat>)
    ensures |r| == if from <= n then n - from else 0
    decreases n - from
  {
    if from >= n then [] else [first + from * size] + Slots(first, size, from + 1, n)
  }

  lemma {:induction false} SlotAt(first: nat, size: nat, from: nat, n: nat, k: nat)
    requires from + k < n
    ensures Slots(first, size, from, n)[k] == first + (from + k) * size
    decreases k
  {
    if k > 0 {
      SlotAt(first, size, from + 1, n, k - 1);
    }
  }

  lemma SlotsDistinct(first: nat, size: nat, from: nat, n: nat)
    requires size > 0
    ensures Distinct(Slots(first, size, from, n))
  {
    var r := Slots(first, size, from, n);
    forall i, j | 0 <= i < j < |r|
      ensures r[i] != r[j]
    {
      SlotAt(first, size, from, n, i);
      SlotAt(first, size, from, n, j);
      Grows(from + i + 1, from + j, size);
    }
  }

  /** The threaded slots are exactly the object slots. */
  lemma SlotsAreObjs(g: Shape, b: nat, a: nat)
    requires WellShaped(g) && Fits(g)
    ensures a in Slots(b + Hdr(g.align), g.objsize, 0, PerSlab(g)) <==> IsObj(g, b, a)
  {
    var first, room := b + Hdr(g.align), Block(g.order) - Hdr(g.align);
    hide Block, AlignUp, Pow2;
    if a in Slots(first, g.objsize, 0, PerSlab(g)) {
      SlotInRoom(first, g.objsize, room, a);
    }
    if IsObj(g, b, a) {
      RoomHasSlot(first, g.objsize, room, a);
    }
  }

  lemma SlotInRoom(first: nat, size: nat, room: nat, a: nat)
    requires size > 0 && a in Slots(first, size, 0, room / size)
    ensures first <= a && a + size <= first + room && (a - first) % size == 0
  {
    var r := Slots(first, size, 0, room / size);
    var k :| 0 <= k < |r| && r[k] == a;
    SlotAt(first, size, 0, room / size, k);
    MultipleOf(k, size);
    RoomFor(room, size, k);
  }

  lemma RoomHasSlot(first: nat, size: nat, room: nat, a: nat)
    requires size > 0 && first <= a && a + size <= first + room && (a - first) % size == 0
    ensures a in Slots(first, size, 0, room / size)
  {
    var r := Slots(first, size, 0, room / size);
    var k := (a - first) / size;
    assert a - first == k * size;
    RoomFor(room, size, k);
    SlotAt(first, size, 0, room / size, k);
  }

  /** Slot `k` lies within the room exactly when `k` is below the number that fit. */
  lemma RoomFor(room: nat, size: nat, k: nat)
    requires size > 0
    ensures k * size + size <= room <==> k < room / size
  {
    var n := room / size;
    assert room == n * size + room % size;
    if k < n {
      Grows(k + 1, n, size);
    } else {
      Grows(n, k, size);
    }
  }

  /** The eight bytes at `a`. */
  function Word(words: map<nat, nat>, a: nat): nat {
    if a in words then words[a] else 0
  }

  /** The pointers starting at `head`, each stored in the first word of the object before it, are `list`. */
  ghost predicate Chain(words: map<nat, nat>, head: nat, list: seq<nat>)
    decreases |list|
  {
    if list == [] then head == 0
    else head != 0 && head == list[0] && Chain(words, Word(words, head), list[1..])
  }

  lemma {:induction false} ChainFrame(words: map<nat, nat>, words': map<nat, nat>, head: nat, list: seq<nat>)
    requires Chain(words, head, list)
    requires forall a :: a in list ==> Word(words', a) == Word(words, a)
    ensures Chain(words', head, list)
    decreases |list|
  {
    if list != [] {
      ChainFrame(words, words', Word(words, head), list[1..]);
    }
  }

  /** What a listed object's first word holds: null or another listed object. */
  lemma {:induction false} ChainNext(words: map<nat, nat>, head: nat, list: seq<nat>, a: nat)
    requires Chain(words, head, list) && a in list
    ensures Word(words, a) == 0 || Word(words, a) in list
    decreases |list|
  {
    if a != list[0] {
      ChainNext(words, Word(words, head), list[1..], a);
    } else if |list| > 1 {
      assert list[1..][0] in list;
    }
  }
}
