/** Operations on runs of pages, and the flat map they act on: what both ports
    share above single table entries. */
module LargePages {
  import opened Common
  import opened PageTree
  import opened PageTables

  /** Pages a byte length covers when it starts on a page boundary. */
  function PageCount(len: nat): (n: nat) {
    (len + PAGE_SIZE - 1) / PAGE_SIZE
  }

  predicate Named(q: nat, v: nat, n: nat) {
    v <= q < v + n
  }

  lemma AlignedStart(a: nat, level: nat)
    requires level <= 2 && (level > 0 ==> a % (Span(level) * PAGE_SIZE) == 0)
    ensures a / PAGE_SIZE % Span(level) == 0
  {
    if level == 1 {
      var q := a / (512 * PAGE_SIZE);
      assert a == q * 512 * PAGE_SIZE;
    } else if level == 2 {
      var q := a / (262144 * PAGE_SIZE);
      assert a == q * 262144 * PAGE_SIZE;
    }
  }

  /** Advancing over one leaf stays inside the named pages. */
  lemma StepPages(va: nat, len: nat, k: nat, level: nat)
    requires level <= 2 && k * PAGE_SIZE < len
    requires level > 0 ==> (k + Span(level)) * PAGE_SIZE <= len
    ensures k + Span(level) <= PageCount(len)
    ensures (va + k * PAGE_SIZE) / PAGE_SIZE == va / PAGE_SIZE + k
  {
  }

  lemma RangeFits(va: nat, len: nat, pages: nat)
    requires va + len <= pages * PAGE_SIZE
    ensures va / PAGE_SIZE + PageCount(len) <= pages
  {
  }

  lemma StepRun(len: nat, k: nat, n: nat)
    requires k * PAGE_SIZE < len && (n == 1 || (k + n) * PAGE_SIZE <= len)
    ensures k + n <= PageCount(len)
  {
  }

  lemma PagesDone(k: nat, len: nat)
    requires len <= k * PAGE_SIZE && k <= PageCount(len)
    ensures k == PageCount(len)
  {
  }

  /** The flat map after mapping `n` pages. */
  ghost function FlatMap<A>(m: map<nat, (nat, A)>, v: nat, n: nat, pfn: nat, a: A): map<nat, (nat, A)> {
    m + (map q: nat | v <= q < v + n && Named(q, v, n) :: (pfn + (q - v), a))
  }

  /** Some proper prefix of the `n` pages was mapped, and nothing else. */
  ghost predicate PartlyMapped<A>(before: map<nat, (nat, A)>, after: map<nat, (nat, A)>, v: nat, n: nat, pfn: nat,
        a: A) {
    exists k :: 0 <= k < n && after == FlatMap(before, v, k, pfn, a)
  }

  /** Every byte of the range is mapped, at its place and with the attributes; pages without one are as they were. */
  ghost predicate BytesMapped<A>(m: map<nat, (nat, A)>, m': map<nat, (nat, A)>, va: nat, pa: nat, len: nat, a: A) {
    && (forall b: nat :: va <= b < va + len ==>
          && b / 4096 in m' && m'[b / 4096].0 * 4096 + b % 4096 == pa + (b - va) && m'[b / 4096].1 == a)
    && (forall q: nat :: (q + 1) * 4096 <= va || q * 4096 >= va + len ==> Get(m', q) == Get(m, q))
  }

  lemma FlatBytes<A>(m: map<nat, (nat, A)>, va: nat, pa: nat, len: nat, a: A)
    requires va % PAGE_SIZE == 0 && pa % PAGE_SIZE == 0
    ensures BytesMapped(m, FlatMap(m, va / PAGE_SIZE, PageCount(len), pa / PAGE_SIZE, a), va, pa, len, a)
  {
    var v, f, n := va / PAGE_SIZE, pa / PAGE_SIZE, PageCount(len);
    var m' := FlatMap(m, v, n, f, a);
    forall b: nat | va <= b < va + len
      ensures b / 4096 in m' && m'[b / 4096].0 * 4096 + b % 4096 == pa + (b - va) && m'[b / 4096].1 == a
    {
      assert v <= b / 4096 < v + n;
      assert m'[b / 4096] == (f + (b / 4096 - v), a);
    }
  }

  /** Every mapped page with a byte of the range has its attributes changed; the others are as they were. */
  ghost predicate BytesProtected<A>(m: map<nat, (nat, A)>, m': map<nat, (nat, A)>, va: nat, len: nat, f: A -> A) {
    && (forall b: nat :: va <= b < va + len && b / 4096 in m ==>
          b / 4096 in m' && m'[b / 4096] == (m[b / 4096].0, f(m[b / 4096].1)))
    && (forall q: nat :: (q + 1) * 4096 <= va || q * 4096 >= va + len || q !in m ==> Get(m', q) == Get(m, q))
  }

  lemma FlatProtectBytes<A>(m: map<nat, (nat, A)>, va: nat, len: nat, f: A -> A)
    requires va % PAGE_SIZE == 0
    ensures BytesProtected(m, FlatProtect(m, va / PAGE_SIZE, PageCount(len), f), va, len, f)
  {
    var v, n := va / PAGE_SIZE, PageCount(len);
    forall b: nat | va <= b < va + len && b / 4096 in m
      ensures b / 4096 in FlatProtect(m, v, n, f)
              && FlatProtect(m, v, n, f)[b / 4096] == (m[b / 4096].0, f(m[b / 4096].1))
    {
      assert v <= b / 4096 < v + n;
    }
  }

  /** No page with a byte of the range is mapped; the others are as they were. */
  ghost predicate BytesUnmapped<A>(m: map<nat, (nat, A)>, m': map<nat, (nat, A)>, va: nat, len: nat) {
    && (forall b: nat :: va <= b < va + len ==> b / 4096 !in m')
    && (forall q: nat :: (q + 1) * 4096 <= va || q * 4096 >= va + len ==> Get(m', q) == Get(m, q))
  }

  lemma FlatUnmapBytes<A>(m: map<nat, (nat, A)>, va: nat, len: nat)
    requires va % PAGE_SIZE == 0
    ensures BytesUnmapped(m, FlatUnmap(m, va / PAGE_SIZE, PageCount(len)), va, len)
  {
    var v, n := va / PAGE_SIZE, PageCount(len);
    forall b: nat | va <= b < va + len
      ensures b / 4096 !in FlatUnmap(m, v, n)
    {
      assert v <= b / 4096 < v + n;
    }
  }

  lemma MapNothing<A>(m: map<nat, (nat, A)>, v: nat, pfn: nat, a: A)
    ensures FlatMap(m, v, 0, pfn, a) == m
  {
  }

  lemma MapKeys<A>(m: map<nat, (nat, A)>, v: nat, n: nat, pfn: nat, a: A)
    ensures forall q :: q in FlatMap(m, v, n, pfn, a) ==> q in m || v <= q < v + n
  {
  }

  lemma MapAt<A>(m: map<nat, (nat, A)>, v: nat, k: nat, n: nat, pfn: nat, a: A, q: nat)
    ensures Get(FlatMap(m, v, k + n, pfn, a), q) ==
            if v + k <= q < v + k + n then Some((pfn + k + (q - (v + k)), a)) else Get(FlatMap(m, v, k, pfn, a), q)
  {
  }

  /** The flat map after changing the attributes of `n` pages by `f`. */
  ghost function FlatProtect<A>(m: map<nat, (nat, A)>, v: nat, n: nat, f: A -> A): map<nat, (nat, A)> {
    map q: nat | q in m :: if v <= q < v + n then (m[q].0, f(m[q].1)) else m[q]
  }

  lemma AlignedBytes(a: nat, level: nat)
    requires level <= 2 && a % (Span(level) * PAGE_SIZE) == 0
    ensures a % PAGE_SIZE == 0 && a / PAGE_SIZE % Span(level) == 0
  {
  }

  /** Store a leaf for the aligned run of pages starting at `v`. */
  method SetLeaf<A>(pt: Tables<A>, t: nat, v: nat, pfn: nat, flags: A, level: nat)
    requires pt.Valid() && level <= 2 && level <= pt.top && pt.OwnedTable(t) && Serves(pt.place, t, level, v)
    requires v % Span(level) == 0 && pfn % Span(level) == 0
    modifies pt`mem
    ensures pt.Valid()
    ensures forall q: nat :: q < Span(pt.top + 1) ==>
              pt.Page(q) == if v <= q < v + Span(level) then Some((pfn + (q - v), flags)) else old(pt.Page(q))
  {
    hide Wf, TableOk, Owned, Lookup, Reach, Interp, EntryOk, Together;
    forall q: nat
      ensures Together(q, v, level) <==> v <= q < v + Span(level)
      ensures Together(q, v, level) ==> q % Span(level) == q - v
    {
      AlignedRun(v, level, q);
    }
    pt.SetEntry(t, Index(v, level), level, Pte(level > 0, pfn, flags), v);
  }

  datatype Leaf = Leaf(table: nat, index: nat, level: nat)

  /** `leaf` is the entry that decides the translation of page `v`. */
  ghost predicate Decides<A>(pt: Tables<A>, leaf: Leaf, v: nat)
    requires pt.Valid() && pt.top <= 3
    reads pt
  {
    && leaf.level <= 2 && leaf.level <= pt.top && leaf.index == Index(v, leaf.level)
    && pt.OwnedTable(leaf.table) && Serves(pt.place, leaf.table, leaf.level, v)
    && leaf.table in pt.mem && |pt.mem[leaf.table]| == FANOUT
    && var e := pt.mem[leaf.table][leaf.index];
       && (leaf.level > 0 ==> e.Pte? && e.block && e.pfn % Span(leaf.level) == 0)
       && (e.Pte? && leaf.level == 0 ==> !e.block)
       && forall q: nat :: q < Span(pt.top + 1) && Together(q, v, leaf.level) ==>
            pt.Found(q) == if e.Absent? then None else Some(Hit(e.pfn + q % Span(leaf.level), e.attr, leaf.level))
  }

  lemma LeafDecides<A>(pt: Tables<A>, t: nat, level: nat, v: nat)
    requires pt.Valid() && level <= 2 && level <= pt.top && v < Span(pt.top + 1)
    requires pt.OwnedTable(t) && Serves(pt.place, t, level, v) && t in pt.mem && |pt.mem[t]| == FANOUT
    requires level > 0 ==> pt.mem[t][Index(v, level)].Pte? && pt.mem[t][Index(v, level)].block
    ensures Decides(pt, Leaf(t, Index(v, level), level), v)
  {
    hide Reach;
    DivStep(v, level);
    assert TableOk(pt.mem, pt.place, t);
    var i := Index(v, level);
    assert EntryOk(pt.place, pt.mem[t][i], level, pt.place[t].1 * FANOUT + i);
    forall q: nat | q < Span(pt.top + 1) && Together(q, v, level)
      ensures pt.Found(q) == Interp(pt.mem, pt.mem[t][i], level, q)
    {
      LookupOwned(pt.mem, pt.place, pt.root, pt.top, t, i, q);
    }
  }

  /** Protections may only have changed on the named pages, frames not at all. */
  ghost predicate PartlyProtected<A>(before: map<nat, (nat, A)>, after: map<nat, (nat, A)>, v: nat, n: nat, f: A -> A) {
    && after.Keys == before.Keys
    && forall q :: q in before ==>
         after[q] == before[q] || (v <= q < v + n && after[q] == (before[q].0, f(before[q].1)))
  }

  ghost function Reprotect<A>(x: Option<(nat, A)>, named: bool, f: A -> A): Option<(nat, A)> {
    if named && x.Some? then Some((x.value.0, f(x.value.1))) else x
  }

  /** Give every page under the entry `leaf` attributes changed by `f`. */
  method SetProt<A>(pt: Tables<A>, leaf: Leaf, f: A -> A, ghost v: nat)
    requires pt.Valid() && v < Span(pt.top + 1) && Decides(pt, leaf, v) && v % Span(leaf.level) == 0
    modifies pt`mem
    ensures pt.Valid()
    ensures forall q: nat :: q < Span(pt.top + 1) ==>
              pt.Page(q) == Reprotect(old(pt.Page(q)), v <= q < v + Span(leaf.level), f)
  {
    hide Wf, TableOk, Owned, Lookup, Reach, Interp, Together;
    forall q: nat
      ensures Together(q, v, leaf.level) <==> v <= q < v + Span(leaf.level)
    {
      AlignedRun(v, leaf.level, q);
    }
    var e := pt.mem[leaf.table][leaf.index];
    if e.Pte? {
      pt.SetEntry(leaf.table, leaf.index, leaf.level, Pte(e.block, e.pfn, f(e.attr)), v);
    }
  }

  lemma ProtectAt<A>(m: map<nat, (nat, A)>, v: nat, n: nat, f: A -> A, q: nat)
    ensures Get(FlatProtect(m, v, n, f), q) == Reprotect(Get(m, q), v <= q < v + n, f)
  {
  }

  lemma ProtectStart<A>(m: map<nat, (nat, A)>, v: nat, f: A -> A)
    ensures PartlyProtected(m, m, v, 0, f) && FlatProtect(m, v, 0, f) == m
  {
  }

  lemma ProtectStep<A>(before: map<nat, (nat, A)>, now: map<nat, (nat, A)>, v: nat, k: nat, n: nat, f: A -> A)
    requires PartlyProtected(before, now, v, k, f)
    ensures PartlyProtected(before, now, v, k + n, f)
    ensures PartlyProtected(before, FlatProtect(now, v + k, n, f), v, k + n, f)
    ensures now == FlatProtect(before, v, k, f) ==>
              FlatProtect(now, v + k, n, f) == FlatProtect(before, v, k + n, f)
    ensures FlatProtect(now, v + k, n, f).Keys == now.Keys
  {
  }

  ghost function FlatUnmap<A>(m: map<nat, (nat, A)>, v: nat, n: nat): map<nat, (nat, A)> {
    map q: nat | q in m && !(v <= q < v + n) :: m[q]
  }

  lemma UnmapAt<A>(m: map<nat, (nat, A)>, v: nat, n: nat, q: nat)
    ensures Get(FlatUnmap(m, v, n), q) == if v <= q < v + n then None else Get(m, q)
    ensures FlatUnmap(m, v, n).Keys <= m.Keys
  {
  }

  lemma OffsetInLeaf(va: nat, level: nat)
    requires level <= 2
    ensures va % (Span(level) * PAGE_SIZE) == va / PAGE_SIZE % Span(level) * PAGE_SIZE + va % PAGE_SIZE
  {
  }
}
