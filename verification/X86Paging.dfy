/** arch/x86_64/paging.c: four levels, 4 KiB, 2 MiB and 1 GiB leaves. Virtual
    addresses stand for the 48 bits the walk uses. */
module X86Paging {
  import opened Common
  import opened PageTree
  import opened PageTables
  import opened LargePages

  datatype Status = Ok | NoMemory | Invalid

  datatype Prot = Prot(read: bool, write: bool, exec: bool, user: bool,
                       nocache: bool, wc: bool, global: bool)

  datatype Attr = Attr(write: bool, user: bool, pwt: bool, pcd: bool, global: bool, nx: bool)

  function ProtToPte(p: Prot, hasNx: bool): (a: Attr) {
    Attr(p.write, p.user, p.nocache || p.wc, p.nocache, p.global, !p.exec && hasNx)
  }

  function PteToProt(a: Attr): (p: Prot) {
    Prot(true, a.write, !a.nx, a.user, a.pcd, false, false)
  }

  /** The bits of an entry are those the protection asks for: write-through without caching or with write-combining,
      cache disable without caching, and no execution only where the processor has it. */
  ghost predicate AsAsked(p: Prot, hasNx: bool, a: Attr) {
    && (a.write <==> p.write) && (a.user <==> p.user) && (a.global <==> p.global)
    && (a.pwt <==> p.nocache || p.wc) && (a.pcd <==> p.nocache)
    && (a.nx <==> hasNx && !p.exec)
  }

  const PAGES: nat := Span(4)
  const VA_LIMIT: nat := PAGES * PAGE_SIZE

  /** Install one leaf of the given level at an address aligned to it. */
  method MapOne(pt: Tables<Attr>, va: nat, pa: nat, flags: Attr, level: nat) returns (r: Status)
    requires pt.Valid() && pt.top == 3 && level <= 2 && va < VA_LIMIT
    requires va % (Span(level) * PAGE_SIZE) == 0 && pa % (Span(level) * PAGE_SIZE) == 0
    modifies pt
    ensures pt.Valid() && pt.refusals >= old(pt.refusals)
    ensures r == Ok || r == NoMemory
    ensures r == Ok <==> pt.refusals == old(pt.refusals)
    ensures r == NoMemory ==> forall q: nat :: q < PAGES ==> pt.Page(q) == old(pt.Page(q))
    ensures r == Ok ==> forall q: nat :: q < PAGES ==>
              pt.Page(q) == if va / PAGE_SIZE <= q < va / PAGE_SIZE + Span(level)
                            then Some((pa / PAGE_SIZE + (q - va / PAGE_SIZE), flags))
                            else old(pt.Page(q))
  {
    hide Wf, TableOk, Owned, Lookup, Reach, Interp, Extends, EntryOk, Index;
    var v, pfn := va / PAGE_SIZE, pa / PAGE_SIZE;
    AlignedBytes(va, level);
    AlignedBytes(pa, level);
    RootOwned(pt.mem, pt.place, pt.root, 3);
    var pdpt := pt.Walk(pt.root, Index(v, 3), 3, true, v);
    if pdpt.None? {
      return NoMemory;
    }
    if level == 2 {
      SetLeaf(pt, pdpt.value, v, pfn, flags, 2);
      return Ok;
    }
    var pd := pt.Walk(pdpt.value, Index(v, 2), 2, true, v);
    if pd.None? {
      return NoMemory;
    }
    if level == 1 {
      SetLeaf(pt, pd.value, v, pfn, flags, 1);
      return Ok;
    }
    var t := pt.Walk(pd.value, Index(v, 1), 1, true, v);
    if t.None? {
      return NoMemory;
    }
    SetLeaf(pt, t.value, v, pfn, flags, 0);
    return Ok;
  }

  /** One turn of the map loop: install the largest leaf that fits here. */
  method MapHere(pt: Tables<Attr>, v: nat, p: nat, left: nat, flags: Attr, gib: bool) returns (r: Status, size: nat)
    requires pt.Valid() && pt.top == 3 && v < VA_LIMIT && left > 0
    requires v % PAGE_SIZE == 0 && p % PAGE_SIZE == 0
    modifies pt
    ensures pt.Valid() && pt.refusals >= old(pt.refusals)
    ensures r == Ok || r == NoMemory
    ensures r == Ok <==> pt.refusals == old(pt.refusals)
    ensures size % PAGE_SIZE == 0 && (size == PAGE_SIZE || 0 < size <= left)
    ensures size == if gib && left >= 0x4000_0000 && v % 0x4000_0000 == 0 && p % 0x4000_0000 == 0 then 0x4000_0000
                    else if left >= 0x20_0000 && v % 0x20_0000 == 0 && p % 0x20_0000 == 0 then 0x20_0000 else 4096
    ensures r == NoMemory ==> forall q: nat :: q < PAGES ==> pt.Page(q) == old(pt.Page(q))
    ensures r == Ok ==> forall q: nat :: q < PAGES ==>
              pt.Page(q) == if v / PAGE_SIZE <= q < v / PAGE_SIZE + size / PAGE_SIZE
                            then Some((p / PAGE_SIZE + (q - v / PAGE_SIZE), flags))
                            else old(pt.Page(q))
  {
    var level := 0;
    if gib && left >= Span(2) * PAGE_SIZE && v % (Span(2) * PAGE_SIZE) == 0 && p % (Span(2) * PAGE_SIZE) == 0 {
      level := 2;
    } else if left >= Span(1) * PAGE_SIZE && v % (Span(1) * PAGE_SIZE) == 0 && p % (Span(1) * PAGE_SIZE) == 0 {
      level := 1;
    }
    r := MapOne(pt, v, p, flags, level);
    size := Span(level) * PAGE_SIZE;
  }

  method ArchMap(pt: Tables<Attr>, va: nat, pa: nat, len: nat, prot: Prot, gib: bool, hasNx: bool)
      returns (r: Status)
    requires pt.Valid() && pt.top == 3 && va + len <= VA_LIMIT
    modifies pt
    ensures pt.Valid() && pt.refusals >= old(pt.refusals)
    ensures r == Invalid <==> va % PAGE_SIZE != 0 || pa % PAGE_SIZE != 0
    ensures r == NoMemory <==> pt.refusals > old(pt.refusals)
    ensures r == Invalid ==> pt.View() == old(pt.View())
    ensures r == Ok ==>
              pt.View() == FlatMap(old(pt.View()), va / PAGE_SIZE, PageCount(len), pa / PAGE_SIZE,
                                   ProtToPte(prot, hasNx))
    ensures r == Ok ==>
              exists a :: AsAsked(prot, hasNx, a) && BytesMapped(old(pt.View()), pt.View(), va, pa, len, a)
    ensures r == NoMemory ==>
              PartlyMapped(old(pt.View()), pt.View(), va / PAGE_SIZE, PageCount(len), pa / PAGE_SIZE,
                           ProtToPte(prot, hasNx))
  {
    hide Wf, TableOk, Owned, Lookup, Reach, Interp, PageCount, FlatMap;
    var flags := ProtToPte(prot, hasNx);
    if va % PAGE_SIZE != 0 || pa % PAGE_SIZE != 0 {
      return Invalid;
    }
    ghost var v, pfn, view := va / PAGE_SIZE, pa / PAGE_SIZE, pt.View();
    RangeFits(va, len, PAGES);
    MapNothing(view, v, pfn, flags);
    var done := 0;
    ghost var k := 0;
    while done < len
      invariant pt.Valid() && done == k * PAGE_SIZE && pt.refusals == old(pt.refusals)
      invariant k <= PageCount(len)
      invariant forall q: nat :: q < PAGES ==> pt.Page(q) == Get(FlatMap(view, v, k, pfn, flags), q)
    {
      StepPages(va, len, k, 0);
      StepPages(pa, len, k, 0);
      var size;
      r, size := MapHere(pt, va + done, pa + done, len - done, flags, gib);
      ghost var n := size / PAGE_SIZE;
      assert size == n * PAGE_SIZE;
      if r != Ok {
        MapKeys(view, v, k, pfn, flags);
        pt.ViewIs(FlatMap(view, v, k, pfn, flags));
        return r;
      }
      StepRun(len, k, n);
      forall q: nat | q < PAGES
        ensures pt.Page(q) == Get(FlatMap(view, v, k + n, pfn, flags), q)
      {
        MapAt(view, v, k, n, pfn, flags, q);
      }
      done, k := done + size, k + n;
    }
    PagesDone(k, len);
    MapKeys(view, v, k, pfn, flags);
    pt.ViewIs(FlatMap(view, v, k, pfn, flags));
    assert AsAsked(prot, hasNx, flags);
    hide ProtToPte, AsAsked, BytesMapped;
    FlatBytes(view, va, pa, len, flags);
    r := Ok;
  }

  /** Find the entry that decides `va`, splitting leaves on the way if asked. */
  method FindLeafEx(pt: Tables<Attr>, va: nat, split: bool) returns (leaf: Option<Leaf>)
    requires pt.Valid() && pt.top == 3 && va < VA_LIMIT
    modifies if split then {pt} else {}
    ensures pt.Valid() && pt.refusals >= old(pt.refusals)
    ensures forall q: nat :: q < PAGES ==> pt.Page(q) == old(pt.Page(q))
    ensures leaf.Some? ==> Decides(pt, leaf.value, va / PAGE_SIZE)
    ensures leaf.Some? && split ==> leaf.value.level == 0
    ensures leaf.Some? ==> pt.refusals == old(pt.refusals)
    ensures leaf.None? ==> pt.Page(va / PAGE_SIZE) == None || pt.refusals > old(pt.refusals)
  {
    hide Reach, Owned, Together, Index, Lookup;
    var v := va / PAGE_SIZE;
    RootOwned(pt.mem, pt.place, pt.root, 3);
    assert TableOk(pt.mem, pt.place, pt.root);
    var pdpt := pt.Walk(pt.root, Index(v, 3), 3, false, v);
    if pdpt.None? {
      return None;
    }
    assert TableOk(pt.mem, pt.place, pdpt.value);
    var e := pt.mem[pdpt.value][Index(v, 2)];
    if e.Pte? && e.block && !split {
      LeafDecides(pt, pdpt.value, 2, v);
      return Some(Leaf(pdpt.value, Index(v, 2), 2));
    }
    var pd := pt.Walk(pdpt.value, Index(v, 2), 2, split, v);
    if pd.None? {
      return None;
    }
    assert TableOk(pt.mem, pt.place, pd.value);
    e := pt.mem[pd.value][Index(v, 1)];
    if e.Pte? && e.block && !split {
      LeafDecides(pt, pd.value, 1, v);
      return Some(Leaf(pd.value, Index(v, 1), 1));
    }
    var t := pt.Walk(pd.value, Index(v, 1), 1, split, v);
    if t.None? {
      return None;
    }
    assert TableOk(pt.mem, pt.place, t.value);
    LeafDecides(pt, t.value, 0, v);
    return Some(Leaf(t.value, Index(v, 0), 0));
  }

  /** The x86-64 port replaces all attributes, whatever they were. */
  function Always(a: Attr): (f: Attr -> Attr) {
    _ => a
  }

  /** One turn of the protect loop at byte `cur`; `hit` is false only when a split
      was refused, and then nothing changes. */
  method ProtectHere(pt: Tables<Attr>, cur: nat, left: nat, f: Attr -> Attr) returns (psize: nat, ghost hit: bool)
    requires pt.Valid() && pt.top == 3 && cur < VA_LIMIT && left > 0
    modifies pt
    ensures pt.Valid() && pt.refusals >= old(pt.refusals)
    ensures !hit ==> pt.refusals > old(pt.refusals) && psize == PAGE_SIZE
    ensures psize == PAGE_SIZE || (psize % PAGE_SIZE == 0 && 0 < psize <= left)
    ensures forall q: nat :: q < PAGES ==>
              pt.Page(q) == Reprotect(old(pt.Page(q)),
                                      hit && cur / PAGE_SIZE <= q < cur / PAGE_SIZE + psize / PAGE_SIZE, f)
  {
    hide Wf, TableOk, Owned, Lookup, Reach, Interp, Together, Index;
    psize := PAGE_SIZE;
    var leaf := FindLeafEx(pt, cur, false);
    if leaf.None? {
      return psize, true;
    }
    var e := pt.mem[leaf.value.table][leaf.value.index];
    psize := Span(leaf.value.level) * PAGE_SIZE;
    if e.Pte? && e.block && (cur % psize != 0 || left < psize) {
      psize := PAGE_SIZE;
      leaf := FindLeafEx(pt, cur, true);
      if leaf.None? {
        return psize, pt.refusals == old(pt.refusals);
      }
    }
    AlignedStart(cur, leaf.value.level);
    SetProt(pt, leaf.value, f, cur / PAGE_SIZE);
    return psize, true;
  }

  method ArchProtect(pt: Tables<Attr>, va: nat, len: nat, prot: Prot, hasNx: bool)
    requires pt.Valid() && pt.top == 3 && va + len <= VA_LIMIT
    modifies pt
    ensures pt.Valid() && pt.refusals >= old(pt.refusals)
    ensures PartlyProtected(old(pt.View()), pt.View(), va / PAGE_SIZE, PageCount(len), Always(ProtToPte(prot, hasNx)))
    ensures pt.refusals == old(pt.refusals) ==>
              pt.View() == FlatProtect(old(pt.View()), va / PAGE_SIZE, PageCount(len), Always(ProtToPte(prot, hasNx)))
    ensures pt.refusals == old(pt.refusals) && va % PAGE_SIZE == 0 ==>
              exists f: Attr -> Attr :: (forall x :: AsAsked(prot, hasNx, f(x)))
                          && BytesProtected(old(pt.View()), pt.View(), va, len, f)
  {
    hide Wf, TableOk, Owned, Lookup, Reach, Interp, PartlyProtected, FlatProtect, PageCount;
    var f := Always(ProtToPte(prot, hasNx));
    ghost var v0, view := va / PAGE_SIZE, pt.View();
    ghost var now := view;
    ProtectStart(view, v0, f);
    var done := 0;
    ghost var k := 0;
    while done < len
      invariant pt.Valid() && done == k * PAGE_SIZE && pt.refusals >= old(pt.refusals)
      invariant k <= PageCount(len) && now.Keys == view.Keys
      invariant forall q: nat :: q < PAGES ==> pt.Page(q) == Get(now, q)
      invariant PartlyProtected(view, now, v0, k, f)
      invariant pt.refusals == old(pt.refusals) ==> now == FlatProtect(view, v0, k, f)
    {
      StepPages(va, len, k, 0);
      var psize, hit := ProtectHere(pt, va + done, len - done, f);
      ghost var n := psize / PAGE_SIZE;
      assert psize == n * PAGE_SIZE;
      StepRun(len, k, n);
      ProtectStep(view, now, v0, k, n, f);
      ghost var next := if hit then FlatProtect(now, v0 + k, n, f) else now;
      forall q: nat | q < PAGES
        ensures pt.Page(q) == Get(next, q)
      {
        ProtectAt(now, v0 + k, n, f, q);
      }
      done, k, now := done + psize, k + n, next;
    }
    PagesDone(k, len);
    pt.ViewIs(now);
    assert forall x :: AsAsked(prot, hasNx, f(x));
    hide ProtToPte, AsAsked, BytesProtected, Always;
    if va % PAGE_SIZE == 0 {
      FlatProtectBytes(view, va, len, f);
    }
  }

  method ArchTranslate(pt: Tables<Attr>, va: nat) returns (r: Option<(nat, Prot)>)
    requires pt.Valid() && pt.top == 3 && va < VA_LIMIT
    ensures r == match pt.Page(va / PAGE_SIZE)
                 case None => None
                 case Some((pfn, a)) => Some((pfn * PAGE_SIZE + va % PAGE_SIZE, PteToProt(a)))
  {
    hide Wf, TableOk, Owned, Lookup, Reach, Interp, Index;
    var leaf := FindLeafEx(pt, va, false);
    if leaf.None? {
      return None;
    }
    var e := pt.mem[leaf.value.table][leaf.value.index];
    if e.Absent? {
      return None;
    }
    OffsetInLeaf(va, leaf.value.level);
    return Some((e.pfn * PAGE_SIZE + va % (Span(leaf.value.level) * PAGE_SIZE), PteToProt(e.attr)));
  }

  /** Reported protections are the requested ones, except that reading is always
      granted, execution cannot be denied without NX, and WC and GLOBAL are lost. */
  lemma ProtRoundTrip(p: Prot, hasNx: bool)
    ensures PteToProt(ProtToPte(p, hasNx)) == p.(read := true, exec := p.exec || !hasNx, wc := false, global := false)
  {
  }

  /** The leaf found for each mapped page. */
  ghost function Hits(pt: Tables<Attr>): map<nat, Hit<Attr>>
    requires pt.top == 3
    reads pt
  {
    map q: nat | q < PAGES && pt.Found(q).Some? :: pt.Found(q).value
  }

  /** Page `r` is under the leaf `h` that page `q` is under. */
  ghost predicate SameRun(h: Hit<Attr>, q: nat, r: nat) {
    h.level <= 2 && Together(q, r, h.level)
  }

  /** Every leaf that meets the range of pages lies inside it. */
  ghost predicate WholeLeaves(m: map<nat, Hit<Attr>>, v: nat, n: nat) {
    forall q: nat, r: nat :: q in m && v <= q < v + n && SameRun(m[q], q, r) ==> v <= r < v + n
  }

  /** The map without the leaf that page `c` is under. */
  ghost function ClearRun(m: map<nat, Hit<Attr>>, c: nat): map<nat, Hit<Attr>> {
    if c in m then map q: nat | q in m && !SameRun(m[c], c, q) :: m[q] else m
  }

  /** Some whole leaves are gone and the rest is as it was. */
  ghost predicate LeavesGone(m: map<nat, Hit<Attr>>, m': map<nat, Hit<Attr>>) {
    && (forall q :: q in m' ==> q in m && m'[q] == m[q])
    && (forall q: nat, r: nat :: q in m && q !in m' && SameRun(m[q], q, r) ==> r !in m')
  }

  /** One turn of the unmap loop: the whole leaf around `va` goes, whatever its size. */
  method UnmapHere(pt: Tables<Attr>, va: nat) returns (psize: nat)
    requires pt.Valid() && pt.top == 3 && va < VA_LIMIT
    modifies pt`mem
    ensures pt.Valid()
    ensures Hits(pt) == ClearRun(old(Hits(pt)), va / PAGE_SIZE)
    ensures var v, m := va / PAGE_SIZE, old(Hits(pt));
            && (v in m ==> m[v].level <= 2 && psize == Span(m[v].level) * PAGE_SIZE)
            && (v !in m ==> psize == PAGE_SIZE)
            && forall q: nat :: q < PAGES && v in m && SameRun(m[v], v, q) ==> q in m
  {
    hide Wf, TableOk, Owned, Lookup, Reach, Interp, Index;
    psize := PAGE_SIZE;
    var leaf := FindLeafEx(pt, va, false);
    if leaf.Some? {
      psize := Span(leaf.value.level) * PAGE_SIZE;
      pt.SetEntry(leaf.value.table, leaf.value.index, leaf.value.level, Absent, va / PAGE_SIZE);
    }
  }

  /** Unmapping removes exactly the named pages if and only if no 2 MiB or 1 GiB leaf
      straddles either end of the range; in any case nothing is added or moved. */
  method ArchUnmap(pt: Tables<Attr>, va: nat, len: nat)
    requires pt.Valid() && pt.top == 3 && va + len <= VA_LIMIT
    modifies pt`mem
    ensures pt.Valid()
    ensures LeavesGone(old(Hits(pt)), Hits(pt))
    ensures pt.View() == FlatUnmap(old(pt.View()), va / PAGE_SIZE, PageCount(len))
            <==> WholeLeaves(old(Hits(pt)), va / PAGE_SIZE, PageCount(len))
    ensures WholeLeaves(old(Hits(pt)), va / PAGE_SIZE, PageCount(len)) && va % PAGE_SIZE == 0 ==>
              BytesUnmapped(old(pt.View()), pt.View(), va, len)
  {
    hide Wf, TableOk, Owned, Lookup, Reach, Interp, PageCount, ClearRun, WholeLeaves, LeavesGone, Hits, WholeRuns;
    ghost var v, n, m := va / PAGE_SIZE, PageCount(len), Hits(pt);
    RangeFits(va, len, PAGES);
    LeavesGoneStart(m, v);
    RunsAreMapped(pt);
    ViewOfHits(pt);
    var done := 0;
    ghost var k := 0;
    while done < len
      invariant pt.Valid() && done == k * PAGE_SIZE
      invariant LeavesGone(m, Hits(pt))
      invariant WholeLeaves(m, v, n) ==> k <= n && Hits(pt) == Without(m, v, k)
    {
      StepPages(va, len, k, 0);
      ghost var before := Hits(pt);
      var psize := UnmapHere(pt, va + done);
      LeafGone(m, before, v + k);
      if WholeLeaves(m, v, n) {
        ClearInOrder(m, v, n, k);
      }
      done, k := done + psize, k + psize / PAGE_SIZE;
    }
    if WholeLeaves(m, v, n) {
      PagesDone(k, len);
    }
    ViewOfHits(pt);
    UnmapExact(m, Hits(pt), v, n);
    hide FlatUnmap, BytesUnmapped;
    if va % PAGE_SIZE == 0 {
      FlatUnmapBytes(Pages(m), va, len);
    }
  }

  ghost function Without(m: map<nat, Hit<Attr>>, v: nat, n: nat): map<nat, Hit<Attr>> {
    map q: nat | q in m && !(v <= q < v + n) :: m[q]
  }

  ghost function Pages(m: map<nat, Hit<Attr>>): map<nat, (nat, Attr)> {
    map q: nat | q in m :: (m[q].pfn, m[q].attr)
  }

  lemma ViewOfHits(pt: Tables<Attr>)
    requires pt.top == 3
    ensures pt.View() == Pages(Hits(pt))
    ensures forall q :: q in Hits(pt) ==> q < PAGES
  {
  }

  /** If one page under a leaf is mapped then all of them are, by that leaf. */
  ghost predicate WholeRuns(m: map<nat, Hit<Attr>>) {
    forall q: nat, r: nat :: q in m && r < PAGES && SameRun(m[q], q, r) ==> r in m && m[r].level == m[q].level
  }

  lemma RunsAreMapped(pt: Tables<Attr>)
    requires pt.top == 3
    ensures WholeRuns(Hits(pt))
  {
    hide SameRun, Hits, Lookup;
    var m := Hits(pt);
    forall q: nat, r: nat | q in m && r < PAGES && SameRun(m[q], q, r)
      ensures r in m && m[r].level == m[q].level
    {
      RunIsMapped(pt, q, r);
    }
  }

  lemma RunIsMapped(pt: Tables<Attr>, q: nat, r: nat)
    requires pt.top == 3 && q in Hits(pt) && r < PAGES && SameRun(Hits(pt)[q], q, r)
    ensures r in Hits(pt) && Hits(pt)[r].level == Hits(pt)[q].level
  {
    hide Lookup, Together;
    RunShared(pt.mem, pt.root, 3, q, r);
  }

  lemma LeavesGoneStart(m: map<nat, Hit<Attr>>, v: nat)
    ensures LeavesGone(m, m) && Without(m, v, 0) == m
  {
  }

  lemma LeafGone(m: map<nat, Hit<Attr>>, m': map<nat, Hit<Attr>>, c: nat)
    requires LeavesGone(m, m') && WholeRuns(m) && forall q :: q in m ==> q < PAGES
    ensures LeavesGone(m, ClearRun(m', c))
  {
    var m'' := ClearRun(m', c);
    forall q: nat, r: nat | q in m && q !in m'' && SameRun(m[q], q, r)
      ensures r !in m''
    {
      if q in m' && r in m' {
        assert SameRun(m'[c], c, q);
        assert m[q].level == m[c].level;
        assert SameRun(m'[c], c, r);
      }
    }
  }

  /** As long as no leaf straddles an end, the loop meets each leaf at its start. */
  lemma ClearInOrder(m: map<nat, Hit<Attr>>, v: nat, n: nat, k: nat)
    requires WholeLeaves(m, v, n) && k < n && v + n <= PAGES
    requires forall q: nat :: q < PAGES && v + k in m && SameRun(m[v + k], v + k, q) ==> q in Without(m, v, k)
    requires v + k in m ==> m[v + k].level <= 2
    ensures var s := if v + k in m then Span(m[v + k].level) else 1;
            k + s <= n && ClearRun(Without(m, v, k), v + k) == Without(m, v, k + s)
  {
    var c := v + k;
    if c in m {
      forall r: nat | r < PAGES && Together(c, r, m[c].level)
        ensures c <= r < v + n
      {
        assert SameRun(m[c], c, r);
        assert r in Without(m, v, k);
      }
      RunAt(c, m[c].level, v + n);
    }
  }

  /** A run of pages that starts nowhere before `c` starts at `c`. */
  lemma RunAt(c: nat, level: nat, end: nat)
    requires level <= 2 && c < end <= PAGES
    requires forall r: nat :: r < PAGES && Together(c, r, level) ==> c <= r < end
    ensures c % Span(level) == 0 && c + Span(level) <= end
    ensures forall q: nat :: Together(c, q, level) <==> c <= q < c + Span(level)
  {
    if c % Span(level) != 0 {
      assert Together(c, c - 1, level);
    }
    assert c + Span(level) <= PAGES;
    assert Together(c, c + Span(level) - 1, level);
    forall q: nat
      ensures Together(c, q, level) <==> c <= q < c + Span(level)
    {
      AlignedRun(c, level, q);
    }
  }

  lemma RunBound(level: nat, q: nat, r: nat)
    requires level <= 2 && q < PAGES && Together(q, r, level)
    ensures r < PAGES
  {
    SharedIndex(q, r, level, 3);
  }

  /** Removing whole leaves removes exactly a range only if the leaves fit the range. */
  lemma UnmapExact(m: map<nat, Hit<Attr>>, m': map<nat, Hit<Attr>>, v: nat, n: nat)
    requires LeavesGone(m, m') && WholeRuns(m) && v + n <= PAGES
    requires forall q :: q in m ==> q < PAGES
    requires WholeLeaves(m, v, n) ==> m' == Without(m, v, n)
    ensures Pages(m') == FlatUnmap(Pages(m), v, n) <==> WholeLeaves(m, v, n)
  {
    if WholeLeaves(m, v, n) {
      hide WholeLeaves, WholeRuns, LeavesGone;
    } else {
      var q: nat, r: nat :| q in m && v <= q < v + n && SameRun(m[q], q, r) && !(v <= r < v + n);
      RunBound(m[q].level, q, r);
      assert r in m && (q !in m' ==> r !in m');
      hide WholeLeaves, WholeRuns, LeavesGone, SameRun;
      if q in m' {
        assert q in Pages(m') && q !in FlatUnmap(Pages(m), v, n);
      } else {
        assert r !in Pages(m') && r in FlatUnmap(Pages(m), v, n);
      }
    }
  }

  datatype Op =
    | Map(va: nat, pa: nat, len: nat, prot: Prot)
    | Unmap(va: nat, len: nat)
    | Protect(va: nat, len: nat, prot: Prot)

  ghost function FlatStep(m: map<nat, (nat, Attr)>, op: Op, hasNx: bool): map<nat, (nat, Attr)> {
    match op
    case Map(va, pa, len, prot) =>
      if va % PAGE_SIZE != 0 || pa % PAGE_SIZE != 0 then m
      else FlatMap(m, va / PAGE_SIZE, PageCount(len), pa / PAGE_SIZE, ProtToPte(prot, hasNx))
    case Unmap(va, len) => FlatUnmap(m, va / PAGE_SIZE, PageCount(len))
    case Protect(va, len, prot) =>
      FlatProtect(m, va / PAGE_SIZE, PageCount(len), Always(ProtToPte(prot, hasNx)))
  }

  ghost function FlatRun(m: map<nat, (nat, Attr)>, ops: seq<Op>, hasNx: bool): map<nat, (nat, Attr)> {
    if ops == [] then m else FlatStep(FlatRun(m, ops[..|ops| - 1], hasNx), ops[|ops| - 1], hasNx)
  }

  /** No leaf straddles an end of the range an unmap call is given. */
  ghost predicate Clean(m: map<nat, Hit<Attr>>, op: Op) {
    op.Unmap? ==> WholeLeaves(m, op.va / PAGE_SIZE, PageCount(op.len))
  }

  /** The leaves `trace` met before each call and at the end are those of a flat map. */
  ghost predicate FlatAll(m: map<nat, (nat, Attr)>, ops: seq<Op>, trace: seq<map<nat, Hit<Attr>>>, hasNx: bool) {
    |trace| <= |ops| + 1 && forall i :: 0 <= i < |trace| ==> Pages(trace[i]) == FlatRun(m, ops[..i], hasNx)
  }

  /** In any sequence of map, unmap and protect calls in which no allocation is refused, the tables act all along
      as a flat map exactly when every unmap call meets whole leaves; otherwise leaf sizes and splits are invisible.
      `trace` is the leaves before each call and at the end. */
  method Run(pt: Tables<Attr>, ops: seq<Op>, gib: bool, hasNx: bool) returns (ghost trace: seq<map<nat, Hit<Attr>>>)
    requires pt.Valid() && pt.top == 3
    requires forall i :: 0 <= i < |ops| ==> ops[i].va + ops[i].len <= VA_LIMIT
    modifies pt
    ensures pt.Valid() && pt.refusals >= old(pt.refusals)
    ensures |trace| == |ops| + 1 && trace[0] == old(Hits(pt)) && trace[|ops|] == Hits(pt)
    ensures pt.refusals == old(pt.refusals) ==>
              (FlatAll(old(pt.View()), ops, trace, hasNx) <==> forall i :: 0 <= i < |ops| ==> Clean(trace[i], ops[i]))
    ensures pt.refusals == old(pt.refusals) && (forall i :: 0 <= i < |ops| ==> Clean(trace[i], ops[i])) ==>
              pt.View() == FlatRun(old(pt.View()), ops, hasNx)
  {
    hide Wf, TableOk, Owned, Lookup, Reach, Interp, PageCount, FlatMap, FlatProtect, FlatUnmap, Clean, Hits, FlatStep;
    ghost var m := pt.View();
    trace := [Hits(pt)];
    ViewOfHits(pt);
    for i := 0 to |ops|
      invariant pt.Valid() && pt.refusals >= old(pt.refusals)
      invariant |trace| == i + 1 && trace[0] == old(Hits(pt)) && trace[i] == Hits(pt)
      invariant pt.refusals == old(pt.refusals) ==>
                  (FlatAll(m, ops, trace, hasNx) <==> forall j :: 0 <= j < i ==> Clean(trace[j], ops[j]))
    {
      hide FlatAll;
      ghost var before := trace;
      Serve(pt, ops[i], gib, hasNx);
      trace := trace + [Hits(pt)];
      if pt.refusals == old(pt.refusals) {
        FlatOn(m, ops, before, Hits(pt), hasNx);
      }
    }
    ViewOfHits(pt);
    assert ops[..|ops|] == ops;
  }

  /** One call acts as on a flat map exactly when it is no unmap across a leaf. */
  method Serve(pt: Tables<Attr>, op: Op, gib: bool, hasNx: bool)
    requires pt.Valid() && pt.top == 3 && op.va + op.len <= VA_LIMIT
    modifies pt
    ensures pt.Valid() && pt.refusals >= old(pt.refusals)
    ensures pt.refusals == old(pt.refusals) ==>
              (Pages(Hits(pt)) == FlatStep(Pages(old(Hits(pt))), op, hasNx) <==> Clean(old(Hits(pt)), op))
  {
    hide Wf, TableOk, Owned, Lookup, Reach, Interp, PageCount, FlatMap, FlatProtect, FlatUnmap, Hits, WholeLeaves;
    ViewOfHits(pt);
    match op {
      case Map(va, pa, len, prot) => var _ := ArchMap(pt, va, pa, len, prot, gib, hasNx);
      case Unmap(va, len) => ArchUnmap(pt, va, len);
      case Protect(va, len, prot) => ArchProtect(pt, va, len, prot, hasNx);
    }
    ViewOfHits(pt);
  }

  lemma FlatOn(m: map<nat, (nat, Attr)>, ops: seq<Op>, trace: seq<map<nat, Hit<Attr>>>, now: map<nat, Hit<Attr>>,
        hasNx: bool)
    requires 0 < |trace| <= |ops|
    requires FlatAll(m, ops, trace, hasNx) <==> forall j :: 0 <= j < |trace| - 1 ==> Clean(trace[j], ops[j])
    requires var i := |trace| - 1; Pages(now) == FlatStep(Pages(trace[i]), ops[i], hasNx) <==> Clean(trace[i], ops[i])
    ensures FlatAll(m, ops, trace + [now], hasNx) <==>
            forall j :: 0 <= j < |trace| ==> Clean((trace + [now])[j], ops[j])
  {
    hide Clean, FlatStep, Pages, FlatAll, FlatRun;
    var n := |trace|;
    FlatMore(m, ops, trace, now, hasNx);
    assert forall j :: 0 <= j < n ==> (trace + [now])[j] == trace[j];
  }

  lemma FlatMore(m: map<nat, (nat, Attr)>, ops: seq<Op>, trace: seq<map<nat, Hit<Attr>>>, now: map<nat, Hit<Attr>>,
        hasNx: bool)
    requires 0 < |trace| <= |ops|
    ensures FlatAll(m, ops, trace + [now], hasNx) <==>
            && FlatAll(m, ops, trace, hasNx)
            && Pages(now) == FlatStep(Pages(trace[|trace| - 1]), ops[|trace| - 1], hasNx)
  {
    hide FlatStep, Pages;
    var n, trace' := |trace|, trace + [now];
    assert ops[..n][..n - 1] == ops[..n - 1];
    assert FlatRun(m, ops[..n], hasNx) == FlatStep(FlatRun(m, ops[..n - 1], hasNx), ops[n - 1], hasNx);
    hide FlatRun;
    if FlatAll(m, ops, trace', hasNx) {
      assert trace'[n] == now;
      assert forall i :: 0 <= i < n ==> trace'[i] == trace[i];
    }
  }
}
