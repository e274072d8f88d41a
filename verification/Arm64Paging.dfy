/** The page-table part of arch/aarch64/arch.c: three levels over 39 address bits.
    New mappings always use 4 KiB pages; larger blocks come from the boot table and
    are split on demand. */
module Arm64Paging {
  import opened Common
  import opened PageTree
  import opened PageTables
  import opened LargePages

  datatype Status = Ok | NoMemory | Invalid

  datatype Prot = Prot(read: bool, write: bool, exec: bool, user: bool)

  datatype Attr = Attr(device: bool, readOnly: bool, user: bool, notGlobal: bool, pxn: bool, uxn: bool)

  function ProtToPte(p: Prot, device: bool): (a: Attr) {
    if p.user then Attr(device, !p.write, true, true, true, !p.exec)
    else Attr(device, !p.write, false, false, !p.exec, true)
  }

  function PteToProt(a: Attr): (p: Prot) {
    Prot(true, !a.readOnly, !a.pxn, a.user)
  }

  /** The bits of an entry are those the protection asks for. A user page is not global and the kernel may never
      execute it; user code may never execute a kernel page. */
  ghost predicate AsAsked(p: Prot, a: Attr) {
    && (a.readOnly <==> !p.write) && (a.user <==> p.user) && (a.notGlobal <==> p.user)
    && (a.pxn <==> p.user || !p.exec) && (a.uxn <==> !p.user || !p.exec)
  }

  const PAGES: nat := Span(3)
  const VA_LIMIT: nat := PAGES * PAGE_SIZE

  /** Reported execute permission is the kernel's: a user page never reports it. */
  lemma ProtRoundTrip(p: Prot, device: bool)
    ensures PteToProt(ProtToPte(p, device)) == p.(read := true, exec := p.exec && !p.user)
  {
  }

  method MapOne(pt: Tables<Attr>, va: nat, pa: nat, flags: Attr) returns (r: Status)
    requires pt.Valid() && pt.top == 2 && va < VA_LIMIT
    modifies pt
    ensures pt.Valid() && pt.refusals >= old(pt.refusals)
    ensures r == Ok || r == NoMemory
    ensures r == Ok <==> pt.refusals == old(pt.refusals)
    ensures r == NoMemory ==> forall q: nat :: q < PAGES ==> pt.Page(q) == old(pt.Page(q))
    ensures r == Ok ==> forall q: nat :: q < PAGES ==>
              pt.Page(q) == if q == va / PAGE_SIZE then Some((pa / PAGE_SIZE, flags)) else old(pt.Page(q))
  {
    hide Wf, TableOk, Owned, Lookup, Reach, Interp, Extends, EntryOk, Index;
    var v, pfn := va / PAGE_SIZE, pa / PAGE_SIZE;
    RootOwned(pt.mem, pt.place, pt.root, 2);
    var l2 := pt.Walk(pt.root, Index(v, 2), 2, true, v);
    if l2.None? {
      return NoMemory;
    }
    var l3 := pt.Walk(l2.value, Index(v, 1), 1, true, v);
    if l3.None? {
      return NoMemory;
    }
    SetLeaf(pt, l3.value, v, pfn, flags, 0);
    return Ok;
  }

  method ArchMap(pt: Tables<Attr>, va: nat, pa: nat, len: nat, prot: Prot, ramBase: nat) returns (r: Status)
    requires pt.Valid() && pt.top == 2 && va + len <= VA_LIMIT
    modifies pt
    ensures pt.Valid() && pt.refusals >= old(pt.refusals)
    ensures r == Invalid <==> va % PAGE_SIZE != 0 || pa % PAGE_SIZE != 0
    ensures r == NoMemory <==> pt.refusals > old(pt.refusals)
    ensures r == Invalid ==> pt.View() == old(pt.View())
    ensures r == Ok ==>
              pt.View() == FlatMap(old(pt.View()), va / PAGE_SIZE, PageCount(len), pa / PAGE_SIZE,
                                   ProtToPte(prot, pa < ramBase))
    ensures r == Ok ==>
              exists a :: AsAsked(prot, a) && (a.device <==> pa < ramBase)
                          && BytesMapped(old(pt.View()), pt.View(), va, pa, len, a)
    ensures r == NoMemory ==>
              PartlyMapped(old(pt.View()), pt.View(), va / PAGE_SIZE, PageCount(len), pa / PAGE_SIZE,
                           ProtToPte(prot, pa < ramBase))
  {
    hide Wf, TableOk, Owned, Lookup, Reach, Interp, PageCount, FlatMap;
    if va % PAGE_SIZE != 0 || pa % PAGE_SIZE != 0 {
      return Invalid;
    }
    var flags := ProtToPte(prot, pa < ramBase);
    ghost var v, pfn, view := va / PAGE_SIZE, pa / PAGE_SIZE, pt.View();
    RangeFits(va, len, PAGES);
    MapNothing(view, v, pfn, flags);
    var off := 0;
    ghost var k := 0;
    while off < len
      invariant pt.Valid() && off == k * PAGE_SIZE && pt.refusals == old(pt.refusals)
      invariant k <= PageCount(len)
      invariant forall q: nat :: q < PAGES ==> pt.Page(q) == Get(FlatMap(view, v, k, pfn, flags), q)
    {
      StepPages(va, len, k, 0);
      StepPages(pa, len, k, 0);
      r := MapOne(pt, va + off, pa + off, flags);
      if r != Ok {
        MapKeys(view, v, k, pfn, flags);
        pt.ViewIs(FlatMap(view, v, k, pfn, flags));
        return r;
      }
      StepRun(len, k, 1);
      forall q: nat | q < PAGES
        ensures pt.Page(q) == Get(FlatMap(view, v, k + 1, pfn, flags), q)
      {
        MapAt(view, v, k, 1, pfn, flags, q);
      }
      off, k := off + PAGE_SIZE, k + 1;
    }
    PagesDone(k, len);
    MapKeys(view, v, k, pfn, flags);
    pt.ViewIs(FlatMap(view, v, k, pfn, flags));
    assert AsAsked(prot, flags);
    hide ProtToPte, AsAsked, BytesMapped;
    FlatBytes(view, va, pa, len, flags);
    r := Ok;
  }

  /** Find the entry that decides `va`. When splitting is asked for, missing tables
      are also created, and the entry found is always a 4 KiB one. */
  method FindLeaf(pt: Tables<Attr>, va: nat, split: bool) returns (leaf: Option<Leaf>)
    requires pt.Valid() && pt.top == 2 && va < VA_LIMIT
    modifies if split then {pt} else {}
    ensures pt.Valid() && pt.refusals >= old(pt.refusals)
    ensures forall q: nat :: q < PAGES ==> pt.Page(q) == old(pt.Page(q))
    ensures leaf.Some? ==> Decides(pt, leaf.value, va / PAGE_SIZE)
    ensures leaf.Some? && split ==> leaf.value.level == 0
    ensures leaf.Some? ==> pt.refusals == old(pt.refusals)
    ensures leaf.None? ==> if split then pt.refusals > old(pt.refusals) else pt.Page(va / PAGE_SIZE) == None
  {
    hide Reach, Owned, Together, Index, Lookup;
    var v := va / PAGE_SIZE;
    RootOwned(pt.mem, pt.place, pt.root, 2);
    assert TableOk(pt.mem, pt.place, pt.root);
    var e := pt.mem[pt.root][Index(v, 2)];
    if e.Pte? && e.block && !split {
      LeafDecides(pt, pt.root, 2, v);
      return Some(Leaf(pt.root, Index(v, 2), 2));
    }
    var l2 := pt.Walk(pt.root, Index(v, 2), 2, split, v);
    if l2.None? {
      return None;
    }
    assert TableOk(pt.mem, pt.place, l2.value);
    e := pt.mem[l2.value][Index(v, 1)];
    if e.Pte? && e.block && !split {
      LeafDecides(pt, l2.value, 1, v);
      return Some(Leaf(l2.value, Index(v, 1), 1));
    }
    var l3 := pt.Walk(l2.value, Index(v, 1), 1, split, v);
    if l3.None? {
      return None;
    }
    assert TableOk(pt.mem, pt.place, l3.value);
    LeafDecides(pt, l3.value, 0, v);
    return Some(Leaf(l3.value, Index(v, 0), 0));
  }

  /** The split-first unmap removes exactly the named pages; where a split was
      refused it may leave a named page mapped, and never touches any other. */
  method ArchUnmap(pt: Tables<Attr>, va: nat, len: nat)
    requires pt.Valid() && pt.top == 2 && va + len <= VA_LIMIT
    modifies pt
    ensures pt.Valid() && pt.refusals >= old(pt.refusals)
    ensures pt.refusals == old(pt.refusals) ==> pt.View() == FlatUnmap(old(pt.View()), va / PAGE_SIZE, PageCount(len))
    ensures pt.refusals == old(pt.refusals) && va % PAGE_SIZE == 0 ==>
              BytesUnmapped(old(pt.View()), pt.View(), va, len)
    ensures forall q: nat :: q < PAGES ==>
              pt.Page(q) == old(pt.Page(q)) ||
              (pt.Page(q) == None && va / PAGE_SIZE <= q < va / PAGE_SIZE + PageCount(len))
  {
    hide Wf, TableOk, Owned, Lookup, Reach, Interp, PageCount, FlatUnmap;
    ghost var v, n, view := va / PAGE_SIZE, PageCount(len), pt.View();
    RangeFits(va, len, PAGES);
    forall q: nat | q < PAGES
      ensures Get(view, q) == pt.Page(q)
    {
      pt.InView(q);
    }
    var done := 0;
    ghost var k := 0;
    while done < len
      invariant pt.Valid() && done == k * PAGE_SIZE && pt.refusals >= old(pt.refusals) && k <= n
      invariant forall q: nat :: q < PAGES ==>
                  pt.Page(q) == old(pt.Page(q)) || (pt.Page(q) == None && v <= q < v + k)
      invariant pt.refusals == old(pt.refusals) ==> forall q: nat :: v <= q < v + k ==> pt.Page(q) == None
    {
      StepPages(va, len, k, 0);
      var psize := PAGE_SIZE;
      var leaf := FindLeaf(pt, va + done, true);
      if leaf.Some? {
        ClearPage(pt, leaf.value, v + k);
      }
      done, k := done + psize, k + 1;
    }
    PagesDone(k, len);
    if pt.refusals == old(pt.refusals) {
      forall q: nat | q < PAGES
        ensures pt.Page(q) == Get(FlatUnmap(view, v, n), q)
      {
        UnmapAt(view, v, n, q);
      }
      UnmapAt(view, v, n, 0);
      pt.ViewIs(FlatUnmap(view, v, n));
      hide BytesUnmapped;
      if va % PAGE_SIZE == 0 {
        FlatUnmapBytes(view, va, len);
      }
    }
  }

  method ClearPage(pt: Tables<Attr>, leaf: Leaf, ghost v: nat)
    requires pt.Valid() && pt.top == 2 && v < PAGES && Decides(pt, leaf, v) && leaf.level == 0
    modifies pt`mem
    ensures pt.Valid()
    ensures forall q: nat :: q < PAGES ==> pt.Page(q) == if q == v then None else old(pt.Page(q))
  {
    hide Wf, TableOk, Owned, Lookup, Reach, Interp, Index;
    pt.SetEntry(leaf.table, leaf.index, 0, Absent, v);
  }

  /** New attributes keep the memory type the page already had. */
  function Rekey(prot: Prot): (f: Attr -> Attr) {
    (a: Attr) => ProtToPte(prot, a.device)
  }

  method ProtectHere(pt: Tables<Attr>, cur: nat, left: nat, prot: Prot) returns (psize: nat, ghost hit: bool)
    requires pt.Valid() && pt.top == 2 && cur < VA_LIMIT && left > 0
    modifies pt
    ensures pt.Valid() && pt.refusals >= old(pt.refusals)
    ensures !hit ==> pt.refusals > old(pt.refusals) && psize == PAGE_SIZE
    ensures psize == PAGE_SIZE || (psize % PAGE_SIZE == 0 && 0 < psize <= left)
    ensures forall q: nat :: q < PAGES ==>
              pt.Page(q) == Reprotect(old(pt.Page(q)),
                                      hit && cur / PAGE_SIZE <= q < cur / PAGE_SIZE + psize / PAGE_SIZE, Rekey(prot))
  {
    hide Wf, TableOk, Owned, Lookup, Reach, Interp, Together, Index;
    psize := PAGE_SIZE;
    var leaf := FindLeaf(pt, cur, false);
    if leaf.None? {
      return psize, true;
    }
    psize := Span(leaf.value.level) * PAGE_SIZE;
    var e := pt.mem[leaf.value.table][leaf.value.index];
    // An empty entry has the table bit clear too, so it may be looked up again.
    if (e.Absent? || e.block) && (cur % psize != 0 || left < psize) {
      psize := PAGE_SIZE;
      leaf := FindLeaf(pt, cur, true);
      if leaf.None? {
        return psize, false;
      }
    }
    AlignedStart(cur, leaf.value.level);
    SetProt(pt, leaf.value, Rekey(prot), cur / PAGE_SIZE);
    return psize, true;
  }

  method ArchProtect(pt: Tables<Attr>, va: nat, len: nat, prot: Prot)
    requires pt.Valid() && pt.top == 2 && va + len <= VA_LIMIT
    modifies pt
    ensures pt.Valid() && pt.refusals >= old(pt.refusals)
    ensures PartlyProtected(old(pt.View()), pt.View(), va / PAGE_SIZE, PageCount(len), Rekey(prot))
    ensures pt.refusals == old(pt.refusals) ==>
              pt.View() == FlatProtect(old(pt.View()), va / PAGE_SIZE, PageCount(len), Rekey(prot))
    ensures pt.refusals == old(pt.refusals) && va % PAGE_SIZE == 0 ==>
              exists f: Attr -> Attr :: (forall x :: AsAsked(prot, f(x)) && f(x).device == x.device)
                          && BytesProtected(old(pt.View()), pt.View(), va, len, f)
  {
    hide Wf, TableOk, Owned, Lookup, Reach, Interp, PartlyProtected, FlatProtect, PageCount;
    var f := Rekey(prot);
    ghost var v0, view := va / PAGE_SIZE, pt.View();
    ghost var now := view;
    ProtectStart(view, v0, f);
    var done := 0;
    ghost var k := 0;
    while done < len
      invariant pt.Valid() && done == k * PAGE_SIZE && pt.refusals >= old(pt.refusals)
      invariant k <= PageCount(len) && now.Keys == view.Keys
      invariant forall q: nat :: q < PAGES ==> pt.Page(q) == Get(now, q)
      invariant PartlyProtected(view, now, v0, k, f)
      invariant pt.refusals == old(pt.refusals) ==> now == FlatProtect(view, v0, k, f)
    {
      StepPages(va, len, k, 0);
      var psize, hit := ProtectHere(pt, va + done, len - done, prot);
      ghost var n := psize / PAGE_SIZE;
      assert psize == n * PAGE_SIZE;
      StepRun(len, k, n);
      ProtectStep(view, now, v0, k, n, f);
      ghost var next := if hit then FlatProtect(now, v0 + k, n, f) else now;
      forall q: nat | q < PAGES
        ensures pt.Page(q) == Get(next, q)
      {
        ProtectAt(now, v0 + k, n, f, q);
      }
      done, k, now := done + psize, k + n, next;
    }
    PagesDone(k, len);
    pt.ViewIs(now);
    assert forall x :: AsAsked(prot, f(x)) && f(x).device == x.device;
    hide ProtToPte, AsAsked, BytesProtected, Rekey;
    if va % PAGE_SIZE == 0 {
      FlatProtectBytes(view, va, len, f);
    }
  }

  method ArchTranslate(pt: Tables<Attr>, va: nat) returns (r: Option<(nat, Prot)>)
    requires pt.Valid() && pt.top == 2 && va < VA_LIMIT
    ensures r == match pt.Page(va / PAGE_SIZE)
                 case None => None
                 case Some((pfn, a)) => Some((pfn * PAGE_SIZE + va % PAGE_SIZE, PteToProt(a)))
  {
    hide Wf, TableOk, Owned, Lookup, Reach, Interp, Index;
    var leaf := FindLeaf(pt, va, false);
    if leaf.None? {
      return None;
    }
    var e := pt.mem[leaf.value.table][leaf.value.index];
    if e.Absent? {
      return None;
    }
    OffsetInLeaf(va, leaf.value.level);
    return Some((e.pfn * PAGE_SIZE + va % (Span(leaf.value.level) * PAGE_SIZE), PteToProt(e.attr)));
  }

  datatype Op =
    | Map(va: nat, pa: nat, len: nat, prot: Prot)
    | Unmap(va: nat, len: nat)
    | Protect(va: nat, len: nat, prot: Prot)

  ghost function FlatStep(m: map<nat, (nat, Attr)>, op: Op, ramBase: nat): map<nat, (nat, Attr)> {
    match op
    case Map(va, pa, len, prot) =>
      if va % PAGE_SIZE != 0 || pa % PAGE_SIZE != 0 then m
      else FlatMap(m, va / PAGE_SIZE, PageCount(len), pa / PAGE_SIZE, ProtToPte(prot, pa < ramBase))
    case Unmap(va, len) => FlatUnmap(m, va / PAGE_SIZE, PageCount(len))
    case Protect(va, len, prot) => FlatProtect(m, va / PAGE_SIZE, PageCount(len), Rekey(prot))
  }

  ghost function FlatRun(m: map<nat, (nat, Attr)>, ops: seq<Op>, ramBase: nat): map<nat, (nat, Attr)> {
    if ops == [] then m else FlatStep(FlatRun(m, ops[..|ops| - 1], ramBase), ops[|ops| - 1], ramBase)
  }

  /** Any sequence of map, unmap and protect calls in which no allocation is refused acts on the tables,
      large blocks of the boot table included, exactly as on a flat map. */
  method Run(pt: Tables<Attr>, ops: seq<Op>, ramBase: nat)
    requires pt.Valid() && pt.top == 2
    requires forall i :: 0 <= i < |ops| ==> ops[i].va + ops[i].len <= VA_LIMIT
    modifies pt
    ensures pt.Valid() && pt.refusals >= old(pt.refusals)
    ensures pt.refusals == old(pt.refusals) ==> pt.View() == FlatRun(old(pt.View()), ops, ramBase)
  {
    hide Wf, TableOk, Owned, Lookup, Reach, Interp, PageCount, FlatMap, FlatUnmap, FlatProtect;
    assert ops[..0] == [];
    for i := 0 to |ops|
      invariant pt.Valid() && pt.refusals >= old(pt.refusals)
      invariant pt.refusals == old(pt.refusals) ==> pt.View() == FlatRun(old(pt.View()), ops[..i], ramBase)
    {
      assert ops[..i + 1][..i] == ops[..i];
      match ops[i] {
        case Map(va, pa, len, prot) => var _ := ArchMap(pt, va, pa, len, prot, ramBase);
        case Unmap(va, len) => ArchUnmap(pt, va, len);
        case Protect(va, len, prot) => ArchProtect(pt, va, len, prot);
      }
    }
    assert ops[..|ops|] == ops;
  }
}
