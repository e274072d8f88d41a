/** The table-walking code both ports have in common, as a class that updates
    tables in place: split_huge / split_block, walk, and storing one entry. */
module PageTables {
  import opened Common
  import opened PageTree

  class Tables<A> {
    const root: nat          // frame of the top-level table
    const top: nat           // its level: 3 on x86-64, 2 on aarch64
    const tableAttr: A       // attribute bits of an entry that points to a table

    var mem: Memory<A>
    var pool: seq<Option<nat>>   // the answers pmm_alloc_page will give; None is a refusal
    ghost var place: Places
    ghost var refusals: nat      // allocations refused so far

    ghost predicate Valid()
      reads this
    {
      && top <= 3 && root in place && place[root] == (top, 0)
      && Wf(mem, place)
      && (forall j :: 0 <= j < |pool| && pool[j].Some? ==> pool[j].value !in place)
      && (forall j, k :: 0 <= j < k < |pool| && pool[j].Some? ==> pool[k] != pool[j])
    }

    /** The leaf the hardware finds for a page. */
    ghost function Found(q: nat): Option<Hit<A>>
      requires top <= 3
      reads this
    {
      Lookup(mem, root, top, q)
    }

    /** The frame and attributes the hardware finds for a page. */
    ghost function Page(q: nat): Option<(nat, A)>
      requires top <= 3
      reads this
    {
      Mapping(Found(q))
    }

    /** The address space as a flat map from page number to frame and attributes. */
    ghost function View(): (v: map<nat, (nat, A)>)
      requires top <= 3
      reads this
    {
      map q: nat | q < Span(top + 1) && Page(q).Some? :: Page(q).value
    }

    lemma InView(q: nat)
      requires top <= 3 && q < Span(top + 1)
      ensures Get(View(), q) == Page(q)
    {
    }

    /** Agreeing page by page is agreeing as a flat map. */
    lemma ViewIs(m: map<nat, (nat, A)>)
      requires top <= 3
      requires forall q :: q in m ==> q < Span(top + 1)
      requires forall q: nat :: q < Span(top + 1) ==> Page(q) == Get(m, q)
      ensures View() == m
    {
      forall q: nat
        ensures q in View() <==> q in m
        ensures q in m ==> q in View() && View()[q] == m[q]
      {
        assert q < Span(top + 1) ==> Page(q) == Get(m, q);
      }
    }

    ghost predicate OwnedTable(t: nat)
      requires top <= 3
      reads this
    {
      Owned(mem, place, root, top, t)
    }

    /** An address space with no mappings. */
    constructor (root: nat, top: nat, tableAttr: A, pool: seq<Option<nat>>)
      requires top <= 3
      requires forall j :: 0 <= j < |pool| && pool[j].Some? ==> pool[j].value != root
      requires forall j, k :: 0 <= j < k < |pool| && pool[j].Some? ==> pool[k] != pool[j]
      ensures Valid() && this.root == root && this.top == top && this.pool == pool && refusals == 0
      ensures forall q: nat :: q < Span(top + 1) ==> Page(q) == None
    {
      this.root, this.top, this.tableAttr, this.pool := root, top, tableAttr, pool;
      var empty: seq<Pte<A>> := seq(FANOUT, _ => Absent);
      mem := map[root := empty];
      place := map[root := (top, 0)];
      refusals := 0;
    }

    method AllocPage() returns (pa: Option<nat>)
      requires Valid()
      modifies this`pool, this`refusals
      ensures Valid()
      ensures pa.None? <==> refusals > old(refusals)
      ensures refusals >= old(refusals)
      ensures pa.Some? ==> pa.value !in place && pa !in pool
    {
      if pool == [] {
        pa := None;
      } else {
        pa := pool[0];
        pool := pool[1..];
      }
      if pa.None? {
        refusals := refusals + 1;
      }
    }

    /** Replace a leaf by a table of smaller leaves. No translation changes. */
    method SplitHuge(t: nat, i: nat, level: nat, ghost v: nat) returns (ok: bool)
      requires Valid() && OwnedTable(t) && 1 <= level <= top && Serves(place, t, level, v) && i == Index(v, level)
      requires t in mem && |mem[t]| == FANOUT && mem[t][i].Pte?
      modifies this
      ensures Valid() && Extends(old(place), place) && refusals >= old(refusals)
      ensures forall q: nat :: q < Span(top + 1) ==> Page(q) == old(Page(q))
      ensures OwnedTable(t)
      ensures ok <==> refusals == old(refusals)
      ensures !ok ==> mem == old(mem) && place == old(place)
      ensures ok ==> t in mem && |mem[t]| == FANOUT && mem[t][i].Pte? && !mem[t][i].block
      ensures ok && !old(mem[t][i].block) ==> mem == old(mem)
    {
      var e := mem[t][i];
      if !e.block {
        return true;
      }
      var pa := AllocPage();
      if pa.None? {
        return false;
      }
      hide Reach, Owned;
      DivStep(v, level);
      assert TableOk(mem, place, t);
      assert EntryOk(place, e, level, place[t].1 * FANOUT + i);
      var step := Span(level - 1);
      var base := e.pfn - e.pfn % Span(level);
      var child: seq<Pte<A>> := seq(FANOUT, _ => Absent);
      for k := 0 to FANOUT
        invariant |child| == FANOUT
        invariant forall j :: 0 <= j < k ==> child[j] == Pte(level == 2, base + j * step, e.attr)
      {
        child := child[k := Pte(level == 2, base + k * step, e.attr)];
      }
      InstallTable(t, i, level, pa.value, child, v);
      assert IsSplit(child, e, level);
      forall q: nat | q < Span(top + 1)
        ensures Page(q) == old(Page(q))
      {
        if Together(q, v, level) {
          SplitMeaning(mem, pa.value, e, level, q);
          LookupOwned(old(mem), old(place), root, top, t, i, q);
        }
      }
      ok := true;
    }

    /** Hang a fresh table of leaves or empty entries below entry `i` of `t`. */
    method InstallTable(t: nat, i: nat, level: nat, pa: nat, child: seq<Pte<A>>, ghost v: nat)
      requires Valid() && OwnedTable(t) && 1 <= level <= top && Serves(place, t, level, v) && i == Index(v, level)
      requires pa !in place && Some(pa) !in pool && |child| == FANOUT
      requires forall k :: 0 <= k < FANOUT && child[k].Pte? ==>
                 if level == 1 then !child[k].block
                 else child[k].block && level <= 3 && level - 1 <= 2 && child[k].pfn % Span(level - 1) == 0
      modifies this`mem, this`place
      ensures Valid() && Extends(old(place), place)
      ensures pa in place && Serves(place, pa, level - 1, v)
      ensures OwnedTable(t) && OwnedTable(pa)
      ensures t in mem && pa in mem && |mem[t]| == FANOUT && mem[t][i] == Pte(false, pa, tableAttr) && mem[pa] == child
      ensures forall q: nat :: q < Span(top + 1) ==>
                Found(q) == if Together(q, v, level)
                            then Lookup(mem, pa, level - 1, q) else old(Found(q))
    {
      hide Lookup, Reach;
      DivStep(v, level);
      assert TableOk(mem, place, t);
      ghost var slot := place[t].1 * FANOUT + i;
      mem := mem[pa := child];
      mem := mem[t := mem[t][i := Pte(false, pa, tableAttr)]];
      place := place[pa := (level - 1, slot)];
      forall f | f in place
        ensures TableOk(mem, place, f)
      {
        if f in old(place) {
          assert TableOk(old(mem), old(place), f);
        }
      }
      assert Rewrites(old(mem), mem, old(place), t, i);
      RewriteEffect(old(mem), mem, old(place), place, root, top, t, i);
      OwnedDown(mem, place, root, top, t, i);
    }

    /** Store one leaf or empty entry: exactly the pages it serves change. */
    method SetEntry(t: nat, i: nat, level: nat, e: Pte<A>, ghost v: nat)
      requires Valid() && OwnedTable(t) && level <= top && Serves(place, t, level, v) && i == Index(v, level)
      requires e.Pte? ==> if level == 0 then !e.block else e.block && level <= 2 && e.pfn % Span(level) == 0
      modifies this`mem
      ensures Valid() && OwnedTable(t)
      ensures forall q: nat :: q < Span(top + 1) ==>
                Found(q) == if Together(q, v, level)
                            then (if e.Absent? then None else Some(Hit(e.pfn + q % Span(level), e.attr, level)))
                            else old(Found(q))
    {
      DivStep(v, level);
      assert TableOk(mem, place, t);
      mem := mem[t := mem[t][i := e]];
      forall f | f in place
        ensures TableOk(mem, place, f)
      {
        assert TableOk(old(mem), old(place), f);
      }
      assert Rewrites(old(mem), mem, place, t, i);
      RewriteEffect(old(mem), mem, place, place, root, top, t, i);
    }

    /** One step down, creating or splitting the next table on request. Whatever it
        does to the tables, no translation changes. */
    method Walk(t: nat, i: nat, level: nat, create: bool, ghost v: nat) returns (r: Option<nat>)
      requires Valid() && OwnedTable(t) && 1 <= level <= top && Serves(place, t, level, v) && i == Index(v, level)
      modifies if create then {this} else {}
      ensures Valid() && Extends(old(place), place) && refusals >= old(refusals)
      ensures forall q: nat :: q < Span(top + 1) ==> Page(q) == old(Page(q))
      ensures r.Some? ==> OwnedTable(r.value) && Serves(place, r.value, level - 1, v)
      ensures r.Some? ==> refusals == old(refusals)
      ensures r.None? && create ==> refusals > old(refusals)
      ensures r.None? && !create && v < Span(top + 1) ==>
                Page(v) == None || (t in mem && |mem[t]| == FANOUT && mem[t][i].Pte? && mem[t][i].block)
    {
      DivStep(v, level);
      assert TableOk(mem, place, t);
      var e := mem[t][i];
      if e.Absent? {
        if !create {
          if v < Span(top + 1) {
            LookupOwned(mem, place, root, top, t, i, v);
          }
          return None;
        }
        var pa := AllocPage();
        if pa.None? {
          return None;
        }
        var zeroed: seq<Pte<A>> := seq(FANOUT, _ => Absent);
        InstallTable(t, i, level, pa.value, zeroed, v);
        forall q: nat | q < Span(top + 1)
          ensures Page(q) == old(Page(q))
        {
          if Together(q, v, level) {
            LookupOwned(old(mem), old(place), root, top, t, i, q);
          }
        }
        return pa;
      }
      if e.block {
        if !create {
          return None;
        }
        var ok := SplitHuge(t, i, level, v);
        if !ok {
          return None;
        }
        e := mem[t][i];
      }
      OwnedDown(mem, place, root, top, t, i);
      r := Some(e.pfn);
    }
  }

  /** In an owned table, an entry decides the translation of the pages it serves. */
  lemma LookupOwned<A>(mem: Memory<A>, place: Places, root: nat, top: nat, t: nat, i: nat, q: nat)
    requires Wf(mem, place) && Owned(mem, place, root, top, t) && i < FANOUT
    requires root in place && place[root] == (top, 0) && q < Span(top + 1)
    requires q / Span(place[t].0) == place[t].1 * FANOUT + i
    ensures t in mem && |mem[t]| == FANOUT
    ensures Lookup(mem, root, top, q) == Interp(mem, mem[t][i], place[t].0, q)
  {
    assert TableOk(mem, place, t);
    var level := place[t].0;
    DivStep(q, level);
    assert Serves(place, t, level, q);
    LookupVia(mem, place, root, top, q, level);
  }
}
