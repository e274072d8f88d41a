/** The multi-level page table shared by the x86-64 and aarch64 ports.

    Tables live in frames of physical memory and are updated in place. An entry
    is the zero word (Absent), a pointer to a lower table, or a leaf. `block` is
    the bit that makes an entry above the bottom level a leaf: PTE_HUGE set on
    x86-64, PTE_TABLE clear on aarch64. Levels count up from the bottom: 0 holds
    4 KiB pages, 1 holds 2 MiB leaves, 2 holds 1 GiB leaves, 3 is the PML4. */
module PageTree {
  import opened Common

  const PAGE_SIZE: nat := 4096
  const FANOUT: nat := 512

  datatype Pte<A> = Absent | Pte(block: bool, pfn: nat, attr: A)

  type Memory<A> = map<nat, seq<Pte<A>>>

  /** Pages covered by one entry of a table at this level. */
  function Span(level: nat): (s: nat)
    requires level <= 4
    ensures s > 0
  {
    if level == 0 then 1
    else if level == 1 then 512
    else if level == 2 then 262144
    else if level == 3 then 134217728
    else 68719476736
  }

  function Index(q: nat, level: nat): (i: nat)
    requires level <= 3
    ensures i < FANOUT
  {
    (q / Span(level)) % FANOUT
  }

  /** The index of a page in the table of each level is nine bits of its number. */
  lemma IndexBits(q: nat)
    requires q < 512 * 512 * 512 * 512
    ensures q == ((Index(q, 3) * 512 + Index(q, 2)) * 512 + Index(q, 1)) * 512 + Index(q, 0)
  {
    var a, b, c := q / 512, q / 262144, q / 134217728;
    assert b == a / 512 && c == b / 512;
  }

  /** The outcome of a walk: the frame, its attributes and the level of the leaf. */
  datatype Hit<A> = Hit(pfn: nat, attr: A, level: nat)

  /** Where the hardware walk for page `q` ends, starting at table `t`. */
  ghost function Lookup<A>(mem: Memory<A>, t: nat, level: nat, q: nat): Option<Hit<A>>
    requires level <= 3
    decreases level, 1
  {
    if t !in mem || |mem[t]| != FANOUT then None
    else Interp(mem, mem[t][Index(q, level)], level, q)
  }

  ghost function Interp<A>(mem: Memory<A>, e: Pte<A>, level: nat, q: nat): Option<Hit<A>>
    requires level <= 3
    decreases level, 0
  {
    if e.Absent? then None
    else if level == 0 then Some(Hit(e.pfn, e.attr, 0))
    else if e.block then Some(Hit(e.pfn + q % Span(level), e.attr, level))
    else Lookup(mem, e.pfn, level - 1, q)
  }

  /** What a walk says about a page, whatever the size of the leaf. */
  ghost function Mapping<A>(h: Option<Hit<A>>): Option<(nat, A)> {
    if h.None? then None else Some((h.value.pfn, h.value.attr))
  }

  /** The table at level `target` on the walk for `q`, if the walk gets there. */
  ghost function Reach<A>(mem: Memory<A>, t: nat, level: nat, q: nat, target: nat): Option<nat>
    requires target <= level <= 3
    decreases level
  {
    if level == target then Some(t)
    else if t !in mem || |mem[t]| != FANOUT then None
    else
      var e := mem[t][Index(q, level)];
      if e.Absent? || e.block then None else Reach(mem, e.pfn, level - 1, q, target)
  }

  /** Each table frame sits at one level and serves one virtual prefix, so the
      tables below a live table form a tree. `slot` is the prefix an entry serves. */
  type Places = map<nat, (nat, nat)>

  ghost predicate EntryOk<A>(place: Places, e: Pte<A>, level: nat, slot: nat)
    requires level <= 3
  {
    e.Pte? ==>
      && (level == 0 ==> !e.block)
      && (level > 0 && e.block ==> level <= 2 && e.pfn % Span(level) == 0)
      && (level > 0 && !e.block ==> e.pfn in place && place[e.pfn] == (level - 1, slot))
  }

  ghost predicate TableOk<A>(mem: Memory<A>, place: Places, t: nat)
    requires t in place
  {
    && t in mem && |mem[t]| == FANOUT && place[t].0 <= 3
    && forall i :: 0 <= i < FANOUT ==> EntryOk(place, mem[t][i], place[t].0, place[t].1 * FANOUT + i)
  }

  ghost predicate Wf<A>(mem: Memory<A>, place: Places)
  {
    forall t :: t in place ==> TableOk(mem, place, t)
  }

  /** Table `t` serves the page `q`. */
  ghost predicate Serves(place: Places, t: nat, level: nat, q: nat)
    requires level <= 3
  {
    t in place && place[t] == (level, q / Span(level + 1))
  }

  /** The two pages are served by the same entry of a table at this level. */
  predicate Together(q: nat, r: nat, level: nat)
    requires level <= 4
  {
    q / Span(level) == r / Span(level)
  }

  /** Around an aligned page, "same entry" means "same aligned run of pages". */
  lemma AlignedRun(v: nat, level: nat, q: nat)
    requires level <= 3 && v % Span(level) == 0
    ensures Together(q, v, level) <==> v <= q < v + Span(level)
    ensures Together(q, v, level) ==> q % Span(level) == q - v
  {
  }

  lemma DivStep(q: nat, level: nat)
    requires level <= 3
    ensures q / Span(level) == (q / Span(level + 1)) * FANOUT + Index(q, level)
  {
  }

  /** Going down one pointer keeps serving the same page. */
  lemma ServesDown<A>(mem: Memory<A>, place: Places, t: nat, level: nat, q: nat)
    requires Wf(mem, place) && level <= 3 && Serves(place, t, level, q)
    ensures TableOk(mem, place, t)
    ensures var e := mem[t][Index(q, level)];
            level > 0 && e.Pte? && !e.block ==> Serves(place, e.pfn, level - 1, q)
  {
    assert TableOk(mem, place, t);
    DivStep(q, level);
    var i := Index(q, level);
    assert EntryOk(place, mem[t][i], level, place[t].1 * FANOUT + i);
  }

  /** A walk factors through any table it reaches. */
  lemma {:induction false} LookupVia<A>(mem: Memory<A>, place: Places, t: nat, level: nat, q: nat, target: nat)
    requires Wf(mem, place) && target <= level <= 3 && Serves(place, t, level, q)
    requires Reach(mem, t, level, q, target).Some?
    ensures Lookup(mem, t, level, q) == Lookup(mem, Reach(mem, t, level, q, target).value, target, q)
    decreases level
  {
    if level > target {
      ServesDown(mem, place, t, level, q);
      var e := mem[t][Index(q, level)];
      LookupVia(mem, place, e.pfn, level - 1, q, target);
    }
  }

  lemma SharedIndex(q: nat, r: nat, low: nat, level: nat)
    requires low <= level <= 3
    requires q / Span(low) == r / Span(low)
    ensures q / Span(level) == r / Span(level)
    decreases level - low
  {
    if low < level {
      DivStep(q, low);
      DivStep(r, low);
      assert q / Span(low + 1) == (q / Span(low)) / FANOUT;
      assert r / Span(low + 1) == (r / Span(low)) / FANOUT;
      SharedIndex(q, r, low + 1, level);
    }
  }

  /** All pages under one leaf find that leaf. */
  lemma {:induction false} RunShared<A>(mem: Memory<A>, t: nat, level: nat, q: nat, r: nat)
    requires level <= 3 && Lookup(mem, t, level, q).Some?
    requires Lookup(mem, t, level, q).value.level <= 3 && Together(q, r, Lookup(mem, t, level, q).value.level)
    ensures Lookup(mem, t, level, r).Some?
    ensures Lookup(mem, t, level, r).value.level == Lookup(mem, t, level, q).value.level
    decreases level
  {
    HitLevel(mem, t, level, q);
    SharedIndex(q, r, Lookup(mem, t, level, q).value.level, level);
    var e := mem[t][Index(q, level)];
    if level > 0 && !e.block {
      RunShared(mem, e.pfn, level - 1, q, r);
    }
  }

  lemma {:induction false} HitLevel<A>(mem: Memory<A>, t: nat, level: nat, q: nat)
    requires level <= 3 && Lookup(mem, t, level, q).Some?
    ensures Lookup(mem, t, level, q).value.level <= level
    decreases level
  {
    var e := mem[t][Index(q, level)];
    if level > 0 && !e.block {
      HitLevel(mem, e.pfn, level - 1, q);
    }
  }

  /** `mem'` is `mem` with entry `i` of table `w` rewritten, as far as the tables
      of `place` are concerned; frames outside `place` may hold anything. */
  ghost predicate Rewrites<A>(mem: Memory<A>, mem': Memory<A>, place: Places, w: nat, i: nat)
  {
    && w in place && w in mem && w in mem' && |mem[w]| == |mem'[w]| == FANOUT && i < FANOUT
    && (forall t :: t in place && t != w ==> t in mem && t in mem' && mem'[t] == mem[t])
    && (forall k :: 0 <= k < FANOUT && k != i ==> mem'[w][k] == mem[w][k])
  }

  /** Frame rule: a rewritten entry is invisible to the pages it does not serve. */
  lemma {:induction false} LookupElsewhere<A>(
      mem: Memory<A>, mem': Memory<A>, place: Places, w: nat, i: nat, t: nat, level: nat, q: nat)
    requires Wf(mem, place) && Rewrites(mem, mem', place, w, i)
    requires level <= 3 && Serves(place, t, level, q) && place[w].0 <= 3
    requires q / Span(place[w].0) != place[w].1 * FANOUT + i
    ensures Lookup(mem', t, level, q) == Lookup(mem, t, level, q)
    decreases level
  {
    ServesDown(mem, place, t, level, q);
    DivStep(q, level);
    var e := mem[t][Index(q, level)];
    assert mem'[t][Index(q, level)] == e;
    if level > 0 && e.Pte? && !e.block {
      LookupElsewhere(mem, mem', place, w, i, e.pfn, level - 1, q);
    }
  }

  /** A rewritten entry leaves the walk down to its own table alone. */
  lemma {:induction false} ReachAbove<A>(
      mem: Memory<A>, mem': Memory<A>, place: Places, w: nat, i: nat, t: nat, level: nat, q: nat, target: nat)
    requires Wf(mem, place) && Rewrites(mem, mem', place, w, i)
    requires target <= level <= 3 && Serves(place, t, level, q) && place[w].0 <= target
    ensures Reach(mem', t, level, q, target) == Reach(mem, t, level, q, target)
    decreases level
  {
    if level > target {
      ServesDown(mem, place, t, level, q);
      var e := mem[t][Index(q, level)];
      if e.Pte? && !e.block {
        ReachAbove(mem, mem', place, w, i, e.pfn, level - 1, q, target);
      }
    }
  }

  /** Every walk into the region of table `w` passes through `w`. */
  ghost predicate Owned<A>(mem: Memory<A>, place: Places, root: nat, top: nat, w: nat)
  {
    && w in place && place[w].0 <= top <= 3
    && forall q: nat :: q < Span(top + 1) && Serves(place, w, place[w].0, q)
                   ==> Reach(mem, root, top, q, place[w].0) == Some(w)
  }

  ghost predicate Extends(place: Places, place': Places)
  {
    forall t :: t in place ==> t in place' && place'[t] == place[t]
  }

  /** What rewriting one entry does to the walk for one page. */
  lemma RewriteAt<A>(mem: Memory<A>, mem': Memory<A>, place: Places, place': Places,
                     root: nat, top: nat, w: nat, i: nat, q: nat)
    requires Wf(mem, place) && Wf(mem', place') && Extends(place, place')
    requires Rewrites(mem, mem', place, w, i)
    requires top <= 3 && root in place && place[root] == (top, 0) && q < Span(top + 1)
    requires Owned(mem, place, root, top, w)
    ensures Lookup(mem', root, top, q) ==
            if q / Span(place[w].0) == place[w].1 * FANOUT + i
            then Interp(mem', mem'[w][i], place[w].0, q) else Lookup(mem, root, top, q)
    ensures Serves(place', w, place[w].0, q) ==> Reach(mem', root, top, q, place[w].0) == Some(w)
  {
    hide Lookup, Interp, Reach, Wf, TableOk;
    var level := place[w].0;
    DivStep(q, level);
    if Serves(place', w, level, q) {
      assert Serves(place, w, level, q);
      ReachAbove(mem, mem', place, w, i, root, top, q, level);
    }
    if q / Span(level) == place[w].1 * FANOUT + i {
      assert Serves(place', w, level, q);
      LookupVia(mem', place', root, top, q, level);
      LookupOne(mem', w, level, q);
    } else {
      LookupElsewhere(mem, mem', place, w, i, root, top, q);
    }
  }

  lemma LookupOne<A>(mem: Memory<A>, t: nat, level: nat, q: nat)
    requires level <= 3 && t in mem && |mem[t]| == FANOUT
    ensures Lookup(mem, t, level, q) == Interp(mem, mem[t][Index(q, level)], level, q)
  {
  }

  /** What rewriting one entry does to the whole address space. */
  lemma RewriteEffect<A>(mem: Memory<A>, mem': Memory<A>, place: Places, place': Places,
                         root: nat, top: nat, w: nat, i: nat)
    requires Wf(mem, place) && Wf(mem', place') && Extends(place, place')
    requires Rewrites(mem, mem', place, w, i)
    requires top <= 3 && root in place && place[root] == (top, 0)
    requires Owned(mem, place, root, top, w)
    ensures forall q: nat :: q < Span(top + 1) ==>
              Lookup(mem', root, top, q) ==
              if q / Span(place[w].0) == place[w].1 * FANOUT + i
              then Interp(mem', mem'[w][i], place[w].0, q) else Lookup(mem, root, top, q)
    ensures Owned(mem', place', root, top, w)
  {
    hide Lookup, Interp, Reach, Wf, TableOk;
    forall q: nat | q < Span(top + 1)
      ensures Lookup(mem', root, top, q) ==
              if q / Span(place[w].0) == place[w].1 * FANOUT + i
              then Interp(mem', mem'[w][i], place[w].0, q) else Lookup(mem, root, top, q)
      ensures Serves(place', w, place[w].0, q) ==> Reach(mem', root, top, q, place[w].0) == Some(w)
    {
      RewriteAt(mem, mem', place, place', root, top, w, i, q);
    }
  }

  /** The table an owned table points to is owned too. */
  lemma OwnedDown<A>(mem: Memory<A>, place: Places, root: nat, top: nat, w: nat, i: nat)
    requires Wf(mem, place) && Owned(mem, place, root, top, w) && place[w].0 > 0 && i < FANOUT
    requires root in place && place[root] == (top, 0)
    requires w in mem && |mem[w]| == FANOUT && mem[w][i].Pte? && !mem[w][i].block
    ensures var c := mem[w][i].pfn;
            && c in place && place[c] == (place[w].0 - 1, place[w].1 * FANOUT + i)
            && Owned(mem, place, root, top, c)
  {
    var level := place[w].0;
    var c := mem[w][i].pfn;
    assert TableOk(mem, place, w);
    assert EntryOk(place, mem[w][i], level, place[w].1 * FANOUT + i);
    var down := level - 1;
    forall q: nat | q < Span(top + 1) && Serves(place, c, down, q)
      ensures Reach(mem, root, top, q, down) == Some(c)
    {
      DivStep(q, level);
      assert Serves(place, w, level, q);
      ReachStep(mem, root, top, q, level);
    }
  }

  lemma {:induction false} ReachStep<A>(mem: Memory<A>, t: nat, level: nat, q: nat, target: nat)
    requires 0 < target <= level <= 3
    requires Reach(mem, t, level, q, target).Some?
    ensures var w := Reach(mem, t, level, q, target).value;
            Reach(mem, t, level, q, target - 1) == Reach(mem, w, target, q, target - 1)
    decreases level
  {
    if level > target {
      ReachStep(mem, mem[t][Index(q, level)].pfn, level - 1, q, target);
    }
  }

  lemma RootOwned<A>(mem: Memory<A>, place: Places, root: nat, top: nat)
    requires top <= 3 && root in place && place[root] == (top, 0)
    ensures Owned(mem, place, root, top, root)
  {
  }

  /** The content of a split: the new table covers the same memory with
      the same attributes as the leaf it replaces. */
  ghost predicate IsSplit<A>(child: seq<Pte<A>>, e: Pte<A>, level: nat)
    requires 1 <= level <= 3 && e.Pte?
  {
    && |child| == FANOUT
    && forall k :: 0 <= k < FANOUT ==> child[k] == Pte(level == 2, e.pfn + k * Span(level - 1), e.attr)
  }

  lemma SplitMeaning<A>(mem: Memory<A>, c: nat, e: Pte<A>, level: nat, q: nat)
    requires 1 <= level <= 2 && e.Pte? && e.block && e.pfn % Span(level) == 0
    requires c in mem && IsSplit(mem[c], e, level)
    ensures Mapping(Lookup(mem, c, level - 1, q)) == Mapping(Interp(mem, e, level, q))
  {
    var k := Index(q, level - 1);
    var small := mem[c][k];
    assert small == Pte(level == 2, e.pfn + k * Span(level - 1), e.attr);
    SplitOffset(q, level);
    assert Lookup(mem, c, level - 1, q) == Interp(mem, small, level - 1, q);
  }

  lemma SplitOffset(q: nat, level: nat)
    requires 1 <= level <= 2
    ensures Index(q, level - 1) * Span(level - 1) + q % Span(level - 1) == q % Span(level)
  {
    if level == 1 {
      assert q % 512 == q / 1 % 512;
    } else {
      assert q % 262144 == q / 512 % 512 * 512 + q % 512;
    }
  }
}
