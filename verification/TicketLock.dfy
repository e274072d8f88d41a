/** The ticket lock (include/rk/spinlock.h): every atomic access of every processor is a step, in any interleaving. */
module TicketLock {
  import opened Common

  const NOBODY: nat := 0xFFFF_FFFF

  /** Where a processor is. A ticket is the 32-bit number drawn; `turn` is the unbounded number it stands
      for, and `since` the number of tickets served when a try began: neither is part of the program. */
  datatype Pc =
    | Idle
    | Waiting(ticket: nat, turn: nat)
    | Entered
    | Owning
    | Leaving
    | TryHead(head: nat, since: nat)
    | TryTail(tail: nat, since: nat)

  /** `arrived` are the processors in the order their tickets were issued, `granted` in the order they got
      the lock, `served` the number of unlocks. `overrun` says that a compare-and-swap has succeeded 2^32
      or more tickets after its try began, with tickets out. */
  datatype State = State(head: nat, tail: nat, owner: nat, pcs: map<nat, Pc>,
                         arrived: seq<nat>, granted: seq<nat>, served: nat, overrun: bool)

  datatype Step = Draw(c: nat) | Look(c: nat) | SetOwner(c: nat) | ClearOwner(c: nat) | Release(c: nat)
                | LoadHead(c: nat) | LoadTail(c: nat) | Swap(c: nat)

  predicate Inside(pc: Pc) {
    pc.Entered? || pc.Owning? || pc.Leaving?
  }

  /** One step of one processor; a step it is not at changes nothing. */
  ghost function Next(s: State, step: Step): State {
    if step.c !in s.pcs then s
    else
      var c := step.c;
      var pc := s.pcs[c];
      match step
      case Draw(_) =>
        if pc.Idle? then
          s.(tail := (s.tail + 1) % U32, pcs := s.pcs[c := Waiting(s.tail, |s.arrived|)], arrived := s.arrived + [c])
        else s
      case Look(_) =>
        if pc.Waiting? && s.head == pc.ticket then s.(pcs := s.pcs[c := Entered], granted := s.granted + [c]) else s
      case SetOwner(_) => if pc.Entered? then s.(owner := c, pcs := s.pcs[c := Owning]) else s
      case ClearOwner(_) => if pc.Owning? then s.(owner := NOBODY, pcs := s.pcs[c := Leaving]) else s
      case Release(_) =>
        if pc.Leaving? then s.(head := (s.head + 1) % U32, pcs := s.pcs[c := Idle], served := s.served + 1) else s
      case LoadHead(_) => if pc.Idle? then s.(pcs := s.pcs[c := TryHead(s.head, s.served)]) else s
      case LoadTail(_) =>
        if pc.TryHead? then
          (if pc.head != s.tail then s.(pcs := s.pcs[c := Idle]) else s.(pcs := s.pcs[c := TryTail(s.tail, pc.since)]))
        else s
      case Swap(_) =>
        if pc.TryTail? then
          (if s.tail != pc.tail then s.(pcs := s.pcs[c := Idle])
           else s.(tail := (s.tail + 1) % U32, pcs := s.pcs[c := Entered], arrived := s.arrived + [c],
                   granted := s.granted + [c],
                   overrun := s.overrun || (|s.arrived| - pc.since >= U32 && s.served != |s.arrived|)))
        else s
  }

  ghost function Run(s: State, steps: seq<Step>): State
    decreases |steps|
  {
    if steps == [] then s else Run(Next(s, steps[0]), steps[1..])
  }

  ghost function Start(cpus: set<nat>): State {
    State(0, 0, NOBODY, map c | c in cpus :: Idle, [], [], 0, false)
  }

  /** Ticket `n` is out: its processor waits with it, or is inside by it if it is the one being served. */
  ghost predicate Out(s: State, n: nat) {
    && n < |s.arrived| && s.arrived[n] in s.pcs
    && var pc := s.pcs[s.arrived[n]];
       (pc.Waiting? && pc.turn == n) || (Inside(pc) && n == s.served)
  }

  ghost predicate PcOk(s: State, c: nat) {
    && c in s.pcs
    && var pc := s.pcs[c];
       && (pc.Waiting? ==> s.served <= pc.turn < |s.arrived| && s.arrived[pc.turn] == c && pc.ticket == pc.turn % U32)
       && (Inside(pc) ==> s.served < |s.arrived| && s.arrived[s.served] == c)
       && (pc.TryHead? ==> pc.since <= s.served && pc.head == pc.since % U32)
       && (pc.TryTail? ==> pc.since <= s.served && pc.tail == pc.since % U32)
       && (pc.Owning? ==> s.owner == c)
  }

  /** Somebody is inside. */
  ghost predicate Busy(s: State) {
    s.served < |s.arrived| && s.arrived[s.served] in s.pcs && Inside(s.pcs[s.arrived[s.served]])
  }

  ghost predicate Ok(s: State) {
    && |s.pcs| < U32 && s.served <= |s.arrived|
    && s.head == s.served % U32 && s.tail == |s.arrived| % U32
    && (forall n :: s.served <= n < |s.arrived| ==> Out(s, n))
    && (forall c :: c in s.pcs ==> PcOk(s, c))
    && s.granted == s.arrived[..s.served + (if Busy(s) then 1 else 0)]
  }

  /** At most one processor is inside. */
  ghost predicate Exclusive(s: State) {
    forall c, d :: c in s.pcs && d in s.pcs && Inside(s.pcs[c]) && Inside(s.pcs[d]) ==> c == d
  }

  lemma OkExclusive(s: State)
    requires Ok(s)
    ensures Exclusive(s) && s.granted <= s.arrived
  {
    hide Out, Inside;
    forall c, d | c in s.pcs && d in s.pcs && Inside(s.pcs[c]) && Inside(s.pcs[d])
      ensures c == d
    {
      assert PcOk(s, c) && PcOk(s, d);
    }
  }

  /** Tickets out are fewer than processors, so fewer than 2^32. */
  lemma FewOut(s: State)
    requires Ok(s)
    ensures |s.arrived| - s.served < U32
  {
    var outstanding := s.arrived[s.served..];
    forall i, j | 0 <= i < j < |outstanding|
      ensures outstanding[i] != outstanding[j]
    {
      assert Out(s, s.served + i) && Out(s, s.served + j);
    }
    forall i | 0 <= i < |outstanding|
      ensures outstanding[i] in s.pcs.Keys
    {
      assert Out(s, s.served + i);
    }
    FitsIn(outstanding, s.pcs.Keys);
    assert |s.pcs.Keys| == |s.pcs|;
  }

  lemma {:induction false} FitsIn(xs: seq<nat>, within: set<nat>)
    requires forall i, j :: 0 <= i < j < |xs| ==> xs[i] != xs[j]
    requires forall i :: 0 <= i < |xs| ==> xs[i] in within
    ensures |xs| <= |within|
  {
    if xs != [] {
      FitsIn(xs[1..], within - {xs[0]});
    }
  }

  lemma SameModulo(a: nat, b: nat)
    requires a <= b < a + U32 && a % U32 == b % U32
    ensures a == b
  {
  }

  lemma StepOk(s: State, step: Step)
    requires Ok(s) && !Next(s, step).overrun
    ensures Ok(Next(s, step))
  {
    hide Ok, Out, PcOk, Busy;
    if step.c in s.pcs {
      match step
      case Draw(c) => DrawOk(s, c);
      case Look(c) => LookOk(s, c);
      case Release(c) => ReleaseOk(s, c);
      case Swap(c) => SwapOk(s, c);
      case SetOwner(c) => InsideOk(s, step);
      case ClearOwner(c) => InsideOk(s, step);
      case LoadHead(c) => TryOk(s, step);
      case LoadTail(c) => TryOk(s, step);
    }
  }

  lemma DrawOk(s: State, c: nat)
    requires Ok(s) && c in s.pcs
    ensures Ok(Next(s, Draw(c)))
  {
    var s' := Next(s, Draw(c));
    if s.pcs[c].Idle? {
      Tickets(s, s', c);
    }
  }

  /** A processor outside the lock took the next ticket. */
  ghost predicate Took(s: State, s': State, c: nat) {
    && c in s.pcs && !s.pcs[c].Waiting? && !Inside(s.pcs[c]) && c in s'.pcs
    && s'.pcs == s.pcs[c := s'.pcs[c]] && s'.arrived == s.arrived + [c]
    && s'.served == s.served && s'.head == s.head && s'.owner == s.owner && s'.tail == (s.tail + 1) % U32
  }

  /** The tickets that were out still are. */
  lemma TookTickets(s: State, s': State, c: nat)
    requires Ok(s) && Took(s, s', c)
    ensures forall n :: s'.served <= n < |s.arrived| ==> Out(s', n)
  {
    hide PcOk;
    forall n | s'.served <= n < |s.arrived|
      ensures Out(s', n)
    {
      assert Out(s, n);
    }
  }

  /** The other processors stand as they did. */
  lemma TookOthers(s: State, s': State, c: nat)
    requires Ok(s) && Took(s, s', c)
    ensures forall d :: d in s'.pcs && d != c ==> PcOk(s', d)
  {
    hide Out;
    forall d | d in s'.pcs && d != c
      ensures PcOk(s', d)
    {
      assert PcOk(s, d);
    }
  }

  lemma TookOk(s: State, s': State, c: nat)
    requires Ok(s) && Took(s, s', c) && PcOk(s', c) && Out(s', |s.arrived|)
    requires s'.granted == s'.arrived[..s'.served + (if Busy(s') then 1 else 0)]
    ensures Ok(s')
  {
    hide Out, PcOk, Busy;
    TookTickets(s, s', c);
    TookOthers(s, s', c);
    NextCount(|s.arrived|);
    assert |s'.pcs| == |s'.pcs.Keys| == |s.pcs.Keys| == |s.pcs| by {
      assert s'.pcs.Keys == s.pcs.Keys;
    }
  }

  /** An idle processor waits with the next ticket. */
  lemma Tickets(s: State, s': State, c: nat)
    requires Ok(s) && c in s.pcs && s.pcs[c].Idle?
    requires s' == s.(tail := (s.tail + 1) % U32, pcs := s.pcs[c := Waiting(s.tail, |s.arrived|)],
                      arrived := s.arrived + [c])
    ensures Ok(s')
  {
    assert Busy(s') == Busy(s) by {
      assert s.served < |s.arrived| ==> Out(s, s.served);
    }
    hide Busy;
    TookOk(s, s', c);
  }

  lemma LookOk(s: State, c: nat)
    requires Ok(s) && c in s.pcs
    ensures Ok(Next(s, Look(c)))
  {
    var s' := Next(s, Look(c));
    FewOut(s);
    assert PcOk(s, c);
    if s.pcs[c].Waiting? && s.head == s.pcs[c].ticket {
      SameModulo(s.served, s.pcs[c].turn);
      assert s'.granted == s.arrived[..s.served + 1];
      forall n | s'.served <= n < |s'.arrived|
        ensures Out(s', n)
      {
        assert Out(s, n);
      }
      forall d | d in s'.pcs
        ensures PcOk(s', d)
      {
        assert PcOk(s, d);
      }
    }
  }

  lemma ReleaseOk(s: State, c: nat)
    requires Ok(s) && c in s.pcs
    ensures Ok(Next(s, Release(c)))
  {
    hide PcOk, Out, Busy, Inside;
    var s' := Next(s, Release(c));
    if s.pcs[c].Leaving? {
      ReleaseTickets(s, s', c);
      ReleasePcs(s, s', c);
      NextCount(s.served);
    }
  }

  lemma ReleaseTickets(s: State, s': State, c: nat)
    requires Ok(s) && c in s.pcs && s.pcs[c].Leaving? && s' == Next(s, Release(c))
    ensures forall n :: s'.served <= n < |s'.arrived| ==> Out(s', n) && s'.pcs[s'.arrived[n]].Waiting?
    ensures Busy(s) && !Busy(s') && s'.served <= |s'.arrived| && |s'.pcs| == |s.pcs|
  {
    assert PcOk(s, c);
    assert s'.pcs.Keys == s.pcs.Keys && |s'.pcs| == |s'.pcs.Keys|;
    forall n | s'.served <= n < |s'.arrived|
      ensures Out(s', n) && s'.pcs[s'.arrived[n]].Waiting?
    {
      assert Out(s, n);
    }
  }

  lemma ReleasePcs(s: State, s': State, c: nat)
    requires Ok(s) && c in s.pcs && s.pcs[c].Leaving? && s' == Next(s, Release(c))
    ensures forall d :: d in s'.pcs ==> PcOk(s', d)
  {
    OkExclusive(s);
    assert PcOk(s, c);
    forall d | d in s'.pcs
      ensures PcOk(s', d)
    {
      assert PcOk(s, d);
    }
  }

  lemma SwapOk(s: State, c: nat)
    requires Ok(s) && c in s.pcs && !Next(s, Swap(c)).overrun
    ensures Ok(Next(s, Swap(c)))
    ensures s.pcs[c].TryTail? && s.tail == s.pcs[c].tail ==> |s.arrived| == s.served && Inside(Next(s, Swap(c)).pcs[c])
  {
    var s' := Next(s, Swap(c));
    assert PcOk(s, c);
    if s.pcs[c].TryTail? {
      if s.tail == s.pcs[c].tail {
        if |s.arrived| - s.pcs[c].since < U32 {
          SameModulo(s.pcs[c].since, |s.arrived|);
        }
        Enters(s, s', c);
      } else {
        Gone(s, s', c);
      }
    }
  }

  /** With no ticket out the swap takes one and enters by it. */
  lemma Enters(s: State, s': State, c: nat)
    requires Ok(s) && Took(s, s', c) && s'.pcs[c] == Entered && s.served == |s.arrived| && s'.granted == s.granted + [c]
    ensures Ok(s')
  {
    assert !Busy(s) && Busy(s');
    hide Busy;
    assert s'.arrived[..s.served + 1] == s'.arrived;
    assert s.arrived[..s.served] == s.arrived;
    TookOk(s, s', c);
  }

  /** A processor with no ticket out changed what it is doing outside the lock. */
  lemma Gone(s: State, s': State, c: nat)
    requires Ok(s) && c in s.pcs && !s.pcs[c].Waiting? && !Inside(s.pcs[c]) && s' == s.(pcs := s'.pcs) && c in s'.pcs
    requires s'.pcs == s.pcs[c := s'.pcs[c]]
    requires !s'.pcs[c].Waiting? && !Inside(s'.pcs[c]) && PcOk(s', c)
    ensures Ok(s')
  {
    forall n | s'.served <= n < |s'.arrived|
      ensures Out(s', n)
    {
      assert Out(s, n);
    }
    forall d | d in s'.pcs && d != c
      ensures PcOk(s', d)
    {
      assert PcOk(s, d);
    }
  }

  lemma TryOk(s: State, step: Step)
    requires Ok(s) && step.c in s.pcs && (step.LoadHead? || step.LoadTail?)
    ensures Ok(Next(s, step))
  {
    var s', c := Next(s, step), step.c;
    assert PcOk(s, c);
    if s' != s {
      Gone(s, s', c);
    }
  }

  lemma InsideOk(s: State, step: Step)
    requires Ok(s) && step.c in s.pcs && (step.SetOwner? || step.ClearOwner?)
    ensures Ok(Next(s, step))
  {
    var s', c := Next(s, step), step.c;
    OkExclusive(s);
    assert PcOk(s, c);
    if s' != s {
      forall n | s'.served <= n < |s'.arrived|
        ensures Out(s', n)
      {
        assert Out(s, n);
      }
      forall d | d in s'.pcs
        ensures PcOk(s', d)
      {
        assert PcOk(s, d);
      }
    }
  }

  lemma StartOk(cpus: set<nat>)
    requires |cpus| < U32
    ensures Ok(Start(cpus))
  {
    assert Start(cpus).pcs.Keys == cpus;
    assert |Start(cpus).pcs| == |Start(cpus).pcs.Keys|;
  }

  lemma {:induction false} OverrunStays(s: State, steps: seq<Step>)
    requires s.overrun
    ensures Run(s, steps).overrun
    decreases |steps|
  {
    if steps != [] {
      OverrunStays(Next(s, steps[0]), steps[1..]);
    }
  }

  lemma {:induction false} EveryRun(s: State, steps: seq<Step>)
    requires Ok(s) && !Run(s, steps).overrun
    ensures Ok(Run(s, steps))
    decreases |steps|
  {
    if steps != [] {
      var t := Next(s, steps[0]);
      if t.overrun {
        OverrunStays(t, steps[1..]);
      }
      StepOk(s, steps[0]);
      EveryRun(t, steps[1..]);
    }
  }

  /** Any number of processors below 2^32, any interleaving: at most one is inside, and the lock is granted
      in the order tickets were issued, unless some compare-and-swap succeeded with tickets out, which takes 2^32
      tickets since its try began. */
  lemma MutualExclusion(cpus: set<nat>, steps: seq<Step>)
    requires |cpus| < U32 && !Run(Start(cpus), steps).overrun
    ensures Exclusive(Run(Start(cpus), steps)) && Run(Start(cpus), steps).granted <= Run(Start(cpus), steps).arrived
  {
    StartOk(cpus);
    EveryRun(Start(cpus), steps);
    OkExclusive(Run(Start(cpus), steps));
  }

  /** A try succeeds only when the lock is free at the swap, with nobody inside and no ticket out; and
      where none of its three accesses is interleaved it succeeds exactly then. */
  lemma TrySucceeds(s: State, c: nat)
    requires Ok(s) && c in s.pcs && s.pcs[c].TryTail? && !Next(s, Swap(c)).overrun
    ensures Inside(Next(s, Swap(c)).pcs[c]) ==> |s.arrived| == s.served && forall d :: d in s.pcs ==> !Inside(s.pcs[d])
  {
    SwapOk(s, c);
    forall d | d in s.pcs
      ensures Inside(s.pcs[d]) ==> s.served < |s.arrived|
    {
      assert PcOk(s, d);
    }
  }

  lemma TryAlone(s: State, c: nat)
    requires Ok(s) && c in s.pcs && s.pcs[c].Idle?
    ensures var r := Run(s, [LoadHead(c), LoadTail(c), Swap(c)]);
            c in r.pcs && (Inside(r.pcs[c]) <==> |s.arrived| == s.served)
  {
    FewOut(s);
    var a := Next(s, LoadHead(c));
    var b := Next(a, LoadTail(c));
    assert [LoadHead(c), LoadTail(c), Swap(c)][1..] == [LoadTail(c), Swap(c)];
    assert [LoadTail(c), Swap(c)][1..] == [Swap(c)];
    assert Run(b, [Swap(c)]) == Next(b, Swap(c));
    assert Run(a, [LoadTail(c), Swap(c)]) == Next(b, Swap(c));
    if s.head == s.tail {
      SameModulo(s.served, |s.arrived|);
    }
  }

  /** The processor whose turn it is gets the lock at its next look, and only that one can. */
  lemma NextServed(s: State, c: nat)
    requires Ok(s) && c in s.pcs && s.pcs[c].Waiting?
    ensures Inside(Next(s, Look(c)).pcs[c]) <==> s.arrived[s.served] == c
  {
    FewOut(s);
    assert PcOk(s, c);
    assert Out(s, s.served);
    if s.head == s.pcs[c].ticket {
      SameModulo(s.served, s.pcs[c].turn);
    }
  }

  /** The exception is real: after such a swap a second processor is inside at once, or at its next look. */
  lemma OverrunBreaks(s: State, c: nat)
    requires Ok(s) && !s.overrun && c in s.pcs && Next(s, Swap(c)).overrun
    ensures var t := Next(s, Swap(c));
            s.served < |s.arrived| && (!Exclusive(t) || !Exclusive(Next(t, Look(s.arrived[s.served]))))
  {
    var t, d := Next(s, Swap(c)), s.arrived[s.served];
    assert PcOk(s, c) && Out(s, s.served) && PcOk(s, d);
    assert d != c && t.pcs[d] == s.pcs[d] && Inside(t.pcs[c]);
    if s.pcs[d].Waiting? {
      var u := Next(t, Look(d));
      assert t.head == s.pcs[d].ticket;
      assert Inside(u.pcs[d]) && Inside(u.pcs[c]);
    }
  }

  /** One processor takes and leaves the lock. */
  function Round(d: nat): seq<Step> {
    [Draw(d), Look(d), SetOwner(d), ClearOwner(d), Release(d)]
  }

  function Rounds(d: nat, n: nat): seq<Step>
    decreases n
  {
    if n == 0 then [] else Round(d) + Rounds(d, n - 1)
  }

  lemma {:induction false} RunBoth(s: State, a: seq<Step>, b: seq<Step>)
    ensures Run(s, a + b) == Run(Run(s, a), b)
    decreases |a|
  {
    if a == [] {
      assert a + b == b;
    } else {
      assert (a + b)[1..] == a[1..] + b && (a + b)[0] == a[0];
      RunBoth(Next(s, a[0]), a[1..], b);
    }
  }

  /** Nobody holds or waits for the lock, and processor `d` is idle. */
  ghost predicate Resting(s: State, d: nat) {
    d in s.pcs && s.pcs[d].Idle? && s.served == |s.arrived| && s.head == s.tail == s.served % U32 && !s.overrun
  }

  lemma OneRound(s: State, d: nat)
    requires Resting(s, d)
    ensures var r := Run(s, Round(d)); Resting(r, d) && r.served == s.served + 1 && r.pcs == s.pcs
  {
    var a := Next(s, Draw(d));
    var b := Next(a, Look(d));
    var e := Next(Next(b, SetOwner(d)), ClearOwner(d));
    var r := Next(e, Release(d));
    var steps := Round(d);
    assert steps[1..] == [Look(d), SetOwner(d), ClearOwner(d), Release(d)];
    assert steps[1..][1..] == [SetOwner(d), ClearOwner(d), Release(d)];
    assert steps[1..][1..][1..] == [ClearOwner(d), Release(d)];
    assert steps[1..][1..][1..][1..] == [Release(d)];
    assert Run(e, [Release(d)]) == r;
    assert Run(Next(b, SetOwner(d)), [ClearOwner(d), Release(d)]) == r;
    assert Run(b, [SetOwner(d), ClearOwner(d), Release(d)]) == r;
    assert Run(a, [Look(d), SetOwner(d), ClearOwner(d), Release(d)]) == r;
    NextCount(s.served);
    assert r.pcs == s.pcs;
  }

  lemma {:induction false} ManyRounds(s: State, d: nat, n: nat)
    requires Resting(s, d)
    ensures var r := Run(s, Rounds(d, n)); Resting(r, d) && r.served == s.served + n && r.pcs == s.pcs
    decreases n
  {
    hide Resting, Round;
    if n > 0 {
      OneRound(s, d);
      RunBoth(s, Round(d), Rounds(d, n - 1));
      ManyRounds(Run(s, Round(d)), d, n - 1);
    }
  }

  /** Two processors are enough to break the lock: one reads both counters in a try and is held up while the
      other takes and leaves the lock 2^32 - 1 times and takes it once more; then the swap succeeds, and both are
      inside. */
  function LateSwap(c: nat, d: nat): seq<Step> {
    [LoadHead(c), LoadTail(c)] + (Rounds(d, U32 - 1) + [Draw(d), Look(d), Swap(c)])
  }

  lemma LateSwapBreaks(cpus: set<nat>, c: nat, d: nat)
    requires c in cpus && d in cpus && c != d
    ensures !Exclusive(Run(Start(cpus), LateSwap(c, d)))
  {
    var s := Start(cpus);
    var a := Next(Next(s, LoadHead(c)), LoadTail(c));
    assert [LoadHead(c), LoadTail(c)][1..] == [LoadTail(c)];
    assert Run(Next(s, LoadHead(c)), [LoadTail(c)]) == a;
    assert Run(s, [LoadHead(c), LoadTail(c)]) == a;
    ManyRounds(a, d, U32 - 1);
    var b := Run(a, Rounds(d, U32 - 1));
    var e := Next(Next(b, Draw(d)), Look(d));
    var r := Next(e, Swap(c));
    assert [Draw(d), Look(d), Swap(c)][1..] == [Look(d), Swap(c)] && [Look(d), Swap(c)][1..] == [Swap(c)];
    assert Run(e, [Swap(c)]) == r;
    assert Run(Next(b, Draw(d)), [Look(d), Swap(c)]) == r;
    assert Run(b, [Draw(d), Look(d), Swap(c)]) == r;
    RunBoth(a, Rounds(d, U32 - 1), [Draw(d), Look(d), Swap(c)]);
    RunBoth(s, [LoadHead(c), LoadTail(c)], Rounds(d, U32 - 1) + [Draw(d), Look(d), Swap(c)]);
    assert b.served == U32 - 1 && e.tail == 0 && Inside(e.pcs[d]);
    assert Inside(r.pcs[c]) && Inside(r.pcs[d]);
  }
}
