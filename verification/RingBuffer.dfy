/** The single-producer single-consumer ring (include/rk/ringbuf.h): each load, store and buffer access is a step,
    and the two sides' steps interleave in any order. */
module RingBuffer {
  import opened Arith
  import opened Common

  type Byte = bv8

  /** Where the producer is inside a put, with what it has loaded. */
  datatype Producer = PIdle | PLoaded(head: nat, c: Byte) | PRoom(head: nat, c: Byte) | PWrote(head: nat, c: Byte)

  /** Where the consumer is inside a get. */
  datatype Consumer = CIdle | CLoaded(tail: nat) | CData(tail: nat) | CRead(tail: nat, c: Byte)

  /** `accepted` are the bytes of the puts that have published, `consumed` those of the gets that have released. */
  datatype State = State(buf: seq<Byte>, head: nat, tail: nat, producer: Producer, consumer: Consumer,
                         dropped: nat, accepted: seq<Byte>, consumed: seq<Byte>)

  datatype Step = LoadHead(c: Byte) | CheckRoom | WriteByte | StoreHead | LoadTail | CheckData | ReadByte | StoreTail

  function Sub32(a: nat, b: nat): nat {
    (a - b) % U32
  }

  /** One step of the side it belongs to; a step that side is not at changes nothing. Masking by the
      capacity less one is the remainder by the capacity, a power of two. */
  function Next(s: State, step: Step): (r: State)
    requires |s.buf| > 0
    ensures |r.buf| == |s.buf|
  {
    match step
    case LoadHead(c) => if s.producer.PIdle? then s.(producer := PLoaded(s.head, c)) else s
    case CheckRoom =>
      if !s.producer.PLoaded? then s
      else if Sub32(s.producer.head, s.tail) > |s.buf| - 1 then s.(producer := PIdle, dropped := s.dropped + 1)
      else s.(producer := PRoom(s.producer.head, s.producer.c))
    case WriteByte =>
      if s.producer.PRoom? then s.(buf := s.buf[s.producer.head % |s.buf| := s.producer.c],
                                   producer := PWrote(s.producer.head, s.producer.c)) else s
    case StoreHead =>
      if s.producer.PWrote? then
        s.(head := (s.producer.head + 1) % U32, producer := PIdle, accepted := s.accepted + [s.producer.c])
      else s
    case LoadTail => if s.consumer.CIdle? then s.(consumer := CLoaded(s.tail)) else s
    case CheckData =>
      if !s.consumer.CLoaded? then s
      else if s.consumer.tail == s.head then s.(consumer := CIdle)
      else s.(consumer := CData(s.consumer.tail))
    case ReadByte =>
      if s.consumer.CData? then s.(consumer := CRead(s.consumer.tail, s.buf[s.consumer.tail % |s.buf|])) else s
    case StoreTail =>
      if s.consumer.CRead? then
        s.(tail := (s.consumer.tail + 1) % U32, consumer := CIdle, consumed := s.consumed + [s.consumer.c])
      else s
  }

  function Start(storage: seq<Byte>): State {
    State(storage, 0, 0, PIdle, CIdle, 0, [], [])
  }

  function Run(s: State, steps: seq<Step>): (r: State)
    requires |s.buf| > 0
    ensures |r.buf| == |s.buf|
    decreases |steps|
  {
    if steps == [] then s else Run(Next(s, steps[0]), steps[1..])
  }

  /** Puts begun in a run: the producer was idle and loaded the head. */
  function Begun(s: State, steps: seq<Step>): nat
    requires |s.buf| > 0
    decreases |steps|
  {
    if steps == [] then 0
    else (if steps[0].LoadHead? && s.producer.PIdle? then 1 else 0) + Begun(Next(s, steps[0]), steps[1..])
  }

  /** No put is lost or counted twice: each one begun has published its byte, or was counted as dropped, or is still
      under way. */
  lemma {:induction false} PutsAccounted(s: State, steps: seq<Step>)
    requires |s.buf| > 0
    ensures var r := Run(s, steps);
            |s.accepted| + s.dropped + (if s.producer.PIdle? then 0 else 1) + Begun(s, steps) ==
            |r.accepted| + r.dropped + (if r.producer.PIdle? then 0 else 1)
    decreases |steps|
  {
    if steps != [] {
      PutsAccounted(Next(s, steps[0]), steps[1..]);
    }
  }

  /** From the start. */
  lemma AllPuts(storage: seq<Byte>, steps: seq<Step>)
    requires |storage| > 0
    ensures var r := Run(Start(storage), steps);
            |r.accepted| + r.dropped + (if r.producer.PIdle? then 0 else 1) == Begun(Start(storage), steps)
  {
    PutsAccounted(Start(storage), steps);
  }

  /** Byte `i` of those accepted is where the ring keeps it. */
  ghost predicate Holds(buf: seq<Byte>, accepted: seq<Byte>, i: nat) {
    i < |accepted| && |buf| > 0 && buf[i % |buf|] == accepted[i]
  }

  /** The counters are the numbers of bytes published and released, modulo 2^32; no more than the
      capacity are unread and each is intact; what was consumed is a prefix of what was accepted. */
  ghost predicate Ok(s: State) {
    var h, t, cap := |s.accepted|, |s.consumed|, |s.buf|;
    && Pow2(cap) && 0 < cap <= 0x8000_0000
    && s.head == h % U32 && s.tail == t % U32 && t <= h <= t + cap
    && s.consumed == s.accepted[..t]
    && (forall i :: t <= i < h ==> Holds(s.buf, s.accepted, i))
    && (match s.producer
        case PIdle => true
        case PLoaded(head, _) => head == h % U32
        case PRoom(head, _) => head == h % U32 && h < t + cap
        case PWrote(head, c) => head == h % U32 && h < t + cap && s.buf[h % cap] == c)
    && (match s.consumer
        case CIdle => true
        case CLoaded(tail) => tail == t % U32
        case CData(tail) => tail == t % U32 && t < h
        case CRead(tail, c) => tail == t % U32 && t < h && c == s.accepted[t])
  }

  lemma Pow2To32(cap: nat)
    requires Pow2(cap) && cap <= 0x8000_0000
    ensures U32 % cap == 0
  {
    WordPow2();
    hide Pow2;
    Pow2Divides(cap, U32);
  }

  lemma WordPow2()
    ensures Pow2(U32)
  {
    SixteenTimes(1);
    hide Pow2;
    SixteenTimes(0x10);
    SixteenTimes(0x100);
    SixteenTimes(0x1000);
    SixteenTimes(0x1_0000);
    SixteenTimes(0x10_0000);
    SixteenTimes(0x100_0000);
    SixteenTimes(0x1000_0000);
  }

  lemma SixteenTimes(a: nat)
    requires Pow2(a)
    ensures Pow2(16 * a)
  {
    Twice(a);
    hide Pow2;
    Twice(2 * a);
    Twice(4 * a);
    Twice(8 * a);
  }

  lemma Twice(a: nat)
    requires Pow2(a)
    ensures Pow2(2 * a)
  {
    assert 2 * a / 2 == a;
  }

  /** A wrapped counter picks the same slot as the unbounded count. */
  lemma WrappedSlot(n: nat, cap: nat)
    requires Pow2(cap) && cap <= 0x8000_0000
    ensures (n % U32) % cap == n % cap
  {
    Pow2To32(cap);
    RemainderVia(n, U32, cap);
  }

  lemma StartOk(storage: seq<Byte>)
    requires Pow2(|storage|) && |storage| <= 0x8000_0000
    ensures Ok(Start(storage))
  {
  }

  lemma StepOk(s: State, step: Step)
    requires Ok(s)
    ensures Ok(Next(s, step))
  {
    match step
    case WriteByte => WriteOk(s);
    case StoreHead => StoreHeadOk(s);
    case ReadByte => ReadOk(s);
    case StoreTail => StoreTailOk(s);
    case CheckRoom => CheckRoomOk(s);
    case _ => hide Pow2, Holds;
  }

  lemma CheckRoomOk(s: State)
    requires Ok(s)
    ensures Ok(Next(s, CheckRoom))
  {
    hide Pow2, Holds, Sub32;
    UsedIs(|s.accepted|, |s.consumed|);
  }

  lemma WriteOk(s: State)
    requires Ok(s)
    ensures Ok(Next(s, WriteByte))
  {
    hide Pow2;
    var h, t, cap := |s.accepted|, |s.consumed|, |s.buf|;
    if s.producer.PRoom? {
      WrappedSlot(h, cap);
      forall i | t <= i < h
        ensures Holds(Next(s, WriteByte).buf, s.accepted, i)
      {
        assert Holds(s.buf, s.accepted, i);
        CloseApart(i, h, cap);
      }
    }
  }

  lemma StoreHeadOk(s: State)
    requires Ok(s)
    ensures Ok(Next(s, StoreHead))
  {
    hide Pow2;
    var h, t := |s.accepted|, |s.consumed|;
    if s.producer.PWrote? {
      NextCount(h);
      forall i | t <= i < h + 1
        ensures Holds(s.buf, Next(s, StoreHead).accepted, i)
      {
        assert i < h ==> Holds(s.buf, s.accepted, i);
      }
    }
  }

  lemma ReadOk(s: State)
    requires Ok(s)
    ensures Ok(Next(s, ReadByte))
  {
    hide Pow2;
    if s.consumer.CData? {
      ReadSlot(s);
    }
  }

  lemma ReadSlot(s: State)
    requires Ok(s) && s.consumer.CData?
    ensures s.buf[s.consumer.tail % |s.buf|] == s.accepted[|s.consumed|]
  {
    hide Pow2;
    WrappedSlot(|s.consumed|, |s.buf|);
    assert Holds(s.buf, s.accepted, |s.consumed|);
  }

  lemma StoreTailOk(s: State)
    requires Ok(s)
    ensures Ok(Next(s, StoreTail))
  {
    hide Pow2;
    var t, s' := |s.consumed|, Next(s, StoreTail);
    if s.consumer.CRead? {
      NextCount(t);
      assert s'.consumed == s.accepted[..t + 1];
      forall i | t + 1 <= i < |s.accepted|
        ensures Holds(s'.buf, s'.accepted, i)
      {
        assert Holds(s.buf, s.accepted, i);
      }
    }
  }

  /** Every interleaving: from a fresh ring of a power-of-two size, whatever the two sides do and
      however often the 32-bit counters wrap. */
  lemma {:induction false} EveryRun(s: State, steps: seq<Step>)
    requires Ok(s)
    ensures Ok(Run(s, steps))
    decreases |steps|
  {
    if steps != [] {
      StepOk(s, steps[0]);
      EveryRun(Next(s, steps[0]), steps[1..]);
    }
  }

  /** The bytes handed to the consumer are, in order, the first of those accepted from the producer, and
      none that is unread has been overwritten. */
  lemma FifoOrder(storage: seq<Byte>, steps: seq<Step>)
    requires Pow2(|storage|) && |storage| <= 0x8000_0000
    ensures var s := Run(Start(storage), steps);
            && s.consumed <= s.accepted && |s.accepted| - |s.consumed| <= |storage|
            && forall i :: |s.consumed| <= i < |s.accepted| ==> s.buf[i % |storage|] == s.accepted[i]
  {
    StartOk(storage);
    EveryRun(Start(storage), steps);
    var s := Run(Start(storage), steps);
    forall i | |s.consumed| <= i < |s.accepted|
      ensures s.buf[i % |storage|] == s.accepted[i]
    {
      assert Holds(s.buf, s.accepted, i);
    }
  }

  /** A put is refused exactly when the ring is full at its load of the tail, a get exactly when the
      ring is empty at its load of the head. */
  lemma RefusedExactly(s: State)
    requires Ok(s)
    ensures s.producer.PLoaded? ==> (Next(s, CheckRoom).producer.PIdle? <==> |s.accepted| - |s.consumed| == |s.buf|)
    ensures s.consumer.CLoaded? ==> (Next(s, CheckData).consumer.CIdle? <==> |s.accepted| == |s.consumed|)
  {
    hide Pow2;
    UsedIs(|s.accepted|, |s.consumed|);
  }

  /** The 32-bit difference is the number of unread bytes when the tail has not passed the head that was
      loaded, which is so for either side of the ring. */
  lemma UsedIs(h: nat, t: nat)
    ensures h - t < U32 && t - h < U32 ==> (Sub32(h % U32, t % U32) == h - t <==> t <= h)
  {
  }

  predicate ByConsumer(step: Step) {
    step.LoadTail? || step.CheckData? || step.ReadByte? || step.StoreTail?
  }

  lemma {:induction false} RunSides(s: State, steps: seq<Step>)
    requires |s.buf| > 0
    ensures |s.consumed| <= |Run(s, steps).consumed| && |s.accepted| <= |Run(s, steps).accepted|
    ensures (forall i :: 0 <= i < |steps| ==> ByConsumer(steps[i])) ==> Run(s, steps).accepted == s.accepted
    ensures (forall i :: 0 <= i < |steps| ==> !ByConsumer(steps[i])) ==> Run(s, steps).consumed == s.consumed
    decreases |steps|
  {
    if steps != [] {
      assert forall i :: 0 <= i < |steps[1..]| ==> steps[1..][i] == steps[i + 1];
      RunSides(Next(s, steps[0]), steps[1..]);
    }
  }

  /** The number in use as somebody reads it: the head, then after any steps of the two sides the tail. It is
      the number of bytes accepted by the first load and unread at the second exactly when the consumer has not
      passed the head that was loaded. Asked by the producer it is what is unread at the second load; asked by
      the consumer it is what was unread at the first, and that much still is. */
  lemma UsedTwoLoads(s: State, steps: seq<Step>)
    requires Ok(s)
    ensures var r := Run(s, steps);
            var used := Sub32(s.head, r.tail);
            && (used == |s.accepted| - |r.consumed| <==> |r.consumed| <= |s.accepted|)
            && ((forall i :: 0 <= i < |steps| ==> ByConsumer(steps[i])) ==> used == |r.accepted| - |r.consumed|)
            && ((forall i :: 0 <= i < |steps| ==> !ByConsumer(steps[i])) ==>
                 used == |s.accepted| - |s.consumed| <= |r.accepted| - |r.consumed|)
  {
    EveryRun(s, steps);
    RunSides(s, steps);
    hide Pow2, Holds, Sub32;
    var h, t := |s.accepted|, |Run(s, steps).consumed|;
    assert s.head == h % U32 && Run(s, steps).tail == t % U32;
    Difference(h, t);
  }

  lemma Difference(h: nat, t: nat)
    requires h < t + U32
    ensures Sub32(h % U32, t % U32) == h - t <==> t <= h
  {
  }

  /** Asked by anybody else it can be wrong: a byte put and taken between the two loads makes it 2^32 - 1. */
  lemma UsedWraps()
    ensures var s := Start([0]);
            var r := Run(Run(s, PutSteps(7)), GetSteps());
            Ok(s) && r.accepted == r.consumed && Sub32(s.head, r.tail) == U32 - 1
  {
    var s := Start([0]);
    StartOk([0]);
    PutAlone(s, 7);
    var m := Run(s, PutSteps(7));
    GetAlone(m);
    assert |m.accepted| == 1;
  }

  /** A whole put, as its four steps run without the other side. */
  function PutSteps(c: Byte): seq<Step> {
    [LoadHead(c), CheckRoom, WriteByte, StoreHead]
  }

  function GetSteps(): seq<Step> {
    [LoadTail, CheckData, ReadByte, StoreTail]
  }

  lemma FourSteps(s: State, a: Step, b: Step, c: Step, d: Step)
    requires |s.buf| > 0
    ensures Run(s, [a, b, c, d]) == Next(Next(Next(Next(s, a), b), c), d)
  {
    hide Next;
    assert [a, b, c, d][1..] == [b, c, d];
    assert [b, c, d][1..] == [c, d];
    assert [c, d][1..] == [d];
    var t := Next(Next(Next(s, a), b), c);
    assert Run(t, [d]) == Next(t, d);
    assert Run(Next(Next(s, a), b), [c, d]) == Next(t, d);
    assert Run(Next(s, a), [b, c, d]) == Next(t, d);
  }

  /** A put alone appends its byte, or drops it exactly when the ring is full. */
  lemma PutAlone(s: State, c: Byte)
    requires Ok(s) && s.producer.PIdle?
    ensures var r := Run(s, PutSteps(c));
            && Ok(r) && r.consumed == s.consumed && r.consumer == s.consumer && r.producer.PIdle?
            && if |s.accepted| - |s.consumed| == |s.buf| then r.accepted == s.accepted && r.dropped == s.dropped + 1
               else r.accepted == s.accepted + [c] && r.dropped == s.dropped
  {
    EveryRun(s, PutSteps(c));
    FourSteps(s, LoadHead(c), CheckRoom, WriteByte, StoreHead);
    StepOk(s, LoadHead(c));
    hide Ok, Sub32;
    RefusedExactly(Next(s, LoadHead(c)));
  }

  /** A get alone hands over the oldest unread byte, or nothing exactly when there is none. */
  lemma GetAlone(s: State)
    requires Ok(s) && s.consumer.CIdle?
    ensures var r := Run(s, GetSteps());
            && Ok(r) && r.accepted == s.accepted && r.producer == s.producer && r.consumer.CIdle?
            && r.dropped == s.dropped
            && if |s.accepted| == |s.consumed| then r.consumed == s.consumed
               else r.consumed == s.consumed + [s.accepted[|s.consumed|]]
  {
    EveryRun(s, GetSteps());
    FourSteps(s, LoadTail, CheckData, ReadByte, StoreTail);
    StepOk(s, LoadTail);
    StepOk(Next(s, LoadTail), CheckData);
    var d := Next(Next(s, LoadTail), CheckData);
    assert d.accepted == s.accepted && d.consumed == s.consumed && d.buf == s.buf;
    RefusedExactly(Next(s, LoadTail));
    if d.consumer.CData? {
      ReadSlot(d);
    }
    hide Ok, Sub32;
  }

  /** The ring in memory; its operations run whole. */
  class Ring {
    const buf: array<Byte>
    var head: nat
    var tail: nat
    var dropped: nat
    ghost var accepted: seq<Byte>
    ghost var consumed: seq<Byte>

    ghost function S(): State
      reads this, buf
    {
      State(buf[..], head, tail, PIdle, CIdle, dropped, accepted, consumed)
    }

    ghost predicate Valid()
      reads this, buf
    {
      Ok(S())
    }

    constructor (storage: array<Byte>)
      requires Pow2(storage.Length) && storage.Length <= 0x8000_0000
      ensures Valid() && buf == storage && accepted == consumed == [] && dropped == 0
    {
      buf := storage;
      head, tail, dropped := 0, 0, 0;
      accepted, consumed := [], [];
      new;
      StartOk(storage[..]);
    }

    method Put(c: Byte) returns (ok: bool)
      requires Valid()
      modifies this`head, this`dropped, this`accepted, buf
      ensures Valid() && S() == Run(old(S()), PutSteps(c))
      ensures ok <==> |old(accepted)| - |consumed| < buf.Length
      ensures accepted == old(accepted) + (if ok then [c] else []) && dropped == old(dropped) + (if ok then 0 else 1)
    {
      hide Holds, Pow2;
      ghost var s := S();
      FourSteps(s, LoadHead(c), CheckRoom, WriteByte, StoreHead);
      PutAlone(s, c);
      ok := Sub32(head, tail) <= buf.Length - 1;
      if !ok {
        dropped := dropped + 1;
        return;
      }
      buf[head % buf.Length] := c;
      head := (head + 1) % U32;
      accepted := accepted + [c];
    }

    method Get() returns (ok: bool, c: Byte)
      requires Valid()
      modifies this`tail, this`consumed
      ensures Valid() && S() == Run(old(S()), GetSteps())
      ensures ok <==> |old(consumed)| < |accepted|
      ensures ok ==> c == accepted[|old(consumed)|]
      ensures consumed == old(consumed) + (if ok then [c] else [])
    {
      ghost var s := S();
      FourSteps(s, LoadTail, CheckData, ReadByte, StoreTail);
      GetAlone(s);
      ok, c := tail != head, 0;
      if ok {
        c := buf[tail % buf.Length];
        tail := (tail + 1) % U32;
        consumed := consumed + [c];
      }
    }

    /** As many bytes of `src` as there is room for, in order; one refusal is counted when some are left. */
    method Write(src: seq<Byte>) returns (n: nat)
      requires Valid()
      modifies this`head, this`dropped, this`accepted, buf
      ensures Valid() && n <= |src| && accepted == old(accepted) + src[..n]
      ensures n < |src| ==> |accepted| - |consumed| == buf.Length
      ensures dropped == old(dropped) + (if n < |src| then 1 else 0)
    {
      hide Ok, Run;
      n := 0;
      while n < |src|
        invariant Valid() && 0 <= n <= |src| && accepted == old(accepted) + src[..n] && dropped == old(dropped)
      {
        Bounded(S());
        var ok := Put(src[n]);
        if !ok {
          return;
        }
        assert src[..n + 1] == src[..n] + [src[n]];
        n := n + 1;
      }
    }

    /** The oldest unread bytes, up to `most` of them. */
    method Read(most: nat) returns (r: seq<Byte>)
      requires Valid()
      modifies this`tail, this`consumed
      ensures Valid() && |r| <= most && consumed == old(consumed) + r
      ensures |r| < most ==> consumed == accepted
    {
      hide Ok, Run;
      r := [];
      while |r| < most
        invariant Valid() && |r| <= most && consumed == old(consumed) + r
      {
        Bounded(S());
        var ok, c := Get();
        if !ok {
          return;
        }
        r := r + [c];
      }
    }
  }

  lemma Bounded(s: State)
    requires Ok(s)
    ensures s.consumed <= s.accepted && |s.accepted| - |s.consumed| <= |s.buf|
  {
  }
}
