/** The bounded replay ledger (kernel/crypto/kaalka.c). */
module ReplayLedger {
  import opened Arith
  import opened Common

  const SLOTS: nat := 1024
  const PROBES: nat := 8

  datatype Slot = Slot(subject: nat, seqno: nat, epoch: nat)

  /** The first slot tried for a subject and sequence number. */
  function Home(subject: nat, seqno: nat): (r: nat)
    ensures r < SLOTS
  {
    (subject * 0x9E3779B97F4A7C15 + seqno) % U64 % SLOTS
  }

  function Probe(subject: nat, seqno: nat, i: nat): (r: nat)
    ensures r < SLOTS
  {
    (Home(subject, seqno) + i) % SLOTS
  }

  /** The slots tried, as the code reckons them modulo 2^64, are consecutive modulo 1024. */
  lemma Places(subject: nat, seqno: nat, i: nat)
    ensures Probe(subject, seqno, i) == (subject * 11400714819323198485 + seqno + i) % 1024
    ensures Home(subject, seqno) == (subject * 11400714819323198485 + seqno) % 1024
  {
    var x := subject * 11400714819323198485 + seqno;
    assert U64 % 1024 == 0;
    RemainderVia(x, U64, 1024);
    var q := x / 1024;
    assert x % 1024 + i == (x + i) - q * 1024;
    SameRest(x % 1024 + i, q, 1024);
  }

  lemma SameRest(x: nat, q: nat, m: nat)
    requires m > 0
    ensures (x + q * m) % m == x % m
  {
    Parts(x, m);
    Products(q, 1, x / m, m);
    ModUnique(x + q * m, q + x / m, x % m, m);
  }

  /** Slot `k` is one of the eight tried for the message, the `i`-th. */
  ghost predicate Place(k: nat, subject: nat, seqno: nat, i: nat) {
    i < 8 && k == (subject * 11400714819323198485 + seqno + i) % 1024
  }

  /** A live record: of an epoch, no more than two ago. */
  predicate Current(s: Slot, now: nat) {
    s.epoch != 0 && s.epoch + 2 >= now
  }

  /** The message is written in the first of its eight slots whose record is not live, or, when all are, over the
      first. */
  ghost predicate Stored(before: seq<Slot>, after: seq<Slot>, s: Slot, over: bool)
    requires |before| == 1024
  {
    exists k: nat, i: nat ::
      && k < 1024 && Place(k, s.subject, s.seqno, i) && after == before[k := s]
      && (forall l: nat, j: nat :: l < 1024 && j < i && Place(l, s.subject, s.seqno, j) ==> Current(before[l], s.epoch))
      && if over then i == 0 && forall l: nat, j: nat ::
                        l < 1024 && Place(l, s.subject, s.seqno, j) ==> Current(before[l], s.epoch)
         else !Current(before[k], s.epoch)
  }

  /** A live record of the message, or one of epoch zero not two epochs old, is in one of its eight slots. */
  ghost predicate Remembers(table: seq<Slot>, subject: nat, seqno: nat, now: nat)
    requires |table| == 1024
  {
    exists k: nat, i: nat ::
      && k < 1024 && Place(k, subject, seqno, i)
      && table[k].subject == subject && table[k].seqno == seqno && table[k].epoch + 2 >= now
  }

  lemma WasStored(before: seq<Slot>, after: seq<Slot>, s: Slot, i: nat, over: bool)
    requires |before| == SLOTS && i < PROBES && after == before[Probe(s.subject, s.seqno, i) := s]
    requires forall j :: 0 <= j < i ==> !Reusable(before[Probe(s.subject, s.seqno, j)], s.epoch)
    requires if over then
               i == 0 && forall j :: 0 <= j < PROBES ==> !Reusable(before[Probe(s.subject, s.seqno, j)], s.epoch)
             else Reusable(before[Probe(s.subject, s.seqno, i)], s.epoch)
    ensures Stored(before, after, s, over)
  {
    hide Home, Probe;
    forall j: nat
      ensures Probe(s.subject, s.seqno, j) == (s.subject * 11400714819323198485 + s.seqno + j) % 1024
    {
      Places(s.subject, s.seqno, j);
    }
    var k := Probe(s.subject, s.seqno, i);
    forall l: nat, j: nat | l < 1024 && (j < i || over) && Place(l, s.subject, s.seqno, j)
      ensures Current(before[l], s.epoch)
    {
      assert l == Probe(s.subject, s.seqno, j);
    }
    assert Place(k, s.subject, s.seqno, i) && after == before[k := s];
  }

  lemma RemembersIf(table: seq<Slot>, subject: nat, seqno: nat, now: nat)
    requires |table| == SLOTS
    ensures Remembers(table, subject, seqno, now) <==>
            exists i :: 0 <= i < PROBES && Recent(table[Probe(subject, seqno, i)], subject, seqno, now)
  {
    hide Home, Probe;
    forall j: nat
      ensures Probe(subject, seqno, j) == (subject * 11400714819323198485 + seqno + j) % 1024
    {
      Places(subject, seqno, j);
    }
    if i :| 0 <= i < PROBES && Recent(table[Probe(subject, seqno, i)], subject, seqno, now) {
      assert Place(Probe(subject, seqno, i), subject, seqno, i);
    }
    if k: nat, i: nat :| k < 1024 && Place(k, subject, seqno, i) && Recent(table[k], subject, seqno, now) {
      assert k == Probe(subject, seqno, i);
    }
  }

  // ---- when nothing is evicted

  /** The records are of one subject, of numbers in a range of 1024, each in its first slot. */
  ghost predicate Lane(table: seq<Slot>, subject: nat, from: nat) {
    forall k :: 0 <= k < |table| && table[k].epoch != 0 ==>
      && table[k].subject == subject && from <= table[k].seqno < from + 1024
      && k == (subject * 11400714819323198485 + table[k].seqno) % 1024
  }

  /** In a lane a message that is not remembered finds its first slot free, so the lane goes on. */
  lemma LaneGoesOn(table: seq<Slot>, subject: nat, from: nat, seqno: nat, now: nat)
    requires |table| == SLOTS && Lane(table, subject, from) && from <= seqno < from + 1024
    requires forall i :: 0 <= i < PROBES ==> !Recent(table[Probe(subject, seqno, i)], subject, seqno, now)
    ensures Reusable(table[Probe(subject, seqno, 0)], now)
    ensures Lane(table[Probe(subject, seqno, 0) := Slot(subject, seqno, now)], subject, from)
  {
    hide Home, Probe;
    Places(subject, seqno, 0);
    var k := Probe(subject, seqno, 0);
    var q := table[k].seqno;
    if q != seqno && table[k].epoch != 0 {
      var c := subject * 11400714819323198485;
      assert c + q < c + seqno < c + q + 1024 || c + seqno < c + q < c + seqno + 1024;
      CloseApart(if q < seqno then c + q else c + seqno, if q < seqno then c + seqno else c + q, 1024);
    }
  }

  /** A live record of a message whose eight slots meet those of this one: their first slots are within seven places
      of one another. */
  ghost predicate Near(s: Slot, subject: nat, seqno: nat, now: nat) {
    Current(s, now) && exists k: nat, i: nat, j: nat :: Place(k, s.subject, s.seqno, i) && Place(k, subject, seqno, j)
  }

  /** Eight different records, of acceptances not lost. */
  ghost predicate Crowded(log: seq<Slot>, lost: set<nat>, subject: nat, seqno: nat, now: nat) {
    exists near: seq<Slot> ::
      && |near| == 8 && Distinct(near)
      && forall s :: s in near ==> Logged(log, lost, s) && Near(s, subject, seqno, now)
  }

  /** A record of the same message recent enough to refuse it. */
  predicate Recent(s: Slot, subject: nat, seqno: nat, now: nat) {
    s.subject == subject && s.seqno == seqno && s.epoch + 2 >= now
  }

  predicate Reusable(s: Slot, now: nat) {
    s.epoch == 0 || s.epoch + 2 < now
  }

  /** `k` is among the slots tried for the record `s`. */
  ghost predicate Tried(s: Slot, k: nat) {
    exists i :: 0 <= i < PROBES && Probe(s.subject, s.seqno, i) == k
  }

  ghost predicate Present(table: seq<Slot>, s: Slot) {
    exists k :: 0 <= k < |table| && table[k] == s && Tried(s, k)
  }

  ghost predicate Logged(log: seq<Slot>, lost: set<nat>, s: Slot) {
    exists i :: 0 <= i < |log| && i !in lost && log[i] == s
  }

  /** Every acceptance still inside the memory and not lost is in one of its slots, and the slots
      hold nothing but such acceptances, each once. */
  ghost predicate LedgerOk(table: seq<Slot>, log: seq<Slot>, lost: set<nat>, last: nat) {
    && |table| == SLOTS
    && (forall i :: i in lost ==> i < |log|)
    && (forall i :: 0 <= i < |log| ==> log[i].epoch <= last && (log[i].epoch == 0 ==> i in lost))
    && (forall i :: 0 <= i < |log| && i !in lost && log[i].epoch + 2 >= last ==> Present(table, log[i]))
    && (forall k :: 0 <= k < SLOTS && table[k].epoch != 0 ==> Tried(table[k], k) && Logged(log, lost, table[k]))
    && (forall k, k' :: 0 <= k < SLOTS && 0 <= k' < SLOTS && k != k' && table[k].epoch != 0 ==> table[k] != table[k'])
  }

  /** The acceptances whose record is `s`. */
  ghost function Of(log: seq<Slot>, s: Slot): set<nat> {
    set i | 0 <= i < |log| && log[i] == s
  }

  /** Acceptance number `n`, if it is made in epoch zero, which marks a free slot. */
  ghost function Unrecorded(n: nat, now: nat): set<nat> {
    if now == 0 then {n} else {}
  }

  class Ledger {
    const slot: array<Slot>
    var accepted: nat
    var rejected: nat
    var evicted: nat
    /** Every acceptance so far, and those whose record was lost: evicted, or made in epoch zero. */
    ghost var log: seq<Slot>
    ghost var lost: set<nat>
    ghost var last: nat

    ghost predicate Valid()
      reads this, slot
    {
      LedgerOk(slot[..], log, lost, last) && accepted == |log|
    }

    constructor ()
      ensures Valid() && fresh(slot) && log == [] && lost == {} && last == 0 && evicted == rejected == 0
      ensures forall k :: 0 <= k < slot.Length ==> slot[k].epoch == 0
    {
      slot := new Slot[SLOTS](_ => Slot(0, 0, 0));
      accepted, rejected, evicted := 0, 0, 0;
      log, lost, last := [], {}, 0;
    }

    /** Accepted only if every earlier acceptance of the message within two epochs has been lost;
        from epoch three on, refused only if there is one that has not. When all eight slots hold live
        records, the record in the first of them is lost and no other; an acceptance in epoch zero
        leaves no record. */
    method Check(subject: nat, seqno: nat, now: nat) returns (ok: bool)
      requires Valid() && last <= now
      modifies this, slot
      ensures Valid() && last == now
      ensures ok ==> log == old(log) + [Slot(subject, seqno, now)] && rejected == old(rejected)
      ensures ok ==> old(evicted) <= evicted <= old(evicted) + 1
      ensures ok && evicted == old(evicted) ==> lost == old(lost) + Unrecorded(|old(log)|, now)
      ensures ok && evicted > old(evicted) ==>
                lost == old(lost) + Of(old(log), old(slot[..])[Home(subject, seqno)]) + Unrecorded(|old(log)|, now)
      ensures !ok ==> log == old(log) && lost == old(lost) && slot[..] == old(slot[..])
      ensures !ok ==> rejected == old(rejected) + 1 && evicted == old(evicted)
      ensures ok ==> forall i :: 0 <= i < |old(log)| && Recent(old(log)[i], subject, seqno, now) ==> i in old(lost)
      ensures !ok && now >= 3 ==> exists i :: 0 <= i < |log| && i !in lost && Recent(log[i], subject, seqno, now)
      ensures |slot[..]| == 1024 && (!ok <==> Remembers(old(slot[..]), subject, seqno, now))
      ensures ok ==> Stored(old(slot[..]), slot[..], Slot(subject, seqno, now), evicted > old(evicted))
      ensures evicted > old(evicted) ==> |old(log)| >= PROBES && Crowded(old(log), old(lost), subject, seqno, now)
      ensures forall a: nat :: Lane(old(slot[..]), subject, a) && a <= seqno < a + 1024 ==>
                                 evicted == old(evicted) && Lane(slot[..], subject, a)
    {
      hide LedgerOk, Home, Probe, Lane, Remembers, Stored, Crowded;
      ghost var table := slot[..];
      TableSize(table, log, lost, last);
      RemembersIf(table, subject, seqno, now);
      var refused := Seen(subject, seqno, now);
      if refused {
        RefusalIsRecent(table, log, lost, last, subject, seqno, now);
        Later(table, log, lost, last, now);
        rejected := rejected + 1;
        last := now;
        return false;
      }
      NothingRecent(table, log, lost, last, subject, seqno, now);
      forall a: nat | Lane(table, subject, a) && a <= seqno < a + 1024
        ensures Reusable(table[Probe(subject, seqno, 0)], now)
        ensures Lane(table[Probe(subject, seqno, 0) := Slot(subject, seqno, now)], subject, a)
      {
        LaneGoesOn(table, subject, a, seqno, now);
      }
      var i, found := Choose(subject, seqno, now);
      var k := Probe(subject, seqno, i);
      if !found {
        FirstIsHome(subject, seqno);
        ManyLive(table, log, lost, last, subject, seqno, now);
        evicted := evicted + 1;
      }
      Written(table, log, lost, last, k, subject, seqno, now);
      slot[k] := Slot(subject, seqno, now);
      accepted := accepted + 1;
      ghost var gone := if table[k].epoch != 0 && table[k].epoch + 2 >= now then Of(log, table[k]) else {};
      lost := lost + gone + Unrecorded(|log|, now);
      log := log + [Slot(subject, seqno, now)];
      last := now;
      ok := true;
      assert slot[..] == table[k := Slot(subject, seqno, now)];
      WasStored(table, slot[..], Slot(subject, seqno, now), i, !found);
    }

    /** Whether a slot tried for the message holds a recent record of it. */
    method Seen(subject: nat, seqno: nat, now: nat) returns (r: bool)
      requires slot.Length == SLOTS
      ensures r <==> exists i :: 0 <= i < PROBES && Recent(slot[Probe(subject, seqno, i)], subject, seqno, now)
    {
      hide Home;
      for i := 0 to PROBES
        invariant forall j :: 0 <= j < i ==> !Recent(slot[Probe(subject, seqno, j)], subject, seqno, now)
      {
        if Recent(slot[Probe(subject, seqno, i)], subject, seqno, now) {
          return true;
        }
      }
      r := false;
    }

    /** The first reusable slot tried, or the first tried. */
    method Choose(subject: nat, seqno: nat, now: nat) returns (i: nat, found: bool)
      requires slot.Length == SLOTS
      ensures i < PROBES && forall j :: 0 <= j < i ==> !Reusable(slot[Probe(subject, seqno, j)], now)
      ensures found ==> Reusable(slot[Probe(subject, seqno, i)], now)
      ensures !found ==> i == 0 && forall j :: 0 <= j < PROBES ==> !Reusable(slot[Probe(subject, seqno, j)], now)
    {
      hide Home;
      i := 0;
      while i < PROBES
        invariant i <= PROBES && forall j :: 0 <= j < i ==> !Reusable(slot[Probe(subject, seqno, j)], now)
      {
        if Reusable(slot[Probe(subject, seqno, i)], now) {
          return i, true;
        }
        i := i + 1;
      }
      i, found := 0, false;
    }
  }

  lemma FirstIsHome(subject: nat, seqno: nat)
    ensures Probe(subject, seqno, 0) == Home(subject, seqno)
  {
  }

  lemma TableSize(table: seq<Slot>, log: seq<Slot>, lost: set<nat>, last: nat)
    requires LedgerOk(table, log, lost, last)
    ensures |table| == SLOTS
  {
  }

  /** A recent record of the message is a recent acceptance of it, once epoch zero is out of reach. */
  lemma RefusalIsRecent(table: seq<Slot>, log: seq<Slot>, lost: set<nat>, last: nat, subject: nat, seqno: nat, now: nat)
    requires LedgerOk(table, log, lost, last)
    requires exists i :: 0 <= i < PROBES && Recent(table[Probe(subject, seqno, i)], subject, seqno, now)
    ensures now >= 3 ==> exists i :: 0 <= i < |log| && i !in lost && Recent(log[i], subject, seqno, now)
  {
    hide Home, Present, Tried;
    if now >= 3 {
      var i :| 0 <= i < PROBES && Recent(table[Probe(subject, seqno, i)], subject, seqno, now);
      assert Logged(log, lost, table[Probe(subject, seqno, i)]);
    }
  }

  lemma NothingRecent(table: seq<Slot>, log: seq<Slot>, lost: set<nat>, last: nat, subject: nat, seqno: nat, now: nat)
    requires LedgerOk(table, log, lost, last) && last <= now
    requires !exists i :: 0 <= i < PROBES && Recent(table[Probe(subject, seqno, i)], subject, seqno, now)
    ensures forall i :: 0 <= i < |log| && Recent(log[i], subject, seqno, now) ==> i in lost
    ensures forall k :: 0 <= k < |table| && table[k].epoch != 0 ==> !Recent(table[k], subject, seqno, now)
  {
    hide Home;
    forall i | 0 <= i < |log| && i !in lost && log[i].epoch + 2 >= last
      ensures exists j :: 0 <= j < PROBES && table[Probe(log[i].subject, log[i].seqno, j)] == log[i]
    {
      assert Present(table, log[i]);
    }
    forall k | 0 <= k < |table| && table[k].epoch != 0
      ensures !Recent(table[k], subject, seqno, now)
    {
      assert Tried(table[k], k);
    }
  }

  /** Eight live records are of eight acceptances. */
  lemma ManyLive(table: seq<Slot>, log: seq<Slot>, lost: set<nat>, last: nat, subject: nat, seqno: nat, now: nat)
    requires LedgerOk(table, log, lost, last)
    requires forall i :: 0 <= i < PROBES ==> !Reusable(table[Probe(subject, seqno, i)], now)
    ensures |log| >= PROBES && Crowded(log, lost, subject, seqno, now)
  {
    hide Tried, Present, Home, Near;
    var live := seq(PROBES, i requires 0 <= i < PROBES => table[Probe(subject, seqno, i)]);
    forall s | s in live
      ensures s in log
    {
      var i :| 0 <= i < PROBES && live[i] == s;
      assert Logged(log, lost, table[Probe(subject, seqno, i)]);
    }
    forall i, j | 0 <= i < j < PROBES
      ensures live[i] != live[j]
    {
      assert Probe(subject, seqno, i) != Probe(subject, seqno, j);
    }
    DistinctLength(live, log);
    forall s | s in live
      ensures Logged(log, lost, s) && Near(s, subject, seqno, now)
    {
      var i :| 0 <= i < PROBES && live[i] == s;
      IsNear(s, subject, seqno, i, now);
    }
    assert |live| == 8 && Distinct(live);
  }

  lemma IsNear(s: Slot, subject: nat, seqno: nat, j: nat, now: nat)
    requires Tried(s, Probe(subject, seqno, j)) && j < PROBES && !Reusable(s, now)
    ensures Near(s, subject, seqno, now)
  {
    hide Home, Probe;
    var i: nat :| i < PROBES && Probe(s.subject, s.seqno, i) == Probe(subject, seqno, j);
    Places(s.subject, s.seqno, i);
    Places(subject, seqno, j);
    assert Place(Probe(subject, seqno, j), s.subject, s.seqno, i) && Place(Probe(subject, seqno, j), subject, seqno, j);
  }

  lemma Later(table: seq<Slot>, log: seq<Slot>, lost: set<nat>, last: nat, now: nat)
    requires LedgerOk(table, log, lost, last) && last <= now
    ensures LedgerOk(table, log, lost, now)
  {
    hide Present, Logged, Tried;
  }

  /** Writing the message's record into one of its slots. */
  lemma Written(table: seq<Slot>, log: seq<Slot>, lost: set<nat>, last: nat, k: nat, subject: nat, seqno: nat, now: nat)
    requires LedgerOk(table, log, lost, last) && last <= now && k < SLOTS && |table| == SLOTS
    requires Tried(Slot(subject, seqno, now), k)
    requires forall j :: 0 <= j < |table| && table[j].epoch != 0 ==> !Recent(table[j], subject, seqno, now)
    ensures var s := Slot(subject, seqno, now);
            var gone := if table[k].epoch != 0 && table[k].epoch + 2 >= now then Of(log, table[k]) else {};
            LedgerOk(table[k := s], log + [s], lost + gone + Unrecorded(|log|, now), now)
  {
    var s := Slot(subject, seqno, now);
    var gone := if table[k].epoch != 0 && table[k].epoch + 2 >= now then Of(log, table[k]) else {};
    var lost', log', table' := lost + gone + Unrecorded(|log|, now), log + [s], table[k := s];
    hide Tried;
    forall i | 0 <= i < |log'| && i !in lost' && log'[i].epoch + 2 >= now
      ensures Present(table', log'[i])
    {
      if i == |log| {
        assert table'[k] == s;
      } else {
        assert Present(table, log[i]);
        var j :| 0 <= j < |table| && table[j] == log[i] && Tried(log[i], j);
        assert table'[j] == log[i] by {
          assert j == k ==> i in gone;
        }
      }
    }
    forall j | 0 <= j < SLOTS && table'[j].epoch != 0
      ensures Tried(table'[j], j) && Logged(log', lost', table'[j])
    {
      if j == k {
        assert log'[|log|] == s && |log| !in lost';
      } else {
        assert Logged(log, lost, table[j]);
        var i :| 0 <= i < |log| && i !in lost && log[i] == table[j];
        assert log'[i] == log[i] && i !in gone;
      }
    }
  }
}
