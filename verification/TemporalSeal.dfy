/** Epochs, seals and sealed envelopes (kernel/crypto/kaalka.c). Times are signed seconds; the clock is a
    parameter. Key derivation, the MAC, the digest and the cipher's key stream are functions. */
module TemporalSeal {
  import opened Common
  import opened ReplayLedger

  const EPOCH_SECONDS: nat := 60

  type Byte = bv8

  function EpochOf(t: int): nat {
    if t < 0 then 0 else t / EPOCH_SECONDS
  }

  /** What the MAC covers. */
  datatype Sealed = Sealed(epoch: nat, subject: nat, seqno: nat, notBefore: int, notAfter: int, payload: seq<Byte>)

  datatype Seal = Seal(mac: seq<Byte>, epoch: nat, notBefore: int, notAfter: int, seqno: nat, subject: nat)

  type Mac = Sealed -> seq<Byte>

  ghost predicate Injective<A(!new), B>(f: A -> B) {
    forall x, y :: f(x) == f(y) ==> x == y
  }

  function Covered(s: Seal, subject: nat, payload: seq<Byte>): Sealed {
    Sealed(s.epoch, subject, s.seqno, s.notBefore, s.notAfter, payload)
  }

  /** Valid from one time up to another; an end of zero is no end. */
  predicate InWindow(s: Seal, now: int) {
    s.notBefore <= now && (s.notAfter == 0 || now < s.notAfter)
  }

  function SealMake(mac: Mac, subject: nat, seqno: nat, payload: seq<Byte>, lifetime: nat, now: int): Seal {
    var s := Seal([], EpochOf(now), now, ToS64(now + ToS64(if lifetime != 0 then lifetime else EPOCH_SECONDS)), seqno,
                  subject);
    s.(mac := mac(Covered(s, subject, payload)))
  }

  datatype Verdict = Accepted | Expired | BadSeal

  function SealVerify(mac: Mac, s: Seal, subject: nat, payload: seq<Byte>, now: int): Verdict {
    if !InWindow(s, now) then Expired
    else if s.subject != subject then BadSeal
    else if mac(Covered(s, subject, payload)) == s.mac then Accepted
    else BadSeal
  }

  /** A new seal is accepted at a time exactly when the time is in its window. */
  lemma FreshSealAccepted(mac: Mac, subject: nat, seqno: nat, payload: seq<Byte>, lifetime: nat, made: int, now: int)
    ensures var s := SealMake(mac, subject, seqno, payload, lifetime, made);
            SealVerify(mac, s, subject, payload, now) == (if InWindow(s, now) then Accepted else Expired)
  {
  }

  /** No covered field of an accepted seal can be edited: an accepted seal whose MAC was made for
      `from` was made with these fields for this subject and payload. */
  lemma SealBinds(mac: Mac, s: Seal, subject: nat, payload: seq<Byte>, now: int, from: Sealed)
    requires Injective(mac) && s.mac == mac(from) && SealVerify(mac, s, subject, payload, now) == Accepted
    ensures from == Sealed(s.epoch, s.subject, s.seqno, s.notBefore, s.notAfter, payload) && s.subject == subject
  {
  }

  /** Any two times in the window are within the ledger's memory of two epochs. */
  ghost predicate Remembered(s: Seal) {
    forall t, t' :: InWindow(s, t) && InWindow(s, t') && t <= t' ==> EpochOf(t) + 2 >= EpochOf(t')
  }

  /** The first and last second of the window decide. */
  lemma RememberedExactly(s: Seal)
    requires s.notAfter != 0 && s.notBefore < s.notAfter
    ensures Remembered(s) <==> EpochOf(s.notBefore) + 2 >= EpochOf(s.notAfter - 1)
  {
    if Remembered(s) {
      assert InWindow(s, s.notBefore) && InWindow(s, s.notAfter - 1);
    }
    forall t, t' | InWindow(s, t) && InWindow(s, t') && t <= t'
      ensures EpochOf(s.notBefore) <= EpochOf(t) && EpochOf(t') <= EpochOf(s.notAfter - 1)
    {
      EpochGrows(s.notBefore, t);
      EpochGrows(t', s.notAfter - 1);
    }
  }

  lemma EpochGrows(t: int, t': int)
    requires t <= t'
    ensures EpochOf(t) <= EpochOf(t')
  {
  }

  /** Every window of a length is remembered exactly when the length is at most 121 seconds, and for a
      longer one the ledger forgets an acceptance however late the window begins. */
  lemma LongestRemembered(length: nat, epoch: nat)
    requires length > 0
    ensures (forall s: Seal :: s.notAfter != 0 && s.notAfter - s.notBefore == length ==> Remembered(s)) <==>
              length <= 121
    ensures length > 121 ==>
              var t := (epoch + 1) * EPOCH_SECONDS - 1;
              forall s: Seal :: s.notBefore == t && s.notAfter == t + length ==>
                InWindow(s, t) && InWindow(s, t + 121) && EpochOf(t) == epoch && EpochOf(t + 121) == epoch + 3
  {
    if length <= 121 {
      forall s: Seal | s.notAfter != 0 && s.notAfter - s.notBefore == length
        ensures Remembered(s)
      {
        RememberedExactly(s);
        Within(s.notBefore, s.notAfter - 1);
      }
    } else {
      var t := (epoch + 1) * EPOCH_SECONDS - 1;
      assert t == epoch * EPOCH_SECONDS + 59 && t + 121 == (epoch + 3) * EPOCH_SECONDS;
      assert EpochOf(t) == epoch && EpochOf(t + 121) == epoch + 3;
      var s := Seal([], 0, t, t + length, 0, 0);
      assert InWindow(s, t) && InWindow(s, t + 121);
      assert s.notAfter - s.notBefore == length && !Remembered(s);
    }
  }

  lemma Within(t: int, t': int)
    requires t <= t' <= t + 120
    ensures EpochOf(t) + 2 >= EpochOf(t')
  {
  }

  /** A window with no end is never remembered. */
  lemma EndlessForgotten(s: Seal)
    requires s.notAfter == 0
    ensures !Remembered(s)
  {
    var t := if s.notBefore < 0 then 0 else s.notBefore;
    assert InWindow(s, t) && InWindow(s, t + 180);
    assert EpochOf(t + 180) == EpochOf(t) + 3;
  }

  datatype Head = Head(ver: nat, ctLen: nat, sender: nat, receiver: nat, seqno: nat, epoch: nat, timestamp: int,
                       nonce: seq<Byte>)

  /** A received envelope: the header and the ciphertext bytes that follow it. */
  datatype Envelope = Envelope(head: Head, seal: Seal, tail: seq<Byte>)

  datatype Outcome =
    | Ok(text: seq<Byte>) | Invalid | NotSupported | NoAccess | NoSpace | SealExpired | SealRefused | Replayed

  /** The functions a deployment keys: MAC, digest of header and ciphertext, key stream. */
  datatype Keys = Keys(mac: Mac, digest: (Head, seq<Byte>) -> seq<Byte>, stream: (nat, seq<Byte>, nat) -> Byte)

  function Xored(keys: Keys, epoch: nat, nonce: seq<Byte>, text: seq<Byte>): (r: seq<Byte>)
    ensures |r| == |text| && forall i :: 0 <= i < |r| ==> r[i] == text[i] ^ keys.stream(epoch, nonce, i)
  {
    seq(|text|, i requires 0 <= i < |text| => text[i] ^ keys.stream(epoch, nonce, i))
  }

  /** A plaintext longer than 32 bits count is recorded by its low bits. */
  function EnvelopeSeal(keys: Keys, sender: nat, receiver: nat, seqno: nat, text: seq<Byte>, lifetime: nat, now: int,
          nonce: seq<Byte>): Envelope {
    var head := Head(1, |text| % 0x1_0000_0000, sender, receiver, seqno, EpochOf(now), now, nonce);
    var ct := Xored(keys, head.epoch, nonce, text);
    Envelope(head, SealMake(keys.mac, receiver, seqno, keys.digest(head, ct), lifetime, now), ct)
  }

  /** The ciphertext: the bytes the header counts. Any bytes after them are ignored. */
  function Cipher(e: Envelope): seq<Byte> {
    if |e.tail| < e.head.ctLen then e.tail else e.tail[..e.head.ctLen]
  }

  ghost predicate KeysInjective(keys: Keys) {
    && Injective(keys.mac)
    && forall h, c, h', c' :: keys.digest(h, c) == keys.digest(h', c') ==> h == h' && c == c'
  }

  /** Every check before the ledger's. */
  predicate Passes(keys: Keys, id: nat, e: Envelope, now: int) {
    && e.head.ver == 1 && e.head.receiver == id && |e.tail| >= e.head.ctLen
    && SealVerify(keys.mac, e.seal, id, keys.digest(e.head, Cipher(e)), now) == Accepted
  }

  /** The same message: what the digest and the MAC cover is equal. */
  predicate SameMessage(a: Envelope, b: Envelope) {
    a.head == b.head && Cipher(a) == Cipher(b) && a.seal == b.seal
  }

  /** When digest and MAC are injective, the MAC alone identifies an accepted message. */
  lemma MacIdentifies(keys: Keys, id: nat, a: Envelope, b: Envelope, t: int, t': int)
    requires KeysInjective(keys) && Passes(keys, id, a, t) && Passes(keys, id, b, t')
    ensures a.seal.mac == b.seal.mac <==> SameMessage(a, b)
  {
  }

  predicate SameNumber(a: Envelope, b: Envelope) {
    a.head.sender == b.head.sender && a.head.seqno == b.head.seqno
  }

  /** The same sender, number and seal, of a window the ledger remembers. */
  ghost predicate Again(a: Envelope, b: Envelope) {
    SameNumber(a, b) && a.seal == b.seal && Remembered(a.seal)
  }

  /** An arrival of the message's sender and number within two epochs. */
  ghost predicate Known(a: (Envelope, int), e: Envelope, now: int) {
    SameNumber(a.0, e) && EpochOf(a.1) + 2 >= EpochOf(now)
  }

  class Receiver {
    const id: nat
    const keys: Keys
    const ledger: Ledger
    /** The envelopes accepted, with the time of each. */
    ghost var arrivals: seq<(Envelope, int)>

    ghost predicate Valid()
      reads this, ledger, ledger.slot
    {
      && ledger.Valid() && |arrivals| == |ledger.log|
      && forall i :: 0 <= i < |arrivals| ==>
         && ledger.log[i] == Slot(arrivals[i].0.head.sender, arrivals[i].0.head.seqno, EpochOf(arrivals[i].1))
         && Passes(keys, id, arrivals[i].0, arrivals[i].1)
    }

    /** Nothing has happened after this time. */
    ghost predicate Until(now: int)
      reads this, ledger
    {
      ledger.last <= EpochOf(now) && forall i :: 0 <= i < |arrivals| ==> arrivals[i].1 <= now
    }

    lemma LostArrived()
      requires Valid()
      ensures forall i :: i in ledger.lost ==> i < |arrivals|
    {
    }

    /** In the whole run so far, a message of a sender and number under one seal that the ledger
        remembers was accepted again only after its record was lost. */
    ghost predicate OnceEach()
      reads this, ledger
    {
      forall i, j :: 0 <= i < j < |arrivals| && Again(arrivals[i].0, arrivals[j].0) ==> i in ledger.lost
    }

    constructor (id: nat, keys: Keys)
      ensures Valid() && OnceEach() && fresh(ledger) && fresh(ledger.slot) && arrivals == [] && ledger.lost == {}
      ensures ledger.last == 0 && ledger.evicted == 0 && this.id == id && this.keys == keys
      ensures forall k :: 0 <= k < ledger.slot.Length ==> ledger.slot[k].epoch == 0
    {
      this.id, this.keys := id, keys;
      ledger := new Ledger();
      arrivals := [];
    }

    /** Accepted only if every acceptance of its sender and number within two epochs has lost its record,
        so a message whose window the ledger remembers is accepted once; from epoch three on, refused as a
        replay only if there was such an acceptance. */
    method Open(e: Option<Envelope>, space: nat, now: int) returns (r: Outcome)
      requires Valid() && OnceEach() && Until(now)
      modifies this, ledger, ledger.slot
      ensures Valid() && OnceEach() && Until(now)
      ensures r.Ok? ==> e.Some? && arrivals == old(arrivals) + [(e.value, now)] && Passes(keys, id, e.value, now)
      ensures !r.Ok? ==>
                arrivals == old(arrivals) && ledger.lost == old(ledger.lost) && ledger.evicted == old(ledger.evicted)
      ensures r.Ok? ==>
                forall i :: 0 <= i < |old(arrivals)| && Known(old(arrivals)[i], e.value, now) ==> i in old(ledger.lost)
      ensures r == Replayed && EpochOf(now) >= 3 ==>
                e.Some? && exists i :: 0 <= i < |arrivals| && i !in ledger.lost && Known(arrivals[i], e.value, now)
      ensures ledger.evicted >= old(ledger.evicted)
      ensures ledger.evicted > old(ledger.evicted) ==> |old(arrivals)| >= PROBES
      ensures r.Ok? && ledger.evicted == old(ledger.evicted) ==>
                ledger.lost == old(ledger.lost) + Unrecorded(|old(arrivals)|, EpochOf(now))
      ensures r == OpenResult(keys, id, e, space, now, r == Replayed)
      ensures forall subject: nat, a: nat ::
                Lane(old(ledger.slot[..]), subject, a) && (e.Some? ==> InLane(e.value, subject, a)) ==>
                  ledger.evicted == old(ledger.evicted) && Lane(ledger.slot[..], subject, a)
    {
      hide Lane, Remembers, Stored, Crowded;
      if e == None {
        return Invalid;
      }
      var v := e.value;
      if v.head.ver != 1 {
        return NotSupported;
      }
      if v.head.receiver != id {
        return NoAccess;
      }
      if |v.tail| < v.head.ctLen {
        return Invalid;
      }
      if v.head.ctLen > space {
        return NoSpace;
      }
      var ct := v.tail[..v.head.ctLen];
      var verdict := SealVerify(keys.mac, v.seal, id, keys.digest(v.head, ct), now);
      if verdict != Accepted {
        return if verdict == Expired then SealExpired else SealRefused;
      }
      var isNew := ledger.Check(v.head.sender, v.head.seqno, EpochOf(now));
      if !isNew {
        return Replayed;
      }
      AllLost(arrivals, old(ledger.log), old(ledger.lost), v, now);
      arrivals := arrivals + [(v, now)];
      r := Ok(Xored(keys, v.head.epoch, v.head.nonce, ct));
    }
  }

  /** The envelope is of this sender and a number in this range of 1024. */
  predicate InLane(e: Envelope, sender: nat, from: nat) {
    e.head.sender == sender && from <= e.head.seqno < from + 1024
  }

  /** All envelopes are of one sender, with numbers in a range of 1024. */
  ghost predicate OneLane(run: seq<Delivery>, sender: nat, from: nat) {
    forall i :: 0 <= i < |run| && run[i].e.Some? ==> InLane(run[i].e.value, sender, from)
  }

  lemma AllLost(arrivals: seq<(Envelope, int)>, log: seq<Slot>, lost: set<nat>, e: Envelope, now: int)
    requires |log| == |arrivals| && forall i :: 0 <= i < |arrivals| ==>
               log[i] == Slot(arrivals[i].0.head.sender, arrivals[i].0.head.seqno, EpochOf(arrivals[i].1))
    requires forall i :: 0 <= i < |log| && Recent(log[i], e.head.sender, e.head.seqno, EpochOf(now)) ==> i in lost
    ensures forall i :: 0 <= i < |arrivals| && Known(arrivals[i], e, now) ==> i in lost
  {
    forall i | 0 <= i < |arrivals| && Known(arrivals[i], e, now)
      ensures i in lost
    {
      assert Recent(log[i], e.head.sender, e.head.seqno, EpochOf(now));
    }
  }

  /** One delivery: the bytes, the room for the plaintext, the time. */
  datatype Delivery = Delivery(e: Option<Envelope>, space: nat, now: int)

  /** A clock that does not run backwards. */
  ghost predicate InOrder(run: seq<Delivery>) {
    forall i, j :: 0 <= i < j < |run| ==> run[i].now <= run[j].now
  }

  /** Delivery `i` of the run was accepted. */
  ghost predicate Took(run: seq<Delivery>, got: seq<Outcome>, i: int) {
    0 <= i < |run| && i < |got| && run[i].e.Some? && got[i].Ok?
  }

  /** From epoch one on, acceptances of one sender and number are more than two epochs apart. */
  ghost predicate Spaced(run: seq<Delivery>, got: seq<Outcome>) {
    forall i, j :: i < j && Took(run, got, i) && Took(run, got, j) && EpochOf(run[i].now) >= 1 ==>
      !Known((run[i].e.value, run[i].now), run[j].e.value, run[j].now)
  }

  /** The sender and number of delivery `j` were accepted within two epochs before it. */
  ghost predicate Before(run: seq<Delivery>, got: seq<Outcome>, j: nat) {
    && j < |run| && run[j].e.Some?
    && exists i :: i < j && Took(run, got, i) && Known((run[i].e.value, run[i].now), run[j].e.value, run[j].now)
  }

  /** The acceptances of a run so far are the receiver's arrivals, `at` naming the delivery of each. */
  ghost predicate Matches(run: seq<Delivery>, got: seq<Outcome>, arrivals: seq<(Envelope, int)>, at: seq<nat>) {
    && |at| == |arrivals|
    && (forall k, l :: 0 <= k < l < |at| ==> at[k] < at[l])
    && (forall k :: 0 <= k < |at| ==>
         Took(run, got, at[k]) && arrivals[k] == (run[at[k]].e.value, run[at[k]].now))
    && (forall i :: Took(run, got, i) ==> exists k :: 0 <= k < |at| && at[k] == i)
  }

  /** One more delivery. */
  lemma Extended(run: seq<Delivery>, got: seq<Outcome>, arrivals: seq<(Envelope, int)>, at: seq<nat>, o: Outcome)
    requires |got| < |run| && Matches(run, got, arrivals, at) && (o.Ok? ==> run[|got|].e.Some?)
    ensures o.Ok? ==> Matches(run, got + [o], arrivals + [(run[|got|].e.value, run[|got|].now)], at + [|got|])
    ensures !o.Ok? ==> Matches(run, got + [o], arrivals, at)
    ensures forall i :: i < |got| ==> (Took(run, got, i) <==> Took(run, got + [o], i))
  {
    var n, got' := |got|, got + [o];
    forall i | i < n
      ensures Took(run, got, i) <==> Took(run, got', i)
    {
    }
    if o.Ok? {
      assert Took(run, got', n);
      var at' := at + [n];
      forall i | Took(run, got', i)
        ensures exists k :: 0 <= k < |at'| && at'[k] == i
      {
        if i == n {
          assert at'[|at|] == i;
        } else {
          assert Took(run, got, i);
          var k :| 0 <= k < |at| && at[k] == i;
          assert at'[k] == i;
        }
      }
    } else {
      assert forall i :: Took(run, got', i) ==> Took(run, got, i);
    }
  }

  lemma EmptyLanes(table: seq<Slot>)
    requires forall k :: 0 <= k < |table| ==> table[k].epoch == 0
    ensures forall sender: nat, from: nat :: Lane(table, sender, from)
  {
  }

  lemma Start(run: seq<Delivery>)
    ensures Tallied(run, [], [], [], {}, 0) && Spaced(run, [])
  {
  }

  /** Only acceptances in epoch zero have lost their records. */
  ghost predicate Kept(arrivals: seq<(Envelope, int)>, lost: set<nat>) {
    forall k :: 0 <= k < |arrivals| && EpochOf(arrivals[k].1) >= 1 ==> k !in lost
  }

  lemma StillSpaced(run: seq<Delivery>, got: seq<Outcome>, arrivals: seq<(Envelope, int)>, at: seq<nat>, o: Outcome,
        lost: set<nat>)
    requires |got| < |run| && Matches(run, got, arrivals, at) && Spaced(run, got) && Kept(arrivals, lost)
    requires o.Ok? ==> run[|got|].e.Some? && forall k ::
               0 <= k < |arrivals| && Known(arrivals[k], run[|got|].e.value, run[|got|].now) ==> k in lost
    ensures Spaced(run, got + [o])
  {
    hide EpochOf;
    var n, got' := |got|, got + [o];
    forall i, j | i < j && Took(run, got', i) && Took(run, got', j) && EpochOf(run[i].now) >= 1
      ensures !Known((run[i].e.value, run[i].now), run[j].e.value, run[j].now)
    {
      assert Took(run, got, i);
      if j < n {
        assert Took(run, got, j);
      } else {
        var k :| 0 <= k < |at| && at[k] == i;
        assert arrivals[k] == (run[i].e.value, run[i].now);
      }
    }
  }

  lemma StillKept(arrivals: seq<(Envelope, int)>, lost: set<nat>, arrivals': seq<(Envelope, int)>, lost': set<nat>,
        now: int)
    requires Kept(arrivals, lost) && (forall i :: i in lost ==> i < |arrivals|)
    requires lost' == lost + Unrecorded(|arrivals|, EpochOf(now)) && exists e :: arrivals' == arrivals + [(e, now)]
    ensures Kept(arrivals', lost')
  {
  }

  lemma StillBefore(run: seq<Delivery>, got: seq<Outcome>, o: Outcome, j: nat)
    requires j < |got| < |run| && Before(run, got, j)
    ensures Before(run, got + [o], j)
  {
    hide Known;
    var i :| i < j && Took(run, got, i) && Known((run[i].e.value, run[i].now), run[j].e.value, run[j].now);
    assert Took(run, got + [o], i);
  }

  lemma RefusedBefore(run: seq<Delivery>, got: seq<Outcome>, arrivals: seq<(Envelope, int)>, at: seq<nat>, o: Outcome)
    requires |got| < |run| && Matches(run, got, arrivals, at) && run[|got|].e.Some?
    requires exists k :: 0 <= k < |arrivals| && Known(arrivals[k], run[|got|].e.value, run[|got|].now)
    ensures Before(run, got + [o], |got|)
  {
    hide Known;
    var k :| 0 <= k < |arrivals| && Known(arrivals[k], run[|got|].e.value, run[|got|].now);
    assert Took(run, got + [o], at[k]);
  }

  /** The answers so far: each is that of the checks in their order; while nothing is evicted, acceptances are
      spaced; and late refusals as a replay have their reason. */
  ghost predicate Answers(keys: Keys, id: nat, run: seq<Delivery>, got: seq<Outcome>, evicted: nat) {
    && |got| <= |run|
    && (forall i :: 0 <= i < |got| ==>
          got[i] == OpenResult(keys, id, run[i].e, run[i].space, run[i].now, got[i] == Replayed))
    && (evicted == 0 ==> Spaced(run, got))
    && (forall j :: 0 <= j < |got| && got[j] == Replayed && EpochOf(run[j].now) >= 3 ==> Before(run, got, j))
  }

  /** ... and what the receiver remembers of them. */
  ghost predicate Tallied(run: seq<Delivery>, got: seq<Outcome>, arrivals: seq<(Envelope, int)>, at: seq<nat>,
        lost: set<nat>, evicted: nat)
  {
    Matches(run, got, arrivals, at) && (evicted == 0 ==> Kept(arrivals, lost))
  }

  /** One answer more. */
  lemma Answered(keys: Keys, id: nat, run: seq<Delivery>, got: seq<Outcome>, arrivals: seq<(Envelope, int)>,
        at: seq<nat>, lost: set<nat>, evicted: nat, o: Outcome, evicted': nat)
    requires Answers(keys, id, run, got, evicted) && Tallied(run, got, arrivals, at, lost, evicted) && |got| < |run|
    requires var d := run[|got|];
             && o == OpenResult(keys, id, d.e, d.space, d.now, o == Replayed)
             && (o.Ok? || (o == Replayed && EpochOf(d.now) >= 3) ==> d.e.Some?)
             && (o.Ok? ==> forall k :: 0 <= k < |arrivals| && Known(arrivals[k], d.e.value, d.now) ==> k in lost)
             && (o == Replayed && EpochOf(d.now) >= 3 ==>
                   exists k :: 0 <= k < |arrivals| && Known(arrivals[k], d.e.value, d.now))
    requires evicted <= evicted'
    ensures Answers(keys, id, run, got + [o], evicted')
  {
    hide Matches, Spaced, Before, OpenResult, EpochOf, Known, Kept, Took;
    if evicted' == 0 {
      StillSpaced(run, got, arrivals, at, o, lost);
    }
    forall j | 0 <= j < |got| && got[j] == Replayed && EpochOf(run[j].now) >= 3
      ensures Before(run, got + [o], j)
    {
      StillBefore(run, got, o, j);
    }
    if o == Replayed && EpochOf(run[|got|].now) >= 3 {
      RefusedBefore(run, got, arrivals, at, o);
    }
  }

  lemma StillTallied(run: seq<Delivery>, got: seq<Outcome>, arrivals: seq<(Envelope, int)>, at: seq<nat>,
        lost: set<nat>, evicted: nat, o: Outcome, arrivals': seq<(Envelope, int)>, lost': set<nat>, evicted': nat)
    requires |got| < |run| && Tallied(run, got, arrivals, at, lost, evicted)
    requires evicted <= evicted' && forall i :: i in lost ==> i < |arrivals|
    requires o.Ok? ==> run[|got|].e.Some? && arrivals' == arrivals + [(run[|got|].e.value, run[|got|].now)]
    requires !o.Ok? ==> arrivals' == arrivals && lost' == lost
    requires o.Ok? && evicted' == evicted ==> lost' == lost + Unrecorded(|arrivals|, EpochOf(run[|got|].now))
    ensures Tallied(run, got + [o], arrivals', if o.Ok? then at + [|got|] else at, lost', evicted')
  {
    hide Matches, EpochOf, Kept, Took, Unrecorded;
    Extended(run, got, arrivals, at, o);
    if o.Ok? && evicted' == 0 {
      StillKept(arrivals, lost, arrivals', lost', run[|got|].now);
    }
  }

  /** Over any deliveries in any order to a new receiver: every answer is that of the checks in their
      order; while nothing is evicted, from epoch one on, two acceptances of one sender and number are
      more than two epochs apart; and from epoch three on a delivery is refused as a replay only when
      its number was accepted within two epochs. */
  method Run(id: nat, keys: Keys, run: seq<Delivery>) returns (got: seq<Outcome>, evicted: nat)
    requires InOrder(run)
    ensures |got| == |run| && (evicted > 0 ==> |run| > PROBES)
    ensures (exists sender: nat, from: nat :: OneLane(run, sender, from)) ==> evicted == 0
    ensures forall i :: 0 <= i < |run| ==>
              got[i] == OpenResult(keys, id, run[i].e, run[i].space, run[i].now, got[i] == Replayed)
    ensures evicted == 0 ==> Spaced(run, got)
    ensures forall j :: 0 <= j < |run| && got[j] == Replayed && EpochOf(run[j].now) >= 3 ==> Before(run, got, j)
  {
    hide Matches, Spaced, Before, OpenResult, EpochOf, Known, Passes, Kept, Took, LedgerOk, Unrecorded, Tallied;
    hide Receiver.Valid, Receiver.OnceEach, Lane, InLane;
    var r := new Receiver(id, keys);
    got := [];
    ghost var at: seq<nat> := [];
    Start(run);
    EmptyLanes(r.ledger.slot[..]);
    for n := 0 to |run|
      invariant |got| == n && r.Valid() && r.OnceEach() && fresh(r) && fresh(r.ledger) && fresh(r.ledger.slot)
      invariant r.id == id && r.keys == keys
      invariant n > 0 ==> r.Until(run[n - 1].now)
      invariant n == 0 ==> r.ledger.last == 0 && r.arrivals == []
      invariant |r.arrivals| <= n && (r.ledger.evicted > 0 ==> n > PROBES)
      invariant Tallied(run, got, r.arrivals, at, r.ledger.lost, r.ledger.evicted)
      invariant Answers(keys, id, run, got, r.ledger.evicted)
      invariant forall sender: nat, from: nat :: OneLane(run, sender, from) ==>
                  r.ledger.evicted == 0 && Lane(r.ledger.slot[..], sender, from)
    {
      hide Answers;
      if n > 0 {
        EpochGrows(run[n - 1].now, run[n].now);
      }
      ghost var arrivals, lost, before := r.arrivals, r.ledger.lost, r.ledger.evicted;
      r.LostArrived();
      var o := r.Open(run[n].e, run[n].space, run[n].now);
      Answered(keys, id, run, got, arrivals, at, lost, before, o, r.ledger.evicted);
      StillTallied(run, got, arrivals, at, lost, before, o, r.arrivals, r.ledger.lost, r.ledger.evicted);
      if o.Ok? {
        at := at + [n];
      }
      got := got + [o];
    }
    evicted := r.ledger.evicted;
  }

  /** Accepted at most once: in a run that evicts nothing, from epoch one on, no two acceptances carry
      the same MAC unless the ledger does not remember the window, even where the bytes past the
      ciphertext differ. */
  lemma AcceptedOnce(id: nat, keys: Keys, run: seq<Delivery>, got: seq<Outcome>, i: nat, j: nat)
    requires KeysInjective(keys) && InOrder(run) && |got| == |run| && Spaced(run, got)
    requires forall k :: 0 <= k < |run| ==>
               got[k] == OpenResult(keys, id, run[k].e, run[k].space, run[k].now, got[k] == Replayed)
    requires i < j && Took(run, got, i) && Took(run, got, j) && EpochOf(run[i].now) >= 1
    requires run[i].e.value.seal.mac == run[j].e.value.seal.mac
    ensures !Remembered(run[i].e.value.seal)
  {
    hide EpochOf, SealVerify, Xored;
    var a, b := run[i].e.value, run[j].e.value;
    Opened(keys, id, a, run[i].space, run[i].now);
    Opened(keys, id, b, run[j].space, run[j].now);
    MacIdentifies(keys, id, a, b, run[i].now, run[j].now);
    assert SameNumber(a, b) && !Known((a, run[i].now), b, run[j].now);
    InsideWindow(keys, id, a, run[i].now);
    InsideWindow(keys, id, b, run[j].now);
  }

  lemma Opened(keys: Keys, id: nat, e: Envelope, space: nat, now: int)
    ensures forall replay :: OpenResult(keys, id, Some(e), space, now, replay).Ok? ==> Passes(keys, id, e, now)
  {
  }

  lemma InsideWindow(keys: Keys, id: nat, e: Envelope, now: int)
    requires Passes(keys, id, e, now)
    ensures InWindow(e.seal, now)
  {
  }

  /** A message delivered twice, from epoch three on, is accepted twice exactly when it passes the checks
      at both times and they are more than two epochs apart. */
  method Twice(id: nat, keys: Keys, e: Envelope, space: nat, t: int, t': int) returns (first: Outcome, second: Outcome)
    requires t <= t' && EpochOf(t) >= 3
    ensures first == OpenResult(keys, id, Some(e), space, t, false)
    ensures second == OpenResult(keys, id, Some(e), space, t', first.Ok? && EpochOf(t) + 2 >= EpochOf(t'))
  {
    var run := [Delivery(Some(e), space, t), Delivery(Some(e), space, t')];
    var got, evicted := Run(id, keys, run);
    first, second := got[0], got[1];
    EpochGrows(t, t');
    assert Took(run, got, 0) <==> first.Ok?;
    assert Took(run, got, 1) <==> second.Ok?;
  }

  /** The longest lifetime under which no message is accepted twice is 121 seconds: for any other one that
      keeps the end of the window in range, a message sealed in the last second of an epoch is accepted
      then and again 121 seconds later. */
  method TwiceAfterLongLife(keys: Keys, sender: nat, receiver: nat, seqno: nat, text: seq<Byte>, lifetime: nat,
        nonce: seq<Byte>, epoch: nat) returns (first: Outcome, second: Outcome)
    requires |text| < U32 && 121 < lifetime && epoch >= 3 && epoch * EPOCH_SECONDS + 59 + lifetime < S63
    ensures first.Ok? && second.Ok?
  {
    var made := (epoch + 1) * EPOCH_SECONDS - 1;
    var e := EnvelopeSeal(keys, sender, receiver, seqno, text, lifetime, made, nonce);
    LongestRemembered(lifetime, epoch);
    assert e.seal.notBefore == made && e.seal.notAfter == made + lifetime;
    assert e.tail[..e.head.ctLen] == e.tail;
    first, second := Twice(receiver, keys, e, |text|, made, made + 121);
  }

  /** What opening an envelope gives, the ledger's answer aside: the checks in the order they are made. */
  function OpenResult(keys: Keys, id: nat, e: Option<Envelope>, space: nat, now: int, replay: bool): Outcome {
    if e == None then Invalid
    else
      var v := e.value;
      if v.head.ver != 1 then NotSupported
      else if v.head.receiver != id then NoAccess
      else if |v.tail| < v.head.ctLen then Invalid
      else if v.head.ctLen > space then NoSpace
      else
        var ct := v.tail[..v.head.ctLen];
        match SealVerify(keys.mac, v.seal, id, keys.digest(v.head, ct), now)
        case Expired => SealExpired
        case BadSeal => SealRefused
        case Accepted => if replay then Replayed else Ok(Xored(keys, v.head.epoch, v.head.nonce, ct))
  }

  /** Each answer of the checks, by what is wrong with the envelope: version, receiver, length, room, time, and last
      the seal, in this order. */
  lemma AnswerMeans(keys: Keys, id: nat, v: Envelope, space: nat, now: int, replay: bool)
    ensures var r := OpenResult(keys, id, Some(v), space, now, replay);
            var whole := v.head.ver == 1 && v.head.receiver == id && |v.tail| >= v.head.ctLen;
            var open := v.seal.notBefore <= now && (v.seal.notAfter == 0 || now < v.seal.notAfter);
            var ct := if |v.tail| >= v.head.ctLen then v.tail[..v.head.ctLen] else [];
            var genuine := && v.seal.subject == id
                           && v.seal.mac == keys.mac(Sealed(v.seal.epoch, id, v.seal.seqno, v.seal.notBefore,
                                                            v.seal.notAfter, keys.digest(v.head, ct)));
            && (r == NotSupported <==> v.head.ver != 1)
            && (r == NoAccess <==> v.head.ver == 1 && v.head.receiver != id)
            && (r == Invalid <==> v.head.ver == 1 && v.head.receiver == id && |v.tail| < v.head.ctLen)
            && (r == NoSpace <==> whole && v.head.ctLen > space)
            && (r == SealExpired <==> whole && v.head.ctLen <= space && !open)
            && (r == SealRefused <==> whole && v.head.ctLen <= space && open && !genuine)
            && (r == Replayed <==> whole && v.head.ctLen <= space && open && genuine && replay)
            && (r.Ok? ==> |r.text| == v.head.ctLen && forall i :: 0 <= i < |r.text| ==>
                            r.text[i] == v.tail[i] ^ keys.stream(v.head.epoch, v.head.nonce, i))
  {
  }

  /** An envelope opens to what was sealed, in its window and the first time, exactly when the length
      fits the 32-bit length field. */
  lemma SealOpenRoundTrip(keys: Keys, sender: nat, receiver: nat, seqno: nat, text: seq<Byte>, lifetime: nat,
          made: int, nonce: seq<Byte>, space: nat, now: int)
    requires KeysInjective(keys) && |text| <= space
    ensures var e := EnvelopeSeal(keys, sender, receiver, seqno, text, lifetime, made, nonce);
            var got := OpenResult(keys, receiver, Some(e), space, now, false);
            && (if InWindow(e.seal, now) then (got == Ok(text) <==> |text| < U32) else got == SealExpired)
            && e.head.sender == sender && e.head.seqno == seqno && e.seal.seqno == seqno && e.seal.notBefore == made
            && e.seal.notAfter == ToS64(made + ToS64(if lifetime == 0 then 60 else lifetime))
            && e.head.epoch == e.seal.epoch == EpochOf(made)
  {
    var e := EnvelopeSeal(keys, sender, receiver, seqno, text, lifetime, made, nonce);
    var ct := Xored(keys, e.head.epoch, nonce, text);
    assert |e.tail| >= e.head.ctLen;
    if |text| < 0x1_0000_0000 {
      assert e.tail[..e.head.ctLen] == ct;
      var back := Xored(keys, e.head.epoch, nonce, ct);
      forall i | 0 <= i < |text|
        ensures back[i] == text[i]
      {
        XorTwice(text[i], keys.stream(e.head.epoch, nonce, i));
      }
      assert back == text;
    } else {
      assert |e.tail[..e.head.ctLen]| < |ct|;
    }
  }

  lemma XorTwice(x: Byte, k: Byte)
    ensures (x ^ k) ^ k == x
  {
  }
}
