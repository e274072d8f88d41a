/** Whole runs of calls on the capability spaces (kernel/cap/cap.c): what a granted lookup says about the calls
    before it. */
module CapRun {
  import opened Common
  import opened TemporalSeal
  import opened CapState
  import opened Capabilities

  /** A call, with whether memory can be had and the time. An object is named as its creation answered. */
  datatype Call =
    | ObjectCreate(kind: nat, now: int)
    | ObjectGet(obj: nat, now: int)
    | ObjectPut(obj: nat, now: int)
    | SpaceCreate(now: int)
    | Install(space: nat, obj: nat, rights: Rights, badge: nat, lifetime: nat, memory: bool, now: int)
    | Lookup(h: Handle, kind: nat, need: Rights, now: int)
    | SingleUse(h: Handle, now: int)
    | Derive(space: nat, parent: nat, rights: Rights, badge: nat, lifetime: nat, memory: bool, now: int)
    | Grant(h: Handle, to: nat, mask: Rights, memory: bool, now: int)
    | Close(h: Handle, now: int)
    | Revoke(h: Handle, now: int)
    | RevokeObject(obj: nat, now: int)

  /** What a call answers: the object made, a handle to an object, the verdict of a lookup and the object, the
      object revoked. */
  datatype Answer =
    | Made(obj: nat)
    | Handed(h: Handle, obj: nat)
    | Answered(status: Status, obj: nat)
    | Revoked(obj: nat)
    | Done

  /** A clock that does not run backwards, and 64-bit lifetimes. */
  ghost predicate Timed(calls: seq<Call>) {
    && (forall i, j :: 0 <= i <= j < |calls| ==> 0 <= calls[i].now <= calls[j].now < S63)
    && (forall i :: 0 <= i < |calls| && (calls[i].Install? || calls[i].Derive?) ==> calls[i].lifetime < U64)
  }

  function Revocations(got: seq<Answer>, o: nat): nat {
    if got == [] then 0
    else Revocations(got[..|got| - 1], o) + (if got[|got| - 1] == Revoked(o) then 1 else 0)
  }

  /** Answer `k` is the last that handed out the handle. */
  ghost predicate HandedLast(got: seq<Answer>, h: Handle, k: nat) {
    && k < |got| && got[k].Handed? && got[k].h == h
    && forall l :: k < l < |got| ==> !(got[l].Handed? && got[l].h == h)
  }

  /** A derivation whose 64-bit end comes to zero. */
  predicate EndAtZero(c: Call) {
    c.Derive? && c.lifetime + c.now == U64
  }

  /** The window of an install made then, with this lifetime, is open. */
  predicate Open(made: int, lifetime: nat, now: int) {
    var end := ToS64(made + ToS64(if lifetime != 0 then lifetime else EPOCH_SECONDS));
    made <= now && (end == 0 || now < end)
  }

  /** Call `r` installed a capability to the object at first hand. */
  ghost predicate FirstHand(calls: seq<Call>, got: seq<Answer>, r: nat, o: nat) {
    r < |got| && r < |calls| && calls[r].Install? && got[r].Handed? && got[r].obj == o
  }

  /** Call `m` made the object. */
  ghost predicate Makes(calls: seq<Call>, got: seq<Answer>, m: nat, o: nat) {
    m < |got| && m < |calls| && calls[m].ObjectCreate? && got[m] == Made(o)
  }

  /** Why a lookup was granted `need`: since its handle was last handed out, at call `k`, its object was revoked a
      multiple of 2^32 times; call `m` made the object, of the kind asked for if one was; and an install of that
      object at first hand, no later, had these rights, and its window is open if no derivation so far had its end
      come to zero. */
  ghost predicate Justified(calls: seq<Call>, got: seq<Answer>, h: Handle, o: nat, kind: nat, need: Rights, now: int,
        k: nat, r: nat, m: nat) {
    && |got| <= |calls| && HandedLast(got, h, k) && got[k].obj == o
    && Revocations(got[k..], o) % U32 == 0
    && Makes(calls, got, m, o) && (kind == 0 || calls[m].kind == kind)
    && r <= k && FirstHand(calls, got, r, o) && need <= calls[r].rights
    && ((forall i :: 0 <= i < |got| ==> !EndAtZero(calls[i])) ==> Open(calls[r].now, calls[r].lifetime, now))
  }

  ghost predicate Explained(calls: seq<Call>, got: seq<Answer>, j: nat) {
    j < |got| <= |calls|
    && (calls[j].Lookup? && got[j].Answered? && got[j].status == Granted ==>
          exists k: nat, r: nat, m: nat ::
            Justified(calls, got[..j], calls[j].h, got[j].obj, calls[j].kind, calls[j].need, calls[j].now, k, r, m))
  }

  /** Calls that can empty a slot or change what it holds. */
  predicate Names(c: Call, g: Handle) {
    (c.Lookup? || c.SingleUse? || c.Grant? || c.Close?) && c.h == g
  }

  /** Install `k` gave out a handle that was not given out again, closed or marked for a single use since. */
  ghost predicate Untouched(calls: seq<Call>, got: seq<Answer>, k: nat) {
    && k < |got| <= |calls| && calls[k].Install? && got[k].Handed? && HandedLast(got, got[k].h, k)
    && forall l :: k < l < |got| && (calls[l].Close? || calls[l].SingleUse?) ==> calls[l].h != got[k].h
  }

  /** What a lookup answers by the handle of install `k`, to an object that call `m` made of some kind. */
  ghost predicate Fair(calls: seq<Call>, got: seq<Answer>, j: nat, k: nat, m: nat)
    requires k < j < |got| <= |calls| && m < |calls| && calls[k].Install? && calls[j].Lookup? && calls[m].ObjectCreate?
  {
    && got[j].Answered?
    && var c := calls[j];
       var fits := (c.kind == 0 || c.kind == calls[m].kind) && c.need <= calls[k].rights;
       var current := Revocations(got[k..j], calls[k].obj) % U32 == 0;
       if Open(calls[k].now, calls[k].lifetime, c.now)
       then got[j].status == (if !fits then Denied else if !current then BadHandle else Granted)
       else got[j].status != Granted
  }

  /** Whatever else was called since, by anyone and as often as one likes, a lookup by a handle from an install is
      granted exactly when the object was made of the kind asked for, the install had the rights, its window is open,
      and the object was revoked a multiple of 2^32 times since. */
  ghost predicate Exact(calls: seq<Call>, got: seq<Answer>, j: nat) {
    j < |got| <= |calls|
    && forall k :: 0 <= k < j && Untouched(calls, got[..j], k) && calls[j].Lookup? && calls[j].h == got[k].h ==>
         exists m: nat :: m < k && Makes(calls, got, m, calls[k].obj) && Fair(calls, got, j, k, m)
  }

  /** No two calls make the same object. */
  ghost predicate OneMaker(got: seq<Answer>) {
    forall m, n :: 0 <= m < n < |got| && got[m].Made? ==> got[n] != got[m]
  }

  // ---- what one call does to the state

  /** But for one handle at most, a capability that is there was there, and is the same line of descent. */
  ghost predicate Kept(s: State, s': State, except: set<Handle>) {
    forall g :: g in s'.slots && g !in except ==>
      g in s.slots && g in s.info && g in s'.info && s'.slots[g].obj == s.slots[g].obj && s'.info[g] == s.info[g]
  }

  predicate Same(s: State, s': State, g: Handle) {
    g in s.slots && g in s'.slots && s'.slots[g] == s.slots[g] && Get(s'.info, g) == Get(s.info, g)
  }

  /** A capability the call does not name stays as it is; so does one of unlimited use that is looked up or granted
      from while its window is open, and otherwise it may go. */
  ghost predicate Stays(s: State, s': State, c: Call) {
    && (forall g :: g in s.slots && !Names(c, g) ==> Same(s, s', g))
    && forall g :: g in s.slots && s.slots[g].uses == 0 && (c.Lookup? || c.Grant?) ==>
         Same(s, s', g) || (g !in s'.slots && !InWindow(s.slots[g].seal, c.now))
  }

  /** An object that is there was there, of the same kind, or the call made it. */
  ghost predicate KindsKept(s: State, s': State, c: Call, a: Answer) {
    && (forall o :: o in s'.objs ==>
          if o in s.objs then s'.objs[o].kind == s.objs[o].kind
          else c.ObjectCreate? && a == Made(o) && s'.objs[o].kind == c.kind)
    && (forall o :: o in s.revoked ==> o in s'.revoked) && (a.Made? ==> a.obj !in s.revoked && a.obj in s'.revoked)
  }

  /** The handle's line of descent starts at this call or goes on from another handle's. */
  ghost predicate Descended(s: State, s': State, c: Call, h: Handle, o: nat)
    requires h in s'.info && h in s'.slots
  {
    if c.Install? then
      && |s'.installs| == |s.installs| + 1 && s'.installs[..|s.installs|] == s.installs
      && s'.info[h].origin == |s.installs| && !s'.info[h].endless
      && var i := s'.installs[|s.installs|];
         && i == CapState.Install(o, c.rights, s'.slots[h].seal) && s'.slots[h].rights == c.rights
         && s'.slots[h].uses == 0
         && forall now :: InWindow(i.seal, now) <==> Open(c.now, c.lifetime, now)
    else
      && s'.installs == s.installs
      && exists g :: g in s.slots && g in s.info && s.slots[g].obj == o
                     && s'.info[h].origin == s.info[g].origin
                     && (s'.info[h].endless ==> s.info[g].endless || EndAtZero(c))
  }

  ghost predicate Moved(s: State, s': State, c: Call, a: Answer) {
    Stays(s, s', c) && KindsKept(s, s', c, a) && Told(s, s', c, a)
  }

  /** What the answer says. */
  ghost predicate Told(s: State, s': State, c: Call, a: Answer) {
    match a
    case Handed(h, o) =>
      && h in s'.slots && h in s'.info && s'.slots[h].obj == o && o in s.objs && o in s.revoked
      && s'.info[h].born == s.revoked[o]
      && s'.revoked == s.revoked && Kept(s, s', {h}) && Descended(s, s', c, h, o)
    case Revoked(o) =>
      && s'.slots == s.slots && s'.info == s.info && s'.installs == s.installs
      && o in s.revoked && s'.revoked == s.revoked[o := s.revoked[o] + 1]
    case _ =>
      && Kept(s, s', {}) && s'.installs == s.installs
      && forall o :: o in s.revoked ==> Get(s'.revoked, o) == Get(s.revoked, o)
  }

  // ---- what the state remembers of the calls

  /** The live handle `g` was last handed out at call `k`, and its object revoked as often since as its count says. */
  ghost predicate TracedTo(calls: seq<Call>, got: seq<Answer>, at: seq<nat>, s: State, g: Handle, k: nat)
    requires g in s.slots
  {
    && g in s.info && s.slots[g].obj in s.revoked
    && HandedLast(got, g, k) && got[k].obj == s.slots[g].obj
    && s.info[g].born + Revocations(got[k..], s.slots[g].obj) == s.revoked[s.slots[g].obj]
    && s.info[g].origin < |at| && at[s.info[g].origin] <= k
    && FirstHand(calls, got, at[s.info[g].origin], s.slots[g].obj)
    && (s.info[g].endless ==> exists i :: 0 <= i < |got| && i < |calls| && EndAtZero(calls[i]))
  }

  ghost predicate Traced(calls: seq<Call>, got: seq<Answer>, at: seq<nat>, s: State) {
    && |at| == |s.installs| && (forall i :: 0 <= i < |at| ==> MadeBy(calls, got, at[i], s.installs[i]))
    && forall g :: g in s.slots ==> exists k :: TracedTo(calls, got, at, s, g, k)
  }

  /** The install was made by that call. */
  ghost predicate MadeBy(calls: seq<Call>, got: seq<Answer>, r: nat, i: Install) {
    && r < |got| && r < |calls| && calls[r].Install? && got[r].Handed? && got[r].obj == i.obj
    && i.rights == calls[r].rights
    && forall now :: InWindow(i.seal, now) <==> Open(calls[r].now, calls[r].lifetime, now)
  }

  lemma OneMore(got: seq<Answer>, a: Answer, k: nat, o: nat)
    requires k <= |got|
    ensures Revocations((got + [a])[k..], o) == Revocations(got[k..], o) + (if a == Revoked(o) then 1 else 0)
  {
    assert (got + [a])[k..] == got[k..] + [a];
    assert (got[k..] + [a])[..|got[k..]|] == got[k..];
  }

  /** A handle that is still there. */
  lemma StillTraced(calls: seq<Call>, got: seq<Answer>, at: seq<nat>, s: State, s': State, at': seq<nat>, a: Answer,
        g: Handle, k: nat)
    requires |got| < |calls| && g in s.slots && g in s'.slots && TracedTo(calls, got, at, s, g, k)
    requires g in s'.info && s'.info[g] == s.info[g] && s'.slots[g].obj == s.slots[g].obj
    requires |at| <= |at'| && at'[..|at|] == at && (a.Handed? ==> a.h != g)
    requires var o := s.slots[g].obj;
             o in s'.revoked && s'.revoked[o] == s.revoked[o] + (if a == Revoked(o) then 1 else 0)
    ensures TracedTo(calls, got + [a], at', s', g, k)
  {
    var o, got' := s.slots[g].obj, got + [a];
    OneMore(got, a, k, o);
    assert at'[s.info[g].origin] == at'[..|at|][s.info[g].origin];
    hide Revocations, EndAtZero;
  }

  /** The handle just handed out. */
  lemma NowTraced(calls: seq<Call>, got: seq<Answer>, at: seq<nat>, s: State, s': State, h: Handle, o: nat)
    requires |got| < |calls| && Traced(calls, got, at, s) && Moved(s, s', calls[|got|], Handed(h, o))
    ensures var at' := if calls[|got|].Install? then at + [|got|] else at;
            && TracedTo(calls, got + [Handed(h, o)], at', s', h, |got|)
            && (calls[|got|].Install? ==> MadeBy(calls, got + [Handed(h, o)], |got|, s'.installs[|at|]))
  {
    hide Open, InWindow, Kept;
    var n, a := |got|, Handed(h, o);
    assert got[n..] == [];
    OneMore(got, a, n, o);
    assert (got + [a])[n] == a;
    if !calls[n].Install? {
      var g :| g in s.slots && g in s.info && s.slots[g].obj == o && s'.info[h].origin == s.info[g].origin
               && (s'.info[h].endless ==> s.info[g].endless || EndAtZero(calls[n]));
      var k :| TracedTo(calls, got, at, s, g, k);
      assert FirstHand(calls, got + [a], at[s.info[g].origin], o);
    }
  }

  lemma StillMade(calls: seq<Call>, got: seq<Answer>, a: Answer, r: nat, i: Install)
    requires MadeBy(calls, got, r, i)
    ensures MadeBy(calls, got + [a], r, i)
  {
    hide Open, InWindow;
  }

  lemma TracedOn(calls: seq<Call>, got: seq<Answer>, at: seq<nat>, s: State, s': State, a: Answer)
    requires |got| < |calls| && Traced(calls, got, at, s) && Moved(s, s', calls[|got|], a)
    ensures var at' := if a.Handed? && calls[|got|].Install? then at + [|got|] else at;
            Traced(calls, got + [a], at', s')
  {
    hide TracedTo, MadeBy, Open, InWindow, Revocations;
    var c := calls[|got|];
    var at' := if a.Handed? && c.Install? then at + [|got|] else at;
    if a.Handed? {
      NowTraced(calls, got, at, s, s', a.h, a.obj);
    }
    forall i | 0 <= i < |at'|
      ensures MadeBy(calls, got + [a], at'[i], s'.installs[i])
    {
      if i < |at| {
        StillMade(calls, got, a, at[i], s.installs[i]);
        assert s'.installs[i] == s'.installs[..|s.installs|][i];
      }
    }
    forall g | g in s'.slots
      ensures exists k :: TracedTo(calls, got + [a], at', s', g, k)
    {
      if a.Handed? && g == a.h {
        assert TracedTo(calls, got + [a], at', s', g, |got|);
      } else {
        HandleStays(calls, got, at, s, s', a, at', g);
      }
    }
  }

  lemma HandleStays(calls: seq<Call>, got: seq<Answer>, at: seq<nat>, s: State, s': State, a: Answer, at': seq<nat>,
        g: Handle)
    requires |got| < |calls| && Traced(calls, got, at, s) && Moved(s, s', calls[|got|], a)
    requires g in s'.slots && (a.Handed? ==> a.h != g) && |at| <= |at'| && at'[..|at|] == at
    ensures exists k :: TracedTo(calls, got + [a], at', s', g, k)
  {
    hide MadeBy, Descended, HandedLast, FirstHand, Revocations;
    assert g in s.slots;
    var k :| TracedTo(calls, got, at, s, g, k);
    assert Get(s'.revoked, s.slots[g].obj) == Some(s'.revoked[s.slots[g].obj]);
    StillTraced(calls, got, at, s, s', at', a, g, k);
  }

  /** A granted lookup is explained by the calls before it. */
  lemma GrantExplained(calls: seq<Call>, got: seq<Answer>, at: seq<nat>, s: State, h: Handle, o: nat, kind: nat,
        need: Rights, now: int)
    requires |got| < |calls| && Traced(calls, got, at, s) && Known(calls, got, s)
    requires Authorized(s, h, kind, need, now) && s.slots[h].obj == o
    ensures exists k: nat, r: nat, m: nat :: Justified(calls, got, h, o, kind, need, now, k, r, m)
  {
    hide Open, InWindow, HandedLast, Revocations, EndAtZero;
    var k :| TracedTo(calls, got, at, s, h, k);
    var r := at[s.info[h].origin];
    assert MadeBy(calls, got, r, s.installs[s.info[h].origin]);
    var m: nat :| Makes(calls, got, m, o);
    assert Justified(calls, got, h, o, kind, need, now, k, r, m);
  }

  // ---- objects and the calls that made them

  ghost predicate Known(calls: seq<Call>, got: seq<Answer>, s: State) {
    && (forall m: nat, o: nat :: Makes(calls, got, m, o) ==>
          o in s.revoked && (o in s.objs ==> s.objs[o].kind == calls[m].kind))
    && (forall o :: o in s.objs ==> exists m: nat :: Makes(calls, got, m, o))
    && (forall m: nat :: m < |got| && got[m].Made? ==> got[m].obj in s.revoked)
    && OneMaker(got)
  }

  /** Every install was of an object made before. */
  ghost predicate MadeFirst(calls: seq<Call>, got: seq<Answer>) {
    forall k :: 0 <= k < |got| && k < |calls| && calls[k].Install? && got[k].Handed? ==>
      exists m: nat :: m < k && Makes(calls, got, m, got[k].obj)
  }

  lemma StillMakes(calls: seq<Call>, got: seq<Answer>, a: Answer)
    ensures forall m: nat, o: nat :: m < |got| ==> (Makes(calls, got, m, o) <==> Makes(calls, got + [a], m, o))
  {
    assert forall m :: 0 <= m < |got| ==> (got + [a])[m] == got[m];
  }

  lemma StillKnown(calls: seq<Call>, got: seq<Answer>, s: State, s': State, a: Answer)
    requires |got| < |calls| && Known(calls, got, s) && KindsKept(s, s', calls[|got|], a)
    requires a.Made? ==> calls[|got|].ObjectCreate?
    ensures Known(calls, got + [a], s')
  {
    var n, got' := |got|, got + [a];
    StillMakes(calls, got, a);
    assert got'[n] == a && forall m :: 0 <= m < n ==> got'[m] == got[m];
    forall o | o in s'.objs
      ensures exists m: nat :: Makes(calls, got', m, o)
    {
      if o in s.objs {
        var m: nat :| Makes(calls, got, m, o);
        assert Makes(calls, got', m, o);
      } else {
        assert Makes(calls, got', n, o);
      }
    }
  }

  lemma StillMadeFirst(calls: seq<Call>, got: seq<Answer>, s: State, a: Answer)
    requires |got| < |calls| && Known(calls, got, s) && MadeFirst(calls, got)
    requires calls[|got|].Install? && a.Handed? ==> a.obj in s.objs
    ensures MadeFirst(calls, got + [a])
  {
    var n, got' := |got|, got + [a];
    StillMakes(calls, got, a);
    hide Makes;
    forall k | 0 <= k <= n && calls[k].Install? && got'[k].Handed?
      ensures exists m: nat :: m < k && Makes(calls, got', m, got'[k].obj)
    {
      if k < n {
        assert got'[k] == got[k];
        var m: nat :| m < k && Makes(calls, got, m, got[k].obj);
        assert Makes(calls, got', m, got'[k].obj);
      } else {
        var m: nat :| Makes(calls, got, m, a.obj);
        MakesBound(calls, got, m, a.obj);
        assert Makes(calls, got', m, got'[k].obj);
      }
    }
  }

  lemma MakesBound(calls: seq<Call>, got: seq<Answer>, m: nat, o: nat)
    requires Makes(calls, got, m, o)
    ensures m < |got| && m < |calls| && calls[m].ObjectCreate?
  {
  }

  // ---- handles from installs

  /** The handle's capability is what install `k` made it, or is gone, its window over. */
  ghost predicate HoldsFrom(calls: seq<Call>, got: seq<Answer>, s: State, k: nat)
    requires Untouched(calls, got, k)
  {
    var h, o := got[k].h, calls[k].obj;
    && got[k].obj == o && o in s.revoked
    && if h in s.slots then
         && h in s.info && s.slots[h].obj == o && s.slots[h].rights == calls[k].rights && s.slots[h].uses == 0
         && (forall now :: InWindow(s.slots[h].seal, now) <==> Open(calls[k].now, calls[k].lifetime, now))
         && s.info[h].born + Revocations(got[k..], o) == s.revoked[o]
       else forall now :: now >= calls[|got| - 1].now ==> !Open(calls[k].now, calls[k].lifetime, now)
  }

  ghost predicate Intact(calls: seq<Call>, got: seq<Answer>, s: State) {
    forall k :: 0 <= k < |got| && Untouched(calls, got, k) ==> HoldsFrom(calls, got, s, k)
  }

  lemma StillIntact(calls: seq<Call>, got: seq<Answer>, s: State, s': State, a: Answer)
    requires Timed(calls) && |got| < |calls| && Intact(calls, got, s) && Moved(s, s', calls[|got|], a)
    requires a.Handed? && calls[|got|].Install? ==> a.obj == calls[|got|].obj
    ensures Intact(calls, got + [a], s')
  {
    hide HoldsFrom, Moved, Timed;
    var n, got' := |got|, got + [a];
    forall k | 0 <= k <= n && Untouched(calls, got', k)
      ensures HoldsFrom(calls, got', s', k)
    {
      if k == n {
        NowHolds(calls, got, s, s', a);
      } else {
        assert Untouched(calls, got, k) by {
          assert forall l :: 0 <= l < n ==> got'[l] == got[l];
        }
        StillHolds(calls, got, s, s', a, k);
      }
    }
  }

  lemma NowHolds(calls: seq<Call>, got: seq<Answer>, s: State, s': State, a: Answer)
    requires |got| < |calls| && Moved(s, s', calls[|got|], a) && Untouched(calls, got + [a], |got|)
    requires a.Handed? && a.obj == calls[|got|].obj
    ensures HoldsFrom(calls, got + [a], s', |got|)
  {
    hide Open, InWindow, Kept, Stays, KindsKept;
    assert got[|got|..] == [];
    OneMore(got, a, |got|, a.obj);
  }

  lemma StillHolds(calls: seq<Call>, got: seq<Answer>, s: State, s': State, a: Answer, k: nat)
    requires Timed(calls) && |got| < |calls| && k < |got|
    requires Untouched(calls, got, k) && Untouched(calls, got + [a], k)
    requires Moved(s, s', calls[|got|], a) && HoldsFrom(calls, got, s, k)
    ensures HoldsFrom(calls, got + [a], s', k)
  {
    hide Open, InWindow, Descended, Revocations, KindsKept;
    var n, h, o, got' := |got|, got[k].h, calls[k].obj, got + [a];
    assert got'[k] == got[k] && got'[n] == a;
    OneMore(got, a, k, o);
    assert Get(s.revoked, o) == Some(s.revoked[o]);
    if h !in s.slots {
      assert h !in s'.slots;
    } else if h in s'.slots {
      assert Same(s, s', h) && Get(s.info, h) == Some(s.info[h]);
    } else {
      forall now | now >= calls[n].now
        ensures !Open(calls[k].now, calls[k].lifetime, now)
      {
        StaysClosed(calls[k].now, calls[k].lifetime, calls[n].now, now);
      }
    }
  }

  lemma StaysClosed(made: int, lifetime: nat, now: int, later: int)
    requires made <= now <= later && !Open(made, lifetime, now)
    ensures !Open(made, lifetime, later)
  {
  }

  // ---- the run

  /** A new capability at first hand. */
  lemma InstallMoves(mac: Mac, body: Body, s: State, s': State, c: Call, h: Handle)
    requires c.Install? && (forall g :: g in s.slots ==> g in s.info) && c.lifetime < U64
    requires Installed(mac, body, s, s', h, c.obj, c.rights, c.badge, c.lifetime, c.now, None)
    ensures Moved(s, s', c, Handed(h, c.obj)) && s'.others == s.others
  {
    hide InWindow;
    assert s'.installs[..|s.installs|] == s.installs;
    forall now
      ensures InWindow(s'.installs[|s.installs|].seal, now) <==> Open(c.now, c.lifetime, now)
    {
      SealOpens(mac, c.obj, c.badge, body(c.obj, s.objs[c.obj].kind, c.rights, s.objs[c.obj].generation, c.badge),
                c.lifetime, c.now, now);
    }
    hide SealMake, Open;
  }

  lemma SealOpens(mac: Mac, o: nat, badge: nat, payload: seq<Byte>, lifetime: nat, made: int, now: int)
    ensures InWindow(SealMake(mac, o, badge, payload, lifetime, made), now) <==> Open(made, lifetime, now)
  {
  }

  /** A new capability from that of another handle, `t` being the state after that one's use. */
  lemma DescentMoves(mac: Mac, body: Body, s: State, t: State, s': State, c: Call, g: Handle, h: Handle,
        rights: Rights, badge: nat, lifetime: nat, endless: bool)
    requires (c.Derive? || c.Grant?) && g in s.slots && g in s.info && Kept(s, t, {}) && t.revoked == s.revoked
    requires Stays(s, t, c) && forall x :: x in s.slots && s.slots[x].uses == 0 ==> Same(s, t, x)
    requires t.objs == s.objs && t.installs == s.installs && (endless ==> s.info[g].endless || EndAtZero(c))
    requires forall x :: x in t.slots ==> x in t.info
    requires Installed(mac, body, t, s', h, s.slots[g].obj, rights, badge, lifetime, c.now,
                       Some((s.info[g].origin, endless)))
    ensures Moved(s, s', c, Handed(h, s.slots[g].obj)) && s'.others == t.others
  {
    hide SealMake, EndAtZero, InWindow;
    assert h !in t.slots && h in s'.slots && h in s'.info && s'.slots == t.slots[h := s'.slots[h]]
           && s'.info == t.info[h := s'.info[h]];
    assert Descended(s, s', c, h, s.slots[g].obj) && KindsKept(s, s', c, Handed(h, s.slots[g].obj));
    hide Installed, Descended, KindsKept;
    AddedStays(s, t, s', c, h);
    hide Stays, Kept;
  }

  lemma AddedStays(s: State, t: State, s': State, c: Call, h: Handle)
    requires Kept(s, t, {}) && Stays(s, t, c) && forall x :: x in s.slots && s.slots[x].uses == 0 ==> Same(s, t, x)
    requires h !in t.slots && h in s'.slots && h in s'.info && s'.slots == t.slots[h := s'.slots[h]]
    requires s'.info == t.info[h := s'.info[h]]
    ensures Stays(s, s', c) && Kept(s, s', {h})
  {
    hide InWindow;
  }

  lemma UsedParts(s: State, h: Handle)
    ensures var t := AfterUse(s, h);
            && t.slots == UsedOnce(s.slots, h) && (t.info == s.info || (t.info == s.info - {h} && h !in t.slots))
            && t.installs == s.installs && t.revoked == s.revoked && t.others == s.others && t.objs == s.objs
  {
    UsedSlots(s.slots, h);
    if h !in s.slots {
      assert UsedOnce(s.slots, h) == s.slots;
    }
    hide UsedOnce, More;
    if h in s.slots && s.slots[h].uses == 1 {
      assert AfterUse(s, h).info == s.info - {h};
    } else if h in s.slots {
      assert AfterUse(s, h) == s.(slots := UsedOnce(s.slots, h));
    }
  }

  lemma UsedKept(s: State, c: Call, h: Handle)
    requires (forall g :: g in s.slots ==> g in s.info) && Names(c, h) && (c.Lookup? || c.Grant?)
    ensures Stays(s, AfterUse(s, h), c)
    ensures forall g :: g in s.slots && s.slots[g].uses == 0 ==> Same(s, AfterUse(s, h), g)
    ensures Kept(s, AfterUse(s, h), {}) && AfterUse(s, h).installs == s.installs
    ensures AfterUse(s, h).revoked == s.revoked && AfterUse(s, h).others == s.others && AfterUse(s, h).objs == s.objs
    ensures forall g :: g in AfterUse(s, h).slots ==> g in AfterUse(s, h).info
  {
    UsedParts(s, h);
    UsedSlots(s.slots, h);
    hide AfterUse, UsedOnce;
  }

  lemma RemovedKept(s: State, s': State, c: Call, h: Handle)
    requires (forall g :: g in s.slots ==> g in s.info) && Names(c, h) && Removed(s, s', h)
    requires !InWindow(s.slots[h].seal, c.now)
    ensures Stays(s, s', c) && Kept(s, s', {}) && forall a: Answer :: !a.Made? ==> KindsKept(s, s', c, a)
    ensures s'.installs == s.installs && s'.revoked == s.revoked && s'.others == s.others
  {
  }

  lemma UsedSlots(slots: map<Handle, Cap>, h: Handle)
    ensures forall g :: g in UsedOnce(slots, h) ==> g in slots && UsedOnce(slots, h)[g].obj == slots[g].obj
    ensures h in slots && slots[h].uses == 1 ==> h !in UsedOnce(slots, h)
    ensures h in slots && slots[h].uses == 0 ==> UsedOnce(slots, h) == slots
    ensures forall g :: g in slots && g != h ==> g in UsedOnce(slots, h) && UsedOnce(slots, h)[g] == slots[g]
  {
  }

  lemma LookMoves(mac: Mac, body: Body, s: State, s': State, h: Handle, kind: nat, need: Rights, now: int, c: Call,
        a: Answer)
    requires Capabilities.Looked(mac, body, s, s', h, kind, need, now) && forall g :: g in s.slots ==> g in s.info
    requires (a.Answered? || a.Done?) && Names(c, h) && (c.Lookup? || c.Grant?) && now == c.now
    ensures Moved(s, s', c, a) && s'.others == s.others
  {
    match LookupStatus(mac, body, s, h, kind, need, now) {
      case Granted => UsedKept(s, c, h);
      case Lapsed => RemovedKept(s, s', c, h);
      case _ => KeptSelf(s, c);
    }
    hide LookupStatus, AfterUse, Kept, Stays, Removed;
  }

  lemma Unmoved(s: State, c: Call, a: Answer)
    requires (a.Answered? || a.Done?) && forall g :: g in s.slots ==> g in s.info
    ensures Moved(s, s, c, a)
  {
  }

  method InstallAt(caps: Caps, c: Call) returns (a: Answer)
    requires caps.Valid() && caps.last <= c.now < S63 && c.Install? && c.lifetime < U64
    modifies caps
    ensures caps.Valid() && caps.others == old(caps.others) && caps.last <= c.now
    ensures Moved(old(caps.S()), caps.S(), c, a) && (a.Handed? || a.Done?) && (a.Handed? ==> a.obj == c.obj)
  {
    hide CapsOk, Installed, Moved, Full;
    ghost var s := caps.S();
    InfoFacts(caps.mac, caps.body, s, caps.last);
    var r := caps.Install(c.space, c.obj, c.rights, c.badge, c.lifetime, c.now, c.memory, None);
    if r == None {
      Unmoved(s, c, Done);
      return Done;
    }
    InstallMoves(caps.mac, caps.body, s, caps.S(), c, (c.space, r.value));
    a := Handed((c.space, r.value), c.obj);
  }

  method DeriveAt(caps: Caps, c: Call) returns (a: Answer)
    requires caps.Valid() && caps.last <= c.now < S63 && c.Derive? && c.lifetime < U64
    modifies caps
    ensures caps.Valid() && caps.others == old(caps.others) && caps.last <= c.now
    ensures Moved(old(caps.S()), caps.S(), c, a) && (a.Handed? || a.Done?)
  {
    hide CapsOk, Installed, Moved, Full, LookupStatus, Covers, ChildOf;
    ghost var s := caps.S();
    InfoFacts(caps.mac, caps.body, s, caps.last);
    var h := (c.space, c.parent);
    var o := if h in caps.slots then caps.slots[h].obj else 0;
    var r := caps.Derive(c.space, c.parent, c.rights, c.badge, c.lifetime, c.now, c.memory);
    if r == None {
      Unmoved(s, c, Done);
      return Done;
    }
    ghost var p, i := s.slots[h], s.info[h];
    KeptSelf(s, c);
    DescentMoves(caps.mac, caps.body, s, s, caps.S(), c, h, (c.space, r.value), c.rights * p.rights, c.badge,
                 DeriveLife(p.seal.notAfter, c.lifetime, c.now), i.endless || Wraps(p.seal, c.lifetime, c.now));
    a := Handed((c.space, r.value), o);
  }

  lemma KeptSelf(s: State, c: Call)
    requires forall g :: g in s.slots ==> g in s.info
    ensures Kept(s, s, {}) && Stays(s, s, c) && forall g :: g in s.slots ==> Same(s, s, g)
  {
  }

  method GrantAt(caps: Caps, c: Call) returns (a: Answer)
    requires caps.Valid() && caps.last <= c.now < S63 && c.Grant?
    modifies caps
    ensures caps.Valid() && caps.others == old(caps.others) && caps.last <= c.now
    ensures Moved(old(caps.S()), caps.S(), c, a) && (a.Handed? || a.Done?)
  {
    hide CapsOk, Installed, Moved, Full, LookupStatus, Covers, CopyOf, AfterUse, Kept, Capabilities.Looked;
    ghost var s := caps.S();
    InfoFacts(caps.mac, caps.body, s, caps.last);
    var o := if c.h in caps.slots then caps.slots[c.h].obj else 0;
    var r := caps.Grant(c.h, c.to, c.mask, c.now, c.memory);
    if r == None {
      LookMoves(caps.mac, caps.body, s, caps.S(), c.h, 0, GRANT, c.now, c, Done);
      return Done;
    }
    ghost var p, i := s.slots[c.h], s.info[c.h];
    UsedKept(s, c, c.h);
    DescentMoves(caps.mac, caps.body, s, AfterUse(s, c.h), caps.S(), c, c.h, (c.to, r.value), p.rights * c.mask,
                 p.badge, p.seal.notAfter - c.now, i.endless);
    a := Handed((c.to, r.value), o);
  }

  method LookupAt(caps: Caps, c: Call) returns (a: Answer)
    requires caps.Valid() && caps.last <= c.now < S63 && c.Lookup?
    modifies caps
    ensures caps.Valid() && caps.others == old(caps.others) && caps.last <= c.now
    ensures Moved(old(caps.S()), caps.S(), c, a) && a.Answered?
    ensures a.status == LookupStatus(caps.mac, caps.body, old(caps.S()), c.h, c.kind, c.need, c.now)
    ensures a.status == Granted ==>
              Authorized(old(caps.S()), c.h, c.kind, c.need, c.now) && a.obj == old(caps.slots)[c.h].obj
  {
    hide CapsOk, Moved, LookupStatus, AfterUse, Kept, Authorized, Removed;
    ghost var s := caps.S();
    InfoFacts(caps.mac, caps.body, s, caps.last);
    var r, o := caps.Lookup(c.h, c.kind, c.need, c.now);
    a := Answered(r, o);
    LookMoves(caps.mac, caps.body, s, caps.S(), c.h, c.kind, c.need, c.now, c, a);
  }

  /** Make one call; one that names an object, a space or a handle that is not there changes nothing. `held` counts
      the references kept outside slots. */
  method Serve(caps: Caps, held: map<nat, nat>, c: Call) returns (a: Answer, held': map<nat, nat>)
    requires caps.Valid() && caps.others == held && caps.last <= c.now < S63
    requires c.Install? || c.Derive? ==> c.lifetime < U64
    modifies caps
    ensures caps.Valid() && caps.others == held' && caps.last <= c.now
    ensures Moved(old(caps.S()), caps.S(), c, a) && (a.Answered? <==> c.Lookup?)
    ensures (c.Install? && a.Handed? ==> a.obj == c.obj) && (a.Made? ==> c.ObjectCreate?)
    ensures c.Lookup? ==> a.status == LookupStatus(caps.mac, caps.body, old(caps.S()), c.h, c.kind, c.need, c.now)
    ensures c.Lookup? && a.status == Granted ==>
              Authorized(old(caps.S()), c.h, c.kind, c.need, c.now) && a.obj == old(caps.slots)[c.h].obj
  {
    hide CapsOk, Moved, LookupStatus, Authorized, Removed;
    held' := held;
    if c.Install? {
      a := InstallAt(caps, c);
    } else if c.Derive? {
      a := DeriveAt(caps, c);
    } else if c.Grant? {
      a := GrantAt(caps, c);
    } else if c.Lookup? {
      a := LookupAt(caps, c);
    } else if c.Revoke? || c.RevokeObject? {
      a := RevokeAt(caps, c);
    } else {
      a := Done;
      if c.SingleUse? || c.Close? {
        SlotAt(caps, c);
      } else {
        a, held' := CountAt(caps, held, c);
      }
    }
  }

  method RevokeAt(caps: Caps, c: Call) returns (a: Answer)
    requires caps.Valid() && (c.Revoke? || c.RevokeObject?)
    modifies caps
    ensures caps.Valid() && caps.others == old(caps.others) && caps.last == old(caps.last)
    ensures Moved(old(caps.S()), caps.S(), c, a) && (a.Revoked? || a.Done?)
  {
    hide CapsOk, Moved, LookupStatus;
    ghost var s := caps.S();
    InfoFacts(caps.mac, caps.body, s, caps.last);
    a := Done;
    Unmoved(s, c, Done);
    if c.Revoke? {
      var ok := caps.Revoke(c.h);
      if ok {
        a := Revoked(caps.slots[c.h].obj);
        RevokeMoves(s, caps.S(), c, caps.slots[c.h].obj);
      }
    } else if c.obj in caps.objs {
      caps.RevokeObject(c.obj);
      a := Revoked(c.obj);
      RevokeMoves(s, caps.S(), c, c.obj);
    }
  }

  lemma RevokeMoves(s: State, s': State, c: Call, o: nat)
    requires (c.Revoke? || c.RevokeObject?) && (forall g :: g in s.slots ==> g in s.info)
    requires o in s.objs && o in s.revoked && s' == s.(objs := s'.objs, revoked := s'.revoked)
    requires s'.revoked == s.revoked[o := s.revoked[o] + 1]
    requires s'.objs == s.objs[o := s.objs[o].(generation := (s.objs[o].generation + 1) % U32)]
    ensures Moved(s, s', c, Revoked(o))
  {
  }

  /** Calls that change counts or make something new. */
  method CountAt(caps: Caps, held: map<nat, nat>, c: Call) returns (a: Answer, held': map<nat, nat>)
    requires caps.Valid() && caps.others == held
    requires c.ObjectCreate? || c.ObjectGet? || c.ObjectPut? || c.SpaceCreate?
    modifies caps
    ensures caps.Valid() && caps.others == held' && caps.last == old(caps.last)
    ensures Moved(old(caps.S()), caps.S(), c, a) && (a.Made? || a.Done?) && (a.Made? ==> c.ObjectCreate?)
  {
    hide CapsOk, Moved, Dropped, Holders;
    ghost var s := caps.S();
    InfoFacts(caps.mac, caps.body, s, caps.last);
    a, held' := Done, held;
    if c.ObjectCreate? {
      var o := caps.ObjectCreate(c.kind);
      a, held' := Made(o), held[o := 1];
    } else if c.SpaceCreate? {
      var p := caps.SpaceCreate();
    } else if c.ObjectGet? && c.obj in caps.objs {
      caps.ObjectGet(c.obj);
      held' := held[c.obj := held[c.obj] + 1];
    } else if c.ObjectPut? && c.obj in caps.objs && c.obj in held && held[c.obj] > 0 {
      caps.ObjectPut(c.obj);
      DroppedKinds(s.objs, c.obj);
      held' := held[c.obj := held[c.obj] - 1];
    }
    CountMoves(s, caps.S(), c, a);
  }

  lemma DroppedKinds(objs: map<nat, Obj>, o: nat)
    ensures forall x :: x in Dropped(objs, o) ==> x in objs && Dropped(objs, o)[x].kind == objs[x].kind
  {
  }

  /** Calls on one slot. */
  method SlotAt(caps: Caps, c: Call)
    requires caps.Valid() && (c.SingleUse? || c.Close?)
    modifies caps
    ensures caps.Valid() && caps.others == old(caps.others) && caps.last == old(caps.last)
    ensures Moved(old(caps.S()), caps.S(), c, Done)
  {
    hide CapsOk, Moved, Removed;
    ghost var s := caps.S();
    InfoFacts(caps.mac, caps.body, s, caps.last);
    Unmoved(s, c, Done);
    if c.Close? {
      var ok := caps.Close(c.h);
      if ok {
        CloseMoves(s, caps.S(), c);
      }
    } else if c.h in caps.slots {
      caps.SingleUse(c.h);
      MarkMoves(s, caps.S(), c);
    }
  }

  lemma CloseMoves(s: State, s': State, c: Call)
    requires c.Close? && Removed(s, s', c.h) && forall g :: g in s.slots ==> g in s.info
    ensures Moved(s, s', c, Done) && s'.others == s.others
  {
  }

  lemma MarkMoves(s: State, s': State, c: Call)
    requires c.SingleUse? && c.h in s.slots && (forall g :: g in s.slots ==> g in s.info)
    requires s' == s.(slots := s.slots[c.h := s.slots[c.h].(uses := 1)])
    ensures Moved(s, s', c, Done)
  {
  }

  lemma CountMoves(s: State, s': State, c: Call, a: Answer)
    requires (forall g :: g in s.slots ==> g in s.info) && s'.installs == s.installs && !a.Handed? && !a.Answered?
    requires forall g :: g in s'.slots ==>
               g in s.slots && Get(s'.info, g) == Get(s.info, g) && s'.slots[g].obj == s.slots[g].obj
    requires Stays(s, s', c) && KindsKept(s, s', c, a)
    requires !a.Revoked? ==> forall o :: o in s.revoked ==> Get(s'.revoked, o) == Get(s.revoked, o)
    requires a.Revoked? ==> s'.slots == s.slots && s'.info == s.info && a.obj in s.revoked
    requires a.Revoked? ==> s'.revoked == s.revoked[a.obj := s.revoked[a.obj] + 1]
    ensures Moved(s, s', c, a)
  {
  }

  /** Over any calls on new spaces: whatever a lookup is granted, the calls before it explain; and by a handle from
      an install it is granted exactly what kind, rights, window and revocations allow. */
  method Run(mac: Mac, body: Body, calls: seq<Call>) returns (got: seq<Answer>)
    requires Timed(calls)
    ensures |got| == |calls| && OneMaker(got)
    ensures forall j :: 0 <= j < |calls| ==> Explained(calls, got, j) && Exact(calls, got, j)
  {
    hide Intact, Exact, Traced, Explained, Moved, Authorized, LookupStatus, CapsOk, Known, MadeFirst, Timed;
    var caps := new Caps(mac, body);
    var held := map[];
    got := [];
    ghost var at: seq<nat> := [];
    NothingTraced(calls, caps.S());
    for n := 0 to |calls|
      invariant |got| == n && fresh(caps) && caps.Valid() && caps.others == held
      invariant caps.last <= (if n == 0 then 0 else calls[n - 1].now)
      invariant Traced(calls, got, at, caps.S()) && Intact(calls, got, caps.S())
      invariant Known(calls, got, caps.S()) && MadeFirst(calls, got)
      invariant forall j :: 0 <= j < n ==> Explained(calls, got, j) && Exact(calls, got, j)
    {
      ghost var s, last := caps.S(), caps.last;
      TimedAt(calls, n);
      var a;
      a, held := Serve(caps, held, calls[n]);
      MovedParts(s, caps.S(), calls[n], a);
      StillKnown(calls, got, s, caps.S(), a);
      StillMadeFirst(calls, got, s, a);
      StillIntact(calls, got, s, caps.S(), a);
      StillExact(caps.mac, caps.body, calls, got, s, last, a);
      TracedOn(calls, got, at, s, caps.S(), a);
      StillExplained(calls, got, at, s, a);
      if a.Handed? && calls[n].Install? {
        at := at + [n];
      }
      got := got + [a];
    }
    KnownMakers(calls, got, caps.S());
  }

  lemma NothingTraced(calls: seq<Call>, s: State)
    requires s.slots == map[] && s.installs == [] && s.objs == map[]
    ensures Traced(calls, [], [], s) && Intact(calls, [], s) && Known(calls, [], s) && MadeFirst(calls, [])
  {
  }

  lemma TimedAt(calls: seq<Call>, n: nat)
    requires Timed(calls) && n < |calls|
    ensures 0 <= calls[n].now < S63 && (n > 0 ==> calls[n - 1].now <= calls[n].now)
    ensures calls[n].Install? || calls[n].Derive? ==> calls[n].lifetime < U64
  {
  }

  lemma MovedParts(s: State, s': State, c: Call, a: Answer)
    requires Moved(s, s', c, a)
    ensures KindsKept(s, s', c, a) && (a.Handed? ==> a.obj in s.objs)
  {
  }

  lemma KnownMakers(calls: seq<Call>, got: seq<Answer>, s: State)
    requires Known(calls, got, s)
    ensures OneMaker(got)
  {
  }

  lemma StillExplained(calls: seq<Call>, got: seq<Answer>, at: seq<nat>, s: State, a: Answer)
    requires |got| < |calls| && Traced(calls, got, at, s) && Known(calls, got, s)
    requires forall j :: 0 <= j < |got| ==> Explained(calls, got, j)
    requires var c := calls[|got|];
             c.Lookup? && a.Answered? && a.status == Granted ==>
               Authorized(s, c.h, c.kind, c.need, c.now) && a.obj == s.slots[c.h].obj
    ensures forall j :: 0 <= j <= |got| ==> Explained(calls, got + [a], j)
  {
    hide Traced, Authorized, Justified, Known;
    var n, c := |got|, calls[|got|];
    assert (got + [a])[..n] == got;
    if c.Lookup? && a.Answered? && a.status == Granted {
      GrantExplained(calls, got, at, s, c.h, a.obj, c.kind, c.need, c.now);
    }
    forall j | 0 <= j < n
      ensures Explained(calls, got + [a], j)
    {
      assert Explained(calls, got, j);
      assert (got + [a])[..j] == got[..j];
    }
  }

  lemma StillExact(mac: Mac, body: Body, calls: seq<Call>, got: seq<Answer>, s: State, last: int, a: Answer)
    requires Timed(calls) && |got| < |calls| && Intact(calls, got, s) && CapsOk(mac, body, s, last)
    requires Known(calls, got, s) && MadeFirst(calls, got)
    requires forall j :: 0 <= j < |got| ==> Exact(calls, got, j)
    requires var c := calls[|got|];
             c.Lookup? ==> a.Answered? && a.status == LookupStatus(mac, body, s, c.h, c.kind, c.need, c.now)
    ensures forall j :: 0 <= j <= |got| ==> Exact(calls, got + [a], j)
  {
    hide CapsOk, LookupStatus, Fair, Known, MadeFirst, Timed, Intact;
    var n, c, got' := |got|, calls[|got|], got + [a];
    StillMakes(calls, got, a);
    forall j | 0 <= j <= n
      ensures Exact(calls, got', j)
    {
      assert got'[..j] == got[..j];
      forall k | 0 <= k < j && Untouched(calls, got'[..j], k) && calls[j].Lookup? && calls[j].h == got'[k].h
        ensures exists m: nat :: m < k && Makes(calls, got', m, calls[k].obj) && Fair(calls, got', j, k, m)
      {
        if j < n {
          StillFair(calls, got, a, j, k);
        } else {
          assert got[..n] == got;
          NowFair(mac, body, calls, got, s, last, a, k);
        }
      }
    }
  }

  lemma StillFair(calls: seq<Call>, got: seq<Answer>, a: Answer, j: nat, k: nat)
    requires k < j < |got| < |calls| && Exact(calls, got, j)
    requires Untouched(calls, got[..j], k) && calls[j].Lookup? && calls[j].h == got[k].h
    ensures exists m: nat :: m < k && Makes(calls, got + [a], m, calls[k].obj) && Fair(calls, got + [a], j, k, m)
  {
    hide Open, Revocations;
    StillMakes(calls, got, a);
    var m: nat :| m < k && Makes(calls, got, m, calls[k].obj) && Fair(calls, got, j, k, m);
    assert (got + [a])[k..j] == got[k..j] && (got + [a])[j] == got[j];
    assert Makes(calls, got + [a], m, calls[k].obj) && Fair(calls, got + [a], j, k, m);
  }

  lemma NowFair(mac: Mac, body: Body, calls: seq<Call>, got: seq<Answer>, s: State, last: int, a: Answer, k: nat)
    requires Timed(calls) && k < |got| < |calls| && Untouched(calls, got, k) && Intact(calls, got, s)
    requires CapsOk(mac, body, s, last) && Known(calls, got, s) && MadeFirst(calls, got)
    requires var c := calls[|got|];
             && c.Lookup? && c.h == got[k].h && a.Answered?
             && a.status == LookupStatus(mac, body, s, c.h, c.kind, c.need, c.now)
    ensures exists m: nat ::
              m < k && Makes(calls, got + [a], m, calls[k].obj) && Fair(calls, got + [a], |got|, k, m)
  {
    hide CapsOk, LookupStatus, InWindow, Open, Revocations, OneMaker;
    var n, c := |got|, calls[|got|];
    assert HoldsFrom(calls, got, s, k);
    StillMakes(calls, got, a);
    var m: nat :| m < k && Makes(calls, got, m, calls[k].obj);
    StatusExactly(mac, body, s, c.h, c.kind, c.need, c.now, last);
    assert (got + [a])[k..n] == got[k..] && (got + [a])[n] == a;
    assert Makes(calls, got + [a], m, calls[k].obj) && Fair(calls, got + [a], n, k, m);
  }

  /** A handle handed out before a revocation of its object is refused from then on, until it is handed out again
      or the object has been revoked 2^32 times since. */
  lemma RefusedSince(calls: seq<Call>, got: seq<Answer>, k: nat, i: nat, j: nat)
    requires |got| == |calls| && Explained(calls, got, j) && k < i < j
    requires got[k].Handed? && got[i] == Revoked(got[k].obj) && calls[j].Lookup? && calls[j].h == got[k].h
    requires forall l :: k < l < j ==> !(got[l].Handed? && got[l].h == got[k].h)
    requires Revocations(got[k..j], got[k].obj) < U32
    ensures !(got[j].Answered? && got[j].status == Granted)
  {
    if got[j].Answered? && got[j].status == Granted {
      var k': nat, r: nat, m: nat :|
        Justified(calls, got[..j], calls[j].h, got[j].obj, calls[j].kind, calls[j].need, calls[j].now, k', r, m);
      assert got[..j][k] == got[k] && got[..j][k'] == got[k'];
      assert k' == k;
      assert got[..j][k..] == got[k..j];
      assert got[k..j][i - k] == got[i];
      Counted(got[k..j], i - k, got[k].obj);
      assert false;
    }
  }

  lemma {:induction false} Counted(got: seq<Answer>, i: nat, o: nat)
    requires i < |got| && got[i] == Revoked(o)
    ensures Revocations(got, o) > 0
  {
    if i < |got| - 1 {
      Counted(got[..|got| - 1], i, o);
    }
  }
}
