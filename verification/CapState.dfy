/** Capabilities, their provenance, and the invariant over every capability space (kernel/cap/cap.c). */
module CapState {
  import opened Common
  import opened TemporalSeal

  const INIT_SLOTS: nat := 64
  const MAX_SLOTS: nat := 65536

  /** A mask of rights, as the set of its bit positions: masking is intersection. */
  type Rights = set<nat>

  const GRANT: Rights := {6}
  const DERIVE: Rights := {7}
  const REVOKE: Rights := {8}

  /** A space and an index in it. */
  type Handle = (nat, nat)

  datatype Cap = Cap(obj: nat, rights: Rights, generation: nat, badge: nat, seal: Seal, uses: nat)

  datatype Obj = Obj(kind: nat, generation: nat, refcount: nat)

  /** A capability handed out at first hand. */
  datatype Install = Install(obj: nat, rights: Rights, seal: Seal)

  /** Where a slot's capability comes from, how often its object had been revoked when it was made,
      and whether it descends from a derivation whose end wrapped to zero. */
  datatype Info = Info(origin: nat, born: nat, endless: bool)

  datatype State = State(objs: map<nat, Obj>, nslots: map<nat, nat>, used: map<nat, nat>, slots: map<Handle, Cap>,
                         info: map<Handle, Info>, installs: seq<Install>, revoked: map<nat, nat>,
                         others: map<nat, nat>, spent: map<nat, nat>, spentIn: map<nat, nat>)

  lemma CoversVia(a: Seal, b: Seal, c: Seal)
    requires Covers(a, b) && Covers(b, c)
    ensures Covers(a, c)
  {
  }

  /** The generation after so many revocations of an object made at one. */
  function Gen(revocations: nat): nat {
    (1 + revocations) % U32
  }

  lemma SameGen(a: nat, b: nat)
    requires a <= b
    ensures Gen(a) == Gen(b) <==> (b - a) % U32 == 0
  {
  }

  /** Whenever the first seal is in its window so is the second. */
  ghost predicate Covers(inner: Seal, outer: Seal) {
    forall t :: InWindow(inner, t) ==> InWindow(outer, t)
  }

  /** The lifetime a derivation asks for, cut to what the parent has left; zero is none. */
  function DeriveLife(end: int, lifetime: nat, now: int): nat {
    var left := if end - now < 0 then 0 else end - now;
    if lifetime == 0 || ToS64(lifetime) > left then left else lifetime
  }

  /** A derivation fails for time exactly when the parent's is up and the lifetime is not read as negative; else the
      child's window begins now and ends when asked, or with the parent if that is sooner or nothing was asked. */
  lemma DerivedEnd(mac: Mac, parent: Seal, lifetime: nat, now: int, subject: nat, seqno: nat, payload: seq<Byte>)
    requires 0 <= now < S63 && lifetime < U64 && parent.notAfter < S63
    ensures DeriveLife(parent.notAfter, lifetime, now) == 0 <==> parent.notAfter <= now && lifetime < S63
    ensures DeriveLife(parent.notAfter, lifetime, now) != 0 ==>
              var child := SealMake(mac, subject, seqno, payload, DeriveLife(parent.notAfter, lifetime, now), now);
              && child.notBefore == now
              && child.notAfter == (if lifetime >= S63 then now + lifetime - U64
                                    else if lifetime == 0 || parent.notAfter < now + lifetime then parent.notAfter
                                    else now + lifetime)
  {
    if lifetime >= S63 {
      assert ToS64(lifetime) == lifetime - U64;
    }
  }

  /** A derived window lies in its parent's exactly when the lifetime asked for does not bring the
      64-bit end to zero, which a seal reads as no end, or the parent has no end either. */
  lemma DeriveShortens(mac: Mac, parent: Seal, lifetime: nat, now: int, subject: nat, seqno: nat, payload: seq<Byte>)
    requires 0 <= now < S63 && lifetime < U64 && parent.notBefore <= now && parent.notAfter < S63
    requires DeriveLife(parent.notAfter, lifetime, now) != 0
    ensures var child := SealMake(mac, subject, seqno, payload, DeriveLife(parent.notAfter, lifetime, now), now);
            Covers(child, parent) <==> !(parent.notAfter != 0 && lifetime + now == U64)
  {
    var life := DeriveLife(parent.notAfter, lifetime, now);
    var child := SealMake(mac, subject, seqno, payload, life, now);
    if lifetime < S63 {
      assert child.notAfter == now + life;
    } else {
      assert ToS64(lifetime) == lifetime - U64;
      assert child.notAfter == now + lifetime - U64;
      if child.notAfter == 0 && parent.notAfter != 0 {
        var t := if parent.notAfter > now then parent.notAfter else now;
        assert InWindow(child, t) && !InWindow(parent, t);
      }
    }
  }

  ghost function Holders(slots: map<Handle, Cap>, o: nat): set<Handle> {
    set h | h in slots && slots[h].obj == o
  }

  ghost function Occupied(slots: map<Handle, Cap>, s: nat): set<Handle> {
    set h | h in slots && h.0 == s
  }

  /** What a capability's seal covers besides its window. */
  type Body = (nat, nat, Rights, nat, nat) -> seq<Byte>

  ghost predicate Sound(mac: Mac, body: Body, c: Cap, kind: nat) {
    && c.seal.subject == c.obj
    && c.seal.mac == mac(Covered(c.seal, c.obj, body(c.obj, kind, c.rights, c.generation, c.badge)))
  }

  /** Attenuation: no right and, but for an end wrapped to zero, no moment the first install did not have. */
  ghost predicate Attenuated(c: Cap, root: Install, endless: bool) {
    c.obj == root.obj && c.rights <= root.rights && (!endless ==> Covers(c.seal, root.seal))
  }

  ghost predicate SlotOk(mac: Mac, body: Body, s: State, h: Handle, last: int) {
    && h in s.slots && h in s.info && s.slots[h].obj in s.objs && s.slots[h].obj in s.revoked
    && h.0 in s.nslots && h.1 < s.nslots[h.0]
    && var c, i := s.slots[h], s.info[h];
       && Sound(mac, body, c, s.objs[c.obj].kind) && c.seal.notBefore <= last && c.seal.notAfter < S63
       && i.origin < |s.installs| && Attenuated(c, s.installs[i.origin], i.endless)
       && i.born <= s.revoked[c.obj] && c.generation == Gen(i.born)
  }

  ghost predicate ObjOk(s: State, o: nat) {
    && o in s.objs && o in s.revoked && o in s.others && o in s.spent
    && s.objs[o].generation == Gen(s.revoked[o])
    && s.objs[o].refcount == s.others[o] + |Holders(s.slots, o)| + s.spent[o]
    && s.objs[o].refcount > 0
  }

  /** The first size doubled up to the last. */
  predicate SlotCount(n: nat) {
    n in {64, 128, 256, 512, 1024, 2048, 4096, 8192, 16384, 32768, 65536}
  }

  ghost predicate SpaceOk(s: State, p: nat) {
    && p in s.nslots && p in s.used && p in s.spentIn
    && SlotCount(s.nslots[p])
    && s.used[p] == |Occupied(s.slots, p)| + s.spentIn[p]
  }

  ghost predicate CapsOk(mac: Mac, body: Body, s: State, last: int) {
    && (forall h :: h in s.slots ==> SlotOk(mac, body, s, h, last))
    && (forall o :: o in s.objs ==> ObjOk(s, o))
    && (forall p :: p in s.nslots ==> SpaceOk(s, p))
  }

  lemma HoldersAdd(slots: map<Handle, Cap>, h: Handle, c: Cap, o: nat)
    requires h !in slots
    ensures |Holders(slots[h := c], o)| == |Holders(slots, o)| + (if c.obj == o then 1 else 0)
  {
    assert Holders(slots[h := c], o) == Holders(slots, o) + (if c.obj == o then {h} else {});
  }

  lemma HoldersLess(slots: map<Handle, Cap>, h: Handle, o: nat)
    requires h in slots
    ensures |Holders(slots, o)| == |Holders(slots - {h}, o)| + (if slots[h].obj == o then 1 else 0)
  {
    HoldersAdd(slots - {h}, h, slots[h], o);
    assert (slots - {h})[h := slots[h]] == slots;
  }

  lemma OccupiedAdd(slots: map<Handle, Cap>, h: Handle, c: Cap, p: nat)
    requires h !in slots
    ensures |Occupied(slots[h := c], p)| == |Occupied(slots, p)| + (if h.0 == p then 1 else 0)
  {
    assert Occupied(slots[h := c], p) == Occupied(slots, p) + (if h.0 == p then {h} else {});
  }

  lemma OccupiedLess(slots: map<Handle, Cap>, h: Handle, p: nat)
    requires h in slots
    ensures |Occupied(slots, p)| == |Occupied(slots - {h}, p)| + (if h.0 == p then 1 else 0)
  {
    OccupiedAdd(slots - {h}, h, slots[h], p);
    assert (slots - {h})[h := slots[h]] == slots;
  }

  /** Nothing the slots rest on is taken away. */
  ghost predicate Grows(s: State, s': State) {
    && |s.installs| <= |s'.installs| && s'.installs[..|s.installs|] == s.installs
    && (forall g :: g in s.slots && g in s'.slots ==>
          && g in s.info && Get(s'.info, g) == Get(s.info, g)
          && s'.slots[g].(uses := s.slots[g].uses) == s.slots[g])
    && (forall g :: g in s.slots && g in s'.slots && s.slots[g].obj in s.objs ==>
          s.slots[g].obj in s'.objs && s'.objs[s.slots[g].obj].kind == s.objs[s.slots[g].obj].kind)
    && (forall o :: o in s.revoked ==> o in s'.revoked && s.revoked[o] <= s'.revoked[o])
    && (forall p :: p in s.nslots ==> p in s'.nslots && s.nslots[p] <= s'.nslots[p])
  }

  ghost predicate SlotsOk(mac: Mac, body: Body, s: State, last: int) {
    forall h :: h in s.slots ==> SlotOk(mac, body, s, h, last)
  }

  ghost predicate ObjsOk(s: State) {
    forall o :: o in s.objs ==> ObjOk(s, o)
  }

  ghost predicate SpacesOk(s: State) {
    forall p :: p in s.nslots ==> SpaceOk(s, p)
  }

  lemma SlotsKept(mac: Mac, body: Body, s: State, s': State, last: int, last': int)
    requires SlotsOk(mac, body, s, last) && Grows(s, s') && last <= last'
    requires forall h :: h in s'.slots && h !in s.slots ==> SlotOk(mac, body, s', h, last')
    ensures SlotsOk(mac, body, s', last')
  {
    hide Attenuated, Gen, Sound;
    forall h | h in s'.slots && h in s.slots
      ensures SlotOk(mac, body, s', h, last')
    {
      assert SlotOk(mac, body, s, h, last);
      assert Get(s'.info, h) == Get(s.info, h);
      SlotKept(mac, body, s, s', h, last, last');
    }
  }

  /** A capability was put in an empty slot, with its reference. */
  ghost predicate Added(s: State, s': State, h: Handle) {
    && h !in s.slots && h in s'.slots && s'.slots == s.slots[h := s'.slots[h]] && h in s'.info
    && s'.info == s.info[h := s'.info[h]]
    && |s.installs| <= |s'.installs| && s'.installs[..|s.installs|] == s.installs
    && s'.slots[h].obj in s.objs
    && s'.objs == s.objs[s'.slots[h].obj := s.objs[s'.slots[h].obj].(refcount := s.objs[s'.slots[h].obj].refcount + 1)]
    && h.0 in s.nslots && h.0 in s.used && s'.used == s.used[h.0 := s.used[h.0] + 1]
    && s'.nslots == s.nslots && s'.revoked == s.revoked && s'.others == s.others && s'.spent == s.spent
    && s'.spentIn == s.spentIn
  }

  lemma AddedCounts(s: State, s': State, h: Handle)
    requires ObjsOk(s) && SpacesOk(s) && Added(s, s', h)
    ensures ObjsOk(s') && SpacesOk(s')
  {
    hide Holders, Occupied, Gen;
    forall o | o in s'.objs
      ensures ObjOk(s', o)
    {
      assert ObjOk(s, o);
      HoldersAdd(s.slots, h, s'.slots[h], o);
    }
    forall p | p in s'.nslots
      ensures SpaceOk(s', p)
    {
      assert SpaceOk(s, p);
      OccupiedAdd(s.slots, h, s'.slots[h], p);
    }
  }

  lemma SlotAdded(mac: Mac, body: Body, s: State, s': State, h: Handle, last: int, last': int)
    requires CapsOk(mac, body, s, last) && last <= last' && Added(s, s', h) && SlotOk(mac, body, s', h, last')
    requires forall g :: g in s.slots ==> g in s.info
    ensures CapsOk(mac, body, s', last')
  {
    hide SlotOk, ObjOk, SpaceOk, Holders, Occupied;
    assert SlotsOk(mac, body, s, last) && ObjsOk(s) && SpacesOk(s);
    AddedCounts(s, s', h);
    SlotsKept(mac, body, s, s', last, last');
  }

  /** A capability left its slot and its reference was dropped, the object with the last. */
  ghost predicate Removed(s: State, s': State, h: Handle) {
    && h in s.slots && s'.slots == s.slots - {h} && s'.info == s.info - {h} && s'.installs == s.installs
    && var o := s.slots[h].obj;
       && o in s.objs && s.objs[o].refcount > 0
       && s'.objs == (if s.objs[o].refcount == 1 then s.objs - {o}
                      else s.objs[o := s.objs[o].(refcount := s.objs[o].refcount - 1)])
       && h.0 in s.used && s.used[h.0] > 0 && s'.used == s.used[h.0 := s.used[h.0] - 1]
       && s'.nslots == s.nslots && s'.revoked == s.revoked && s'.others == s.others && s'.spent == s.spent
       && s'.spentIn == s.spentIn
  }

  lemma RemovedCounts(s: State, s': State, h: Handle)
    requires ObjsOk(s) && SpacesOk(s) && Removed(s, s', h)
    ensures ObjsOk(s') && SpacesOk(s')
    ensures forall g :: g in s'.slots && s.slots[g].obj in s.objs ==> s.slots[g].obj in s'.objs
  {
    hide Holders, Occupied, Gen;
    forall o | o in s.objs
      ensures o in s'.objs ==> ObjOk(s', o)
      ensures o !in s'.objs ==> Holders(s'.slots, o) == {}
    {
      assert ObjOk(s, o);
      HoldersLess(s.slots, h, o);
    }
    forall p | p in s'.nslots
      ensures SpaceOk(s', p)
    {
      assert SpaceOk(s, p);
      OccupiedLess(s.slots, h, p);
    }
    forall g | g in s'.slots && s.slots[g].obj in s.objs
      ensures s.slots[g].obj in s'.objs
    {
      IsHolder(s'.slots, g);
    }
  }

  lemma IsHolder(slots: map<Handle, Cap>, g: Handle)
    requires g in slots
    ensures g in Holders(slots, slots[g].obj)
  {
  }

  lemma SlotRemoved(mac: Mac, body: Body, s: State, s': State, h: Handle, last: int, last': int)
    requires CapsOk(mac, body, s, last) && last <= last' && Removed(s, s', h)
    requires forall g :: g in s.slots ==> g in s.info
    ensures CapsOk(mac, body, s', last')
  {
    hide SlotOk, ObjOk, SpaceOk, Holders, Occupied;
    assert SlotsOk(mac, body, s, last) && ObjsOk(s) && SpacesOk(s);
    RemovedCounts(s, s', h);
    SlotsKept(mac, body, s, s', last, last');
  }

  /** A capability used up: the slot is dead but its reference and its place in the count stay. */
  ghost predicate Spent(s: State, s': State, h: Handle) {
    && h in s.slots && s'.slots == s.slots - {h} && s'.info == s.info - {h} && s'.installs == s.installs
    && var o := s.slots[h].obj;
       && o in s.spent && s'.spent == s.spent[o := s.spent[o] + 1] && h.0 in s.spentIn
       && s'.spentIn == s.spentIn[h.0 := s.spentIn[h.0] + 1]
       && s'.objs == s.objs && s'.used == s.used && s'.nslots == s.nslots && s'.revoked == s.revoked
       && s'.others == s.others
  }

  lemma SlotSpent(mac: Mac, body: Body, s: State, s': State, h: Handle, last: int, last': int)
    requires CapsOk(mac, body, s, last) && last <= last' && Spent(s, s', h) && forall g :: g in s.slots ==> g in s.info
    ensures CapsOk(mac, body, s', last')
  {
    hide SlotOk, Holders, Occupied, Gen;
    assert SlotsOk(mac, body, s, last);
    forall o | o in s'.objs
      ensures ObjOk(s', o)
    {
      assert ObjOk(s, o);
      HoldersLess(s.slots, h, o);
    }
    forall p | p in s'.nslots
      ensures SpaceOk(s', p)
    {
      assert SpaceOk(s, p);
      OccupiedLess(s.slots, h, p);
    }
    SlotsKept(mac, body, s, s', last, last');
  }

  /** Where a live slot's parts are. */
  lemma SlotFacts(mac: Mac, body: Body, s: State, h: Handle, last: int)
    requires CapsOk(mac, body, s, last) && h in s.slots
    ensures SlotOk(mac, body, s, h, last) && ObjOk(s, s.slots[h].obj) && SpaceOk(s, h.0) && s.used[h.0] > 0
    ensures forall g :: g in s.slots ==> g in s.info
  {
    assert SlotOk(mac, body, s, h, last);
    assert h in Occupied(s.slots, h.0);
    forall g | g in s.slots
      ensures g in s.info
    {
      assert SlotOk(mac, body, s, g, last);
    }
  }

  lemma InfoFacts(mac: Mac, body: Body, s: State, last: int)
    requires CapsOk(mac, body, s, last)
    ensures forall g ::
              g in s.slots ==> g in s.info && g.0 in s.nslots && g.1 < s.nslots[g.0] && s.slots[g].obj in s.objs
  {
    forall g | g in s.slots
      ensures g in s.info && g.0 in s.nslots && g.1 < s.nslots[g.0] && s.slots[g].obj in s.objs
    {
      assert SlotOk(mac, body, s, g, last);
    }
  }

  /** The objects and spaces are only counted differently, created, or revoked. */
  lemma SlotsUntouched(mac: Mac, body: Body, s: State, s': State, last: int, last': int)
    requires CapsOk(mac, body, s, last) && last <= last' && s'.slots.Keys == s.slots.Keys && Grows(s, s') && ObjsOk(s')
    requires SpacesOk(s')
    ensures CapsOk(mac, body, s', last')
  {
    hide SlotOk, ObjOk, SpaceOk;
    assert SlotsOk(mac, body, s, last);
    SlotsKept(mac, body, s, s', last, last');
  }

  datatype Status = Granted | BadHandle | Denied | Lapsed

  /** What a lookup answers: the checks in the order they are made. */
  ghost function LookupStatus(mac: Mac, body: Body, s: State, h: Handle, kind: nat, need: Rights, now: int): Status {
    if h !in s.slots || s.slots[h].obj !in s.objs then BadHandle
    else
      var c := s.slots[h];
      var o := s.objs[c.obj];
      if kind != 0 && o.kind != kind then Denied
      else if !(need <= c.rights) then Denied
      else if c.generation != o.generation then BadHandle
      else if InWindow(c.seal, now) then Granted else Lapsed
  }

  /** A capability grants only what its first install could, while that install's window lasts, and only
      if the object has been revoked a multiple of 2^32 times since, which is how often generations repeat. */
  lemma GrantedMeans(mac: Mac, body: Body, s: State, h: Handle, kind: nat, need: Rights, now: int, last: int)
    requires CapsOk(mac, body, s, last) && LookupStatus(mac, body, s, h, kind, need, now) == Granted
    ensures h in s.slots && h in s.info && s.info[h].origin < |s.installs| && s.slots[h].obj in s.revoked
    ensures var root := s.installs[s.info[h].origin];
            && root.obj == s.slots[h].obj && need <= root.rights && (!s.info[h].endless ==> InWindow(root.seal, now))
    ensures s.slots[h].obj in s.objs && (kind == 0 || s.objs[s.slots[h].obj].kind == kind)
    ensures s.info[h].born <= s.revoked[s.slots[h].obj] && (s.revoked[s.slots[h].obj] - s.info[h].born) % U32 == 0
  {
    hide CapsOk, Gen, Sound, Holders, Occupied, SpaceOk;
    SlotFacts(mac, body, s, h, last);
    SameGen(s.info[h].born, s.revoked[s.slots[h].obj]);
  }

  /** Of a handle that is there, nothing counts but the kind of its object, its rights, its generation and its
      window: a kind or a right that does not fit is denied, a handle made before a revocation is a bad one, and
      what is left is a matter of time. */
  lemma StatusExactly(mac: Mac, body: Body, s: State, h: Handle, kind: nat, need: Rights, now: int, last: int)
    requires CapsOk(mac, body, s, last)
    ensures h !in s.slots ==> LookupStatus(mac, body, s, h, kind, need, now) == BadHandle
    ensures h in s.slots ==>
              && s.slots[h].obj in s.objs && s.slots[h].obj in s.revoked && h in s.info
              && var c, r := s.slots[h], LookupStatus(mac, body, s, h, kind, need, now);
                 var fits := (kind == 0 || s.objs[c.obj].kind == kind) && need <= c.rights;
                 var current := (s.revoked[c.obj] - s.info[h].born) % U32 == 0;
                 && (r == Denied <==> !fits) && (r == BadHandle <==> fits && !current)
                 && (r == Granted <==> fits && current && InWindow(c.seal, now))
                 && (r == Lapsed <==> fits && current && !InWindow(c.seal, now))
  {
    hide CapsOk, Gen, Sound, Holders, Occupied, SpaceOk, Attenuated, InWindow;
    if h in s.slots {
      SlotFacts(mac, body, s, h, last);
      SameGen(s.info[h].born, s.revoked[s.slots[h].obj]);
    }
  }

  /** A handle made before its object was last revoked is refused, whatever is asked of it, until the
      count of revocations since it was made is again a multiple of 2^32. */
  lemma RevokedRefused(mac: Mac, body: Body, s: State, h: Handle, kind: nat, need: Rights, now: int, last: int)
    requires CapsOk(mac, body, s, last) && h in s.slots && h in s.info && s.slots[h].obj in s.revoked
    requires (s.revoked[s.slots[h].obj] - s.info[h].born) % U32 != 0
    ensures LookupStatus(mac, body, s, h, kind, need, now) in {BadHandle, Denied}
  {
    hide CapsOk, Gen, Sound, Holders, Occupied, SpaceOk, Attenuated;
    SlotFacts(mac, body, s, h, last);
    SameGen(s.info[h].born, s.revoked[s.slots[h].obj]);
  }

  lemma SlotKept(mac: Mac, body: Body, s: State, s': State, g: Handle, last: int, last': int)
    requires SlotOk(mac, body, s, g, last) && last <= last' && g in s'.slots
    requires s'.slots[g].(uses := s.slots[g].uses) == s.slots[g]
    requires g in s'.info && s'.info[g] == s.info[g] && |s.installs| <= |s'.installs|
    requires s'.installs[..|s.installs|] == s.installs
    requires var o := s.slots[g].obj;
             && o in s'.objs && s'.objs[o].kind == s.objs[o].kind
             && o in s'.revoked && s.revoked[o] <= s'.revoked[o]
    requires g.0 in s'.nslots && s.nslots[g.0] <= s'.nslots[g.0]
    ensures SlotOk(mac, body, s', g, last')
  {
    assert s'.installs[s.info[g].origin] == s'.installs[..|s.installs|][s.info[g].origin];
    hide Attenuated, Gen;
  }
}
