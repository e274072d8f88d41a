/** Capability spaces: install, lookup, derive, grant, close, revoke (kernel/cap/cap.c). */
module Capabilities {
  import opened Common
  import opened TemporalSeal
  import opened CapState

  class Caps {
    const mac: Mac
    const body: Body
    var objs: map<nat, Obj>
    var nslots: map<nat, nat>
    var used: map<nat, nat>
    var slots: map<Handle, Cap>
    var nextObj: nat
    var nextSpace: nat
    ghost var info: map<Handle, Info>
    ghost var installs: seq<Install>
    /** How often each object was revoked, the references held outside slots, and those of used-up slots. */
    ghost var revoked: map<nat, nat>
    ghost var others: map<nat, nat>
    ghost var spent: map<nat, nat>
    ghost var spentIn: map<nat, nat>
    ghost var last: int

    ghost function S(): State
      reads this
    {
      State(objs, nslots, used, slots, info, installs, revoked, others, spent, spentIn)
    }

    ghost predicate Valid()
      reads this
    {
      && CapsOk(mac, body, S(), last) && 0 <= last < S63
      && (forall o :: o in objs || o in revoked ==> o < nextObj) && (forall p :: p in nslots ==> p < nextSpace)
    }

    constructor (mac: Mac, body: Body)
      ensures Valid() && slots == map[] && objs == map[] && installs == [] && others == map[] && last == 0
      ensures this.mac == mac && this.body == body
    {
      this.mac, this.body := mac, body;
      objs, nslots, used, slots, nextObj, nextSpace := map[], map[], map[], map[], 1, 1;
      info, installs, revoked, others, spent, spentIn, last := map[], [], map[], map[], map[], map[], 0;
    }

    method ObjectCreate(kind: nat) returns (o: nat)
      requires Valid()
      modifies this
      ensures Valid() && o !in old(objs) && o !in old(revoked) && last == old(last)
      ensures S() == old(S()).(objs := old(objs)[o := Obj(kind, 1, 1)], revoked := old(revoked)[o := 0],
                               others := old(others)[o := 1], spent := old(spent)[o := 0])
    {
      hide SlotOk, CapsOk;
      ghost var s := S();
      InfoFacts(mac, body, s, last);
      o := nextObj;
      nextObj := nextObj + 1;
      objs := objs[o := Obj(kind, 1, 1)];
      revoked, others, spent := revoked[o := 0], others[o := 1], spent[o := 0];
      ObjectMade(mac, body, s, S(), o, last);
    }

    method SpaceCreate() returns (p: nat)
      requires Valid()
      modifies this
      ensures Valid() && p !in old(nslots) && last == old(last)
      ensures S() == old(S()).(nslots := old(nslots)[p := INIT_SLOTS], used := old(used)[p := 0],
                               spentIn := old(spentIn)[p := 0])
    {
      hide SlotOk, CapsOk;
      ghost var s := S();
      InfoFacts(mac, body, s, last);
      p := nextSpace;
      nextSpace := nextSpace + 1;
      nslots, used, spentIn := nslots[p := INIT_SLOTS], used[p := 0], spentIn[p := 0];
      SpaceMade(mac, body, s, S(), p, last);
    }

    /** A holder outside the spaces takes a reference. */
    method ObjectGet(o: nat)
      requires Valid() && o in objs
      modifies this`objs, this`others
      ensures Valid() && o in old(others) && others == old(others)[o := old(others)[o] + 1]
      ensures objs == old(objs)[o := old(objs)[o].(refcount := old(objs)[o].refcount + 1)]
    {
      hide SlotOk, CapsOk;
      ghost var s := S();
      CountFacts(mac, body, s, o, last);
      objs := objs[o := objs[o].(refcount := objs[o].refcount + 1)];
      others := others[o := others[o] + 1];
      Recounted(mac, body, s, S(), o, last);
    }

    /** It drops one; the object goes exactly when no reference is left, in a slot or outside. */
    method ObjectPut(o: nat)
      requires Valid() && o in objs && o in others && others[o] > 0
      modifies this`objs, this`others
      ensures Valid() && others == old(others)[o := old(others)[o] - 1]
      ensures objs == Dropped(old(objs), o)
      ensures o !in objs <==> others[o] == 0 && Holders(slots, o) == {} && o in spent && spent[o] == 0
    {
      hide SlotOk, CapsOk;
      ghost var s := S();
      CountFacts(mac, body, s, o, last);
      objs := Dropped(objs, o);
      others := others[o := others[o] - 1];
      Recounted(mac, body, s, S(), o, last);
    }

    /** The first empty slot, doubling the space when there is none. */
    method FindSlot(p: nat, memory: bool) returns (r: Option<nat>)
      requires Valid() && p in nslots
      modifies this`nslots
      ensures Valid() && nslots.Keys == old(nslots).Keys
      ensures forall q :: q in nslots && q != p ==> nslots[q] == old(nslots)[q]
      ensures r.Some? ==>
                r.value < nslots[p] && (p, r.value) !in slots && forall i :: 0 <= i < r.value ==> (p, i) in slots
      ensures r.Some? ==> nslots[p] == (if r.value < old(nslots)[p] then old(nslots)[p] else 2 * old(nslots)[p])
      ensures r.Some? && r.value >= old(nslots)[p] ==> old(nslots)[p] < MAX_SLOTS && memory
      ensures r == None ==> nslots == old(nslots) && (old(nslots)[p] >= MAX_SLOTS || !memory)
      ensures r == None ==> forall i :: 0 <= i < nslots[p] ==> (p, i) in slots
    {
      hide SlotOk, CapsOk;
      InfoFacts(mac, body, S(), last);
      var i := 0;
      while i < nslots[p] && (p, i) in slots
        invariant i <= nslots[p] && forall j :: 0 <= j < i ==> (p, j) in slots
      {
        i := i + 1;
      }
      if i == nslots[p] {
        var ok := GrowSpace(p, memory);
        if !ok {
          return None;
        }
      }
      r := Some(i);
    }

    method GrowSpace(p: nat, memory: bool) returns (ok: bool)
      requires Valid() && p in nslots
      modifies this`nslots
      ensures Valid() && (ok <==> old(nslots)[p] < MAX_SLOTS && memory) && old(nslots)[p] > 0
      ensures nslots == if ok then old(nslots)[p := 2 * old(nslots)[p]] else old(nslots)
    {
      hide SlotOk, CapsOk, SlotCount;
      SpaceFacts(mac, body, S(), p, last);
      Doubling(nslots[p]);
      ok := nslots[p] < MAX_SLOTS && memory;
      if ok {
        ghost var s := S();
        nslots := nslots[p := 2 * nslots[p]];
        SpaceGrown(mac, body, s, S(), p, last);
      }
    }

    /** Put a capability with these rights in an empty slot. Without `from` it is one at first hand;
        with it, it descends from that install. */
    method Install(p: nat, o: nat, rights: Rights, badge: nat, lifetime: nat, now: int, memory: bool,
            ghost from: Option<(nat, bool)>) returns (r: Option<nat>)
      requires Valid() && last <= now < S63 && lifetime < U64
      requires from.Some? ==>
                 o in objs && Descends(Mint(mac, body, objs[o], o, rights, badge, lifetime, now), installs, from.value)
      modifies this
      ensures Valid() && last == now
      ensures r == None ==> S() == old(S())
      ensures r == None <==> p !in nslots || o !in objs || Full(old(S()), p, memory)
      ensures r.Some? ==> Installed(mac, body, old(S()), S(), (p, r.value), o, rights, badge, lifetime, now, from)
      ensures r.Some? ==> var c := slots[(p, r.value)];
                          && c.obj == o && c.rights == rights && c.badge == badge && c.uses == 0
                          && c.generation == old(objs)[o].generation && c.seal.notBefore == now
                          && c.seal.notAfter == ToS64(now + ToS64(if lifetime == 0 then 60 else lifetime))
    {
      hide SlotOk, CapsOk, Attenuated, Mint, ObjOk, SpaceOk;
      if p !in nslots || o !in objs {
        Waited(mac, body, S(), last, now);
        last := now;
        return None;
      }
      ghost var b := S();
      var i := FindSlot(p, memory);
      if i == None {
        Waited(mac, body, S(), last, now);
        last := now;
        return None;
      }
      ghost var s := S();
      Fill((p, i.value), o, rights, badge, lifetime, now, from);
      FilledIn(mac, body, b, s, S(), (p, i.value), o, rights, badge, lifetime, now, from);
      MintIs(mac, body, s.objs[o], o, rights, badge, lifetime, now);
      r := i;
    }

    /** Seal the capability in the empty slot, with a reference. */
    method Fill(h: Handle, o: nat, rights: Rights, badge: nat, lifetime: nat, now: int, ghost from: Option<(nat, bool)>)
      requires Valid() && last <= now < S63 && lifetime < U64 && h.0 in nslots && h.1 < nslots[h.0] && h !in slots
      requires o in objs
      requires from.Some? ==> Descends(Mint(mac, body, objs[o], o, rights, badge, lifetime, now), installs, from.value)
      modifies this`slots, this`info, this`used, this`objs, this`last, this`installs
      ensures Valid() && last == now && o in revoked && h.0 in old(used)
      ensures S() == Filled(old(S()), h, Mint(mac, body, old(objs)[o], o, rights, badge, lifetime, now), o, from)
    {
      hide SlotOk, CapsOk, Mint, ObjOk, SpaceOk, Descends, Holders, Occupied, Gen, SlotCount, NewInfo, NewInstall;
      ghost var s, was := S(), last;
      CountFacts(mac, body, s, o, last);
      SpaceFacts(mac, body, s, h.0, last);
      var c := Mint(mac, body, objs[o], o, rights, badge, lifetime, now);
      FilledOk(mac, body, s, h, o, rights, badge, lifetime, was, now, from);
      Commit(Filled(s, h, c, o, from), slots[h := c], used[h.0 := used[h.0] + 1],
             objs[o := objs[o].(refcount := objs[o].refcount + 1)], now);
    }

    /** Move to the state `t`, which differs in its slots, counts and objects. */
    method Commit(ghost t: State, slots': map<Handle, Cap>, used': map<nat, nat>, objs': map<nat, Obj>, now: int)
      requires Valid() && CapsOk(mac, body, t, now) && last <= now < S63 && forall o :: o in objs' ==> o in objs
      requires t == S().(objs := objs', used := used', slots := slots', info := t.info, installs := t.installs)
      modifies this`slots, this`info, this`used, this`objs, this`last, this`installs
      ensures Valid() && last == now && S() == t
    {
      hide CapsOk, Filled;
      installs, info, last, slots, used, objs := t.installs, t.info, now, slots', used', objs';
    }

    /** The checks of a lookup, in order. */
    method Decide(h: Handle, kind: nat, need: Rights, now: int) returns (r: Status)
      requires Valid()
      ensures r == LookupStatus(mac, body, S(), h, kind, need, now)
    {
      hide SlotOk, CapsOk, InWindow;
      if h !in slots {
        return BadHandle;
      }
      HandleFacts(mac, body, S(), h, last);
      var c := slots[h];
      if kind != 0 && objs[c.obj].kind != kind {
        return Denied;
      }
      if !(need <= c.rights) {
        return Denied;
      }
      if c.generation != objs[c.obj].generation {
        return BadHandle;
      }
      var verdict := SealVerify(mac, c.seal, c.obj, body(c.obj, objs[c.obj].kind, c.rights, c.generation, c.badge),
                                now);
      r := if verdict == Accepted then Granted else if verdict == Expired then Lapsed else Denied;
    }

    /** The answer is that of the checks; only expiry empties the slot, and only the last use uses it up.
        What is granted is within the first install's rights and window, by a handle made since the object
        was last revoked. */
    method Lookup(h: Handle, kind: nat, need: Rights, now: int) returns (r: Status, o: nat)
      requires Valid() && last <= now < S63
      modifies this
      ensures Valid() && last == now
      ensures r == LookupStatus(mac, body, old(S()), h, kind, need, now)
      ensures r == Granted ==> h in old(slots) && o == old(slots)[h].obj && o in objs && S() == AfterUse(old(S()), h)
      ensures r == Granted ==> Authorized(old(S()), h, kind, need, now)
      ensures r == Granted ==> kind == 0 || old(objs)[o].kind == kind
      ensures h !in old(slots) ==> r == BadHandle
      ensures h in old(slots) ==>
                && old(slots)[h].obj in old(objs)
                && (r == Denied <==> (kind != 0 && old(objs)[old(slots)[h].obj].kind != kind)
                                     || !(need <= old(slots)[h].rights))
      ensures r == Granted ==> objs == old(objs) && used == old(used) && nslots == old(nslots)
      ensures r == Granted ==> var uses := old(slots)[h].uses;
                               if uses == 0 then slots == old(slots)
                               else if uses == 1 then slots == old(slots) - {h}
                               else slots == old(slots)[h := old(slots)[h].(uses := uses - 1)]
      ensures r == Lapsed ==> Removed(old(S()), S(), h)
      ensures r != Granted && r != Lapsed ==> S() == old(S())
    {
      hide SlotOk, CapsOk, ObjOk, SpaceOk, Holders, Occupied, InWindow, LookupStatus, Authorized;
      ghost var s := S();
      StatusExactly(mac, body, s, h, kind, need, now, last);
      r := Decide(h, kind, need, now);
      Waited(mac, body, s, last, now);
      last := now;
      o := 0;
      if r == Lapsed {
        StatusFacts(mac, body, s, h, kind, need, now);
        Retire(h);
      } else if r == Granted {
        StatusFacts(mac, body, s, h, kind, need, now);
        IsAuthorized(mac, body, s, h, kind, need, now, last);
        HandleFacts(mac, body, s, h, last);
        o := slots[h].obj;
        if slots[h].uses != 0 {
          UseOnce(h);
        }
      }
    }

    /** Empty a slot and drop its reference, the object with the last. */
    method Retire(h: Handle)
      requires Valid() && h in slots
      modifies this`slots, this`info, this`used, this`objs
      ensures Valid() && Removed(old(S()), S(), h)
    {
      hide SlotOk, CapsOk, ObjOk, SpaceOk, Holders, Occupied;
      ghost var s := S();
      HandleFacts(mac, body, s, h, last);
      InfoFacts(mac, body, s, last);
      var o := slots[h].obj;
      used := used[h.0 := used[h.0] - 1];
      slots, info := slots - {h}, info - {h};
      objs := Dropped(objs, o);
      SlotRemoved(mac, body, s, S(), h, last, last);
    }

    /** Count a use; the last leaves the slot dead with its reference undropped. */
    method UseOnce(h: Handle)
      requires Valid() && h in slots && slots[h].uses > 0
      modifies this`slots, this`info, this`spent, this`spentIn
      ensures Valid() && S() == AfterUse(old(S()), h)
    {
      hide CapsOk;
      if slots[h].uses == 1 {
        UseLast(h);
      } else {
        UsedOk(mac, body, S(), h, last);
        slots := slots[h := slots[h].(uses := slots[h].uses - 1)];
      }
    }

    method UseLast(h: Handle)
      requires Valid() && h in slots && slots[h].uses == 1
      modifies this`slots, this`info, this`spent, this`spentIn
      ensures Valid() && S() == AfterUse(old(S()), h)
    {
      hide CapsOk, More;
      UsedOk(mac, body, S(), h, last);
      spent, spentIn := More(spent, slots[h].obj), More(spentIn, h.0);
      slots, info := slots - {h}, info - {h};
    }

    /** A capability is marked for a single use. */
    method SingleUse(h: Handle)
      requires Valid() && h in slots
      modifies this`slots
      ensures Valid() && slots == old(slots)[h := old(slots)[h].(uses := 1)]
    {
      hide SlotOk, CapsOk;
      ghost var s := S();
      InfoFacts(mac, body, s, last);
      slots := slots[h := slots[h].(uses := 1)];
      UsesOnly(mac, body, s, S(), last);
    }

    /** The child has no right the parent lacks, the parent's origin, and a window inside the parent's
        unless the end it asks for wraps to zero. The parent's generation is not consulted: the child
        belongs to the object as it is now. */
    method Derive(p: nat, parent: nat, rights: Rights, badge: nat, lifetime: nat, now: int,
            memory: bool) returns (r: Option<nat>)
      requires Valid() && last <= now < S63 && lifetime < U64
      modifies this
      ensures Valid() && last == now
      ensures r == None ==> S() == old(S())
      ensures r == None <==> (p, parent) !in old(slots) || !(DERIVE <= old(slots)[(p, parent)].rights)
                             || (old(slots)[(p, parent)].seal.notAfter <= now && lifetime < S63)
                             || Full(old(S()), p, memory)
      ensures r.Some? ==> ChildOf(old(S()), S(), (p, parent), (p, r.value), rights, badge, lifetime, now)
      ensures r.Some? ==> Derived(mac, body, old(S()), S(), (p, parent), (p, r.value), rights, badge, lifetime, now)
      ensures r.Some? ==> forall need, t :: LookupStatus(mac, body, S(), (p, r.value), 0, need, t) ==
                                             ChildStatus(slots[(p, r.value)], need, t)
    {
      hide SlotOk, CapsOk, Mint, ObjOk, SpaceOk, Holders, Occupied, InWindow, Attenuated, Covers, DeriveLife, SealMake;
      var h := (p, parent);
      if h !in slots || !(DERIVE <= slots[h].rights) {
        Waited(mac, body, S(), last, now);
        last := now;
        return None;
      }
      ghost var s := S();
      HandleFacts(mac, body, s, h, last);
      var c := slots[h];
      var life := DeriveLife(c.seal.notAfter, lifetime, now);
      LifeFits(c.seal.notAfter, lifetime, now);
      DerivedEnd(mac, c.seal, lifetime, now, c.obj, badge,
                 body(c.obj, objs[c.obj].kind, rights * c.rights, objs[c.obj].generation, badge));
      if life == 0 {
        Waited(mac, body, S(), last, now);
        last := now;
        return None;
      }
      ghost var i := info[h];
      DerivedOk(mac, body, s, h, rights, badge, lifetime, now, last);
      r := Install(p, c.obj, rights * c.rights, badge, life, now, memory,
                   Some((i.origin, i.endless || Wraps(c.seal, lifetime, now))));
      if r.Some? {
        IsChild(mac, body, s, S(), h, (p, r.value), rights, badge, lifetime, now);
        IsDerived(mac, body, s, S(), h, (p, r.value), rights, badge, lifetime, now);
      }
    }

    /** A grant copies rights under a mask and the same end, from a handle that passes lookup. */
    method Grant(from: Handle, to: nat, mask: Rights, now: int, memory: bool) returns (r: Option<nat>)
      requires Valid() && last <= now < S63
      modifies this
      ensures Valid() && last == now
      ensures r.Some? ==> LookupStatus(mac, body, old(S()), from, 0, GRANT, now) == Granted
      ensures r.Some? ==> CopyOf(old(S()), S(), from, (to, r.value), mask)
      ensures r.Some? ==> Copied(mac, body, old(S()), S(), from, (to, r.value), mask, now)
      ensures r == None ==> Looked(mac, body, old(S()), S(), from, 0, GRANT, now)
      ensures r == None <==> LookupStatus(mac, body, old(S()), from, 0, GRANT, now) != Granted || from !in old(slots)
                             || old(slots)[from].seal.notAfter <= now || to !in old(nslots)
                             || Full(AfterUse(old(S()), from), to, memory)
    {
      hide SlotOk, CapsOk, Mint, ObjOk, SpaceOk, Holders, Occupied, InWindow, Attenuated, Covers, SealMake;
      hide LookupStatus;
      ghost var s, was := S(), last;
      var rights: Rights, end, badge := {}, 0, 0;
      if from in slots {
        HandleFacts(mac, body, s, from, last);
        rights, end, badge := slots[from].rights * mask, slots[from].seal.notAfter, slots[from].badge;
      }
      var status, o := Lookup(from, 0, GRANT, now);
      if status != Granted || end - now <= 0 {
        return None;
      }
      GrantedOk(mac, body, s, from, mask, now, was);
      ghost var t := S();
      r := Install(to, o, rights, badge, end - now, now, memory, Some((s.info[from].origin, s.info[from].endless)));
      if r.Some? {
        IsCopy(mac, body, s, t, S(), from, (to, r.value), mask, now);
      }
    }

    method Close(h: Handle) returns (ok: bool)
      requires Valid()
      modifies this
      ensures Valid() && last == old(last)
      ensures ok <==> h in old(slots)
      ensures if ok then Removed(old(S()), S(), h) else S() == old(S())
    {
      hide SlotOk, CapsOk, ObjOk, SpaceOk;
      ok := h in slots;
      if ok {
        Retire(h);
      }
    }

    /** Every handle to the object made before now stops matching it. */
    method RevokeObject(o: nat)
      requires Valid() && o in objs
      modifies this`objs, this`revoked
      ensures Valid() && o in old(revoked) && revoked == old(revoked)[o := old(revoked)[o] + 1]
      ensures objs == old(objs)[o := old(objs)[o].(generation := (old(objs)[o].generation + 1) % U32)]
      ensures forall h, kind, need, now ::
                h in slots && slots[h].obj == o && LookupStatus(mac, body, old(S()), h, kind, need, now) == Granted
                ==> LookupStatus(mac, body, S(), h, kind, need, now) != Granted
    {
      hide SlotOk, CapsOk, ObjOk, SpaceOk, Gen;
      ghost var s := S();
      CountFacts(mac, body, s, o, last);
      NextGen(revoked[o]);
      objs := objs[o := objs[o].(generation := (objs[o].generation + 1) % U32)];
      revoked := revoked[o := revoked[o] + 1];
      Recounted(mac, body, s, S(), o, last);
    }

    method Revoke(h: Handle) returns (ok: bool)
      requires Valid()
      modifies this`objs, this`revoked
      ensures Valid()
      ensures ok <==> h in slots && REVOKE <= slots[h].rights
      ensures ok ==>
                slots[h].obj in old(revoked) && revoked == old(revoked)[slots[h].obj := old(revoked)[slots[h].obj] + 1]
      ensures ok ==> var o := slots[h].obj;
                     && o in old(objs)
                     && objs == old(objs)[o := old(objs)[o].(generation := (old(objs)[o].generation + 1) % U32)]
      ensures !ok ==> objs == old(objs) && revoked == old(revoked)
    {
      hide SlotOk, CapsOk, ObjOk, SpaceOk, Gen;
      if h !in slots || !(REVOKE <= slots[h].rights) {
        return false;
      }
      HandleFacts(mac, body, S(), h, last);
      RevokeObject(slots[h].obj);
      ok := true;
    }
  }

  /** One reference to an object less; it goes with the last. */
  function Dropped(objs: map<nat, Obj>, o: nat): map<nat, Obj> {
    if o !in objs then objs
    else if objs[o].refcount <= 1 then objs - {o}
    else objs[o := objs[o].(refcount := objs[o].refcount - 1)]
  }

  function Mint(mac: Mac, body: Body, obj: Obj, o: nat, rights: Rights, badge: nat, lifetime: nat, now: int): Cap {
    Cap(o, rights, obj.generation, badge,
        SealMake(mac, o, badge, body(o, obj.kind, rights, obj.generation, badge), lifetime, now), 0)
  }

  /** No slot is empty and the space cannot be doubled. */
  predicate Full(s: State, p: nat, memory: bool) {
    p in s.nslots && (s.nslots[p] >= MAX_SLOTS || !memory) && forall i :: 0 <= i < s.nslots[p] ==> (p, i) in s.slots
  }

  /** The 64-bit end a derivation asks for comes to zero though the parent has an end. */
  predicate Wraps(parent: Seal, lifetime: nat, now: int) {
    parent.notAfter != 0 && lifetime + now == U64
  }

  /** A capability at first hand starts a new line of descent. */
  ghost function NewInstall(o: nat, rights: Rights, seal: Seal, from: Option<(nat, bool)>): seq<Install> {
    if from.Some? then [] else [CapState.Install(o, rights, seal)]
  }

  ghost function NewInfo(next: nat, revocations: nat, from: Option<(nat, bool)>): Info {
    if from.Some? then Info(from.value.0, revocations, from.value.1) else Info(next, revocations, false)
  }

  /** One capability is there that was not, in the first empty slot. */
  ghost predicate Installed(mac: Mac, body: Body, s: State, s': State, h: Handle, o: nat, rights: Rights, badge: nat,
          lifetime: nat, now: int, from: Option<(nat, bool)>) {
    && h !in s.slots && (forall i :: 0 <= i < h.1 ==> (h.0, i) in s.slots) && o in s.objs && o in s.revoked
    && var c := Mint(mac, body, s.objs[o], o, rights, badge, lifetime, now);
       && s'.slots == s.slots[h := c]
       && s'.info == s.info[h := NewInfo(|s.installs|, s.revoked[o], from)]
       && s'.installs == s.installs + NewInstall(o, rights, c.seal, from)
       && s'.objs == s.objs[o := s.objs[o].(refcount := s.objs[o].refcount + 1)]
       && h.0 in s.nslots && h.0 in s.used && s'.used == s.used[h.0 := s.used[h.0] + 1]
       && s'.nslots == (if h.1 < s.nslots[h.0] then s.nslots else s.nslots[h.0 := 2 * s.nslots[h.0]])
       && s'.revoked == s.revoked && s'.others == s.others && s'.spent == s.spent && s'.spentIn == s.spentIn
  }

  lemma NextGen(n: nat)
    ensures Gen(n + 1) == (Gen(n) + 1) % U32 && Gen(n + 1) != Gen(n)
  {
  }

  lemma CountFacts(mac: Mac, body: Body, s: State, o: nat, last: int)
    requires CapsOk(mac, body, s, last) && o in s.objs
    ensures o in s.revoked && o in s.others && o in s.spent && s.objs[o].generation == Gen(s.revoked[o])
    ensures s.objs[o].refcount > 0
    ensures s.objs[o].refcount == s.others[o] + |Holders(s.slots, o)| + s.spent[o]
  {
    assert ObjOk(s, o);
  }

  lemma SpaceFacts(mac: Mac, body: Body, s: State, p: nat, last: int)
    requires CapsOk(mac, body, s, last) && p in s.nslots
    ensures p in s.used && p in s.spentIn && SlotCount(s.nslots[p])
  {
    assert SpaceOk(s, p);
  }

  lemma HandleFacts(mac: Mac, body: Body, s: State, h: Handle, last: int)
    requires CapsOk(mac, body, s, last) && h in s.slots
    ensures h in s.info && s.slots[h].obj in s.objs && s.slots[h].obj in s.revoked && s.slots[h].obj in s.spent
    ensures h.0 in s.nslots && h.0 in s.used && h.0 in s.spentIn && s.used[h.0] > 0
    ensures s.objs[s.slots[h].obj].refcount > 0
    ensures s.info[h].origin < |s.installs| && SlotOk(mac, body, s, h, last) && s.slots[h].seal.notBefore <= last
    ensures s.slots[h].seal.notAfter < S63
    ensures var c := s.slots[h]; forall now ::
              var payload := body(c.obj, s.objs[c.obj].kind, c.rights, c.generation, c.badge);
              SealVerify(mac, c.seal, c.obj, payload, now) == (if InWindow(c.seal, now) then Accepted else Expired)
  {
    SlotFacts(mac, body, s, h, last);
    hide CapsOk, Attenuated, Gen, Holders, Occupied, InWindow;
  }

  /** Bookkeeping of slots from one state to another that share them. */
  lemma Waited(mac: Mac, body: Body, s: State, last: int, now: int)
    requires CapsOk(mac, body, s, last) && last <= now
    ensures CapsOk(mac, body, s, now)
  {
    hide Attenuated, Gen, Sound, ObjOk, SpaceOk;
    forall h | h in s.slots
      ensures SlotOk(mac, body, s, h, now)
    {
      assert SlotOk(mac, body, s, h, last);
    }
  }

  lemma UsesOnly(mac: Mac, body: Body, s: State, s': State, last: int)
    requires CapsOk(mac, body, s, last) && s' == s.(slots := s'.slots) && s'.slots.Keys == s.slots.Keys
    requires forall h :: h in s.slots ==> h in s.info && s'.slots[h].(uses := s.slots[h].uses) == s.slots[h]
    ensures CapsOk(mac, body, s', last)
  {
    hide SlotOk, Gen, ObjOk, SpaceOk, Holders, Occupied;
    InfoFacts(mac, body, s, last);
    forall o | o in s'.objs
      ensures ObjOk(s', o)
    {
      SameHolders(s.slots, s'.slots, o);
      ObjSame(s, s', o);
    }
    forall p | p in s'.nslots
      ensures SpaceOk(s', p)
    {
      SameOccupied(s.slots, s'.slots, p);
      SpaceOf(s, s', p);
    }
    SlotsUntouched(mac, body, s, s', last, last);
  }

  lemma SameHolders(slots: map<Handle, Cap>, slots': map<Handle, Cap>, o: nat)
    requires slots'.Keys == slots.Keys && forall h :: h in slots ==> slots'[h].obj == slots[h].obj
    ensures Holders(slots', o) == Holders(slots, o)
  {
  }

  lemma SameOccupied(slots: map<Handle, Cap>, slots': map<Handle, Cap>, p: nat)
    requires slots'.Keys == slots.Keys
    ensures Occupied(slots', p) == Occupied(slots, p)
  {
  }

  lemma SpaceOf(s: State, s': State, p: nat)
    requires SpaceOk(s, p) && s'.nslots == s.nslots && s'.used == s.used && s'.spentIn == s.spentIn
    requires Occupied(s'.slots, p) == Occupied(s.slots, p)
    ensures SpaceOk(s', p)
  {
  }

  lemma ObjectMade(mac: Mac, body: Body, s: State, s': State, o: nat, last: int)
    requires CapsOk(mac, body, s, last) && o !in s.objs && o !in s.revoked
    requires exists kind :: s'.objs == s.objs[o := Obj(kind, 1, 1)]
    requires s' == s.(objs := s'.objs, revoked := s.revoked[o := 0], others := s.others[o := 1],
                      spent := s.spent[o := 0])
    ensures CapsOk(mac, body, s', last)
  {
    hide SlotOk, Holders, Occupied, SlotCount, SpaceOk;
    InfoFacts(mac, body, s, last);
    NoHolders(s, o);
    forall q | q in s'.objs
      ensures ObjOk(s', q)
    {
      assert q != o ==> ObjOk(s, q);
    }
    forall p | p in s'.nslots
      ensures SpaceOk(s', p)
    {
      SpaceSame(s, s', p);
    }
    SlotsUntouched(mac, body, s, s', last, last);
  }

  lemma NoHolders(s: State, o: nat)
    requires forall g :: g in s.slots ==> s.slots[g].obj in s.objs
    ensures o !in s.objs ==> Holders(s.slots, o) == {}
  {
  }

  lemma NoneOccupied(s: State, p: nat)
    requires forall g :: g in s.slots ==> g.0 in s.nslots
    ensures p !in s.nslots ==> Occupied(s.slots, p) == {}
  {
  }

  lemma ObjSame(s: State, s': State, o: nat)
    requires ObjOk(s, o) && s'.objs == s.objs && s'.revoked == s.revoked && s'.others == s.others && s'.spent == s.spent
    requires Holders(s'.slots, o) == Holders(s.slots, o)
    ensures ObjOk(s', o)
  {
  }

  lemma SpaceMade(mac: Mac, body: Body, s: State, s': State, p: nat, last: int)
    requires CapsOk(mac, body, s, last) && p !in s.nslots
    requires s' == s.(nslots := s.nslots[p := INIT_SLOTS], used := s.used[p := 0], spentIn := s.spentIn[p := 0])
    ensures CapsOk(mac, body, s', last)
  {
    hide SlotOk, Gen, Holders, Occupied, ObjOk;
    InfoFacts(mac, body, s, last);
    NoneOccupied(s, p);
    forall q | q in s'.objs
      ensures ObjOk(s', q)
    {
      ObjSame(s, s', q);
    }
    forall q | q in s'.nslots
      ensures SpaceOk(s', q)
    {
      assert q != p ==> SpaceOk(s, q);
    }
    SlotsUntouched(mac, body, s, s', last, last);
  }

  lemma Doubling(n: nat)
    requires SlotCount(n)
    ensures 0 < n <= MAX_SLOTS && (n < MAX_SLOTS ==> SlotCount(2 * n))
  {
  }

  lemma SpaceGrown(mac: Mac, body: Body, s: State, s': State, p: nat, last: int)
    requires CapsOk(mac, body, s, last) && p in s.nslots && s.nslots[p] < MAX_SLOTS
    requires s' == s.(nslots := s.nslots[p := 2 * s.nslots[p]])
    ensures CapsOk(mac, body, s', last)
  {
    hide SlotOk, Gen, Holders, Occupied, SlotCount;
    InfoFacts(mac, body, s, last);
    SpaceFacts(mac, body, s, p, last);
    Doubling(s.nslots[p]);
    forall q | q in s'.objs
      ensures ObjOk(s', q)
    {
      assert ObjOk(s, q);
    }
    forall q | q in s'.nslots
      ensures SpaceOk(s', q)
    {
      assert SpaceOk(s, q);
    }
    SlotsUntouched(mac, body, s, s', last, last);
  }

  /** One object's count, holders outside and revocations move together; it goes with its last reference. */
  lemma Recounted(mac: Mac, body: Body, s: State, s': State, o: nat, last: int)
    requires CapsOk(mac, body, s, last) && o in s.objs && o in s.revoked && o in s.others
    requires o in s'.revoked && o in s'.others && s'.revoked == s.revoked[o := s'.revoked[o]]
    requires s'.others == s.others[o := s'.others[o]] && s.revoked[o] <= s'.revoked[o]
    requires if o in s'.objs then s'.objs == s.objs[o := s'.objs[o]] && s'.objs[o].kind == s.objs[o].kind
             else s'.objs == s.objs - {o}
    requires o in s'.objs ==>
               && s'.objs[o].generation == Gen(s'.revoked[o])
               && s'.objs[o].refcount - s'.others[o] == s.objs[o].refcount - s.others[o]
               && s'.objs[o].refcount > 0
    requires o !in s'.objs ==> s.objs[o].refcount == 1 && s.others[o] > 0
    requires s' == s.(objs := s'.objs, revoked := s'.revoked, others := s'.others)
    ensures CapsOk(mac, body, s', last)
  {
    hide SlotOk, Gen, Occupied, ObjOk, SpaceOk, Holders;
    InfoFacts(mac, body, s, last);
    if o !in s'.objs {
      LastReference(mac, body, s, o, last);
    }
    RecountedObjs(s, s', o);
    forall q | q in s'.nslots
      ensures SpaceOk(s', q)
    {
      SpaceSame(s, s', q);
    }
    SlotsUntouched(mac, body, s, s', last, last);
  }

  lemma SpaceSame(s: State, s': State, p: nat)
    requires SpaceOk(s, p) && s'.nslots == s.nslots && s'.used == s.used && s'.spentIn == s.spentIn
    requires s'.slots == s.slots
    ensures SpaceOk(s', p)
  {
  }

  lemma LastReference(mac: Mac, body: Body, s: State, o: nat, last: int)
    requires CapsOk(mac, body, s, last) && o in s.objs && o in s.others && s.objs[o].refcount == 1 && s.others[o] > 0
    ensures forall g :: g in s.slots ==> s.slots[g].obj != o
  {
    hide SlotOk, Gen, Occupied, SpaceOk;
    assert ObjOk(s, o);
    assert Holders(s.slots, o) == {};
    forall g | g in s.slots
      ensures s.slots[g].obj != o
    {
      IsHolder(s.slots, g);
    }
  }

  lemma RecountedObjs(s: State, s': State, o: nat)
    requires ObjsOk(s) && o in s.objs && o in s.revoked && o in s.others && s'.slots == s.slots && s'.spent == s.spent
    requires o in s'.revoked && o in s'.others && s'.revoked == s.revoked[o := s'.revoked[o]]
    requires s'.others == s.others[o := s'.others[o]]
    requires if o in s'.objs then s'.objs == s.objs[o := s'.objs[o]] else s'.objs == s.objs - {o}
    requires o in s'.objs ==>
               && s'.objs[o].generation == Gen(s'.revoked[o])
               && s'.objs[o].refcount - s'.others[o] == s.objs[o].refcount - s.others[o]
               && s'.objs[o].refcount > 0
    ensures ObjsOk(s')
  {
    hide Gen, Holders;
    forall q | q in s'.objs
      ensures ObjOk(s', q)
    {
      assert ObjOk(s, q);
    }
  }

  /** The capability just sealed is in order. */
  lemma MintedOk(mac: Mac, body: Body, s: State, s': State, h: Handle, o: nat, rights: Rights, badge: nat,
          lifetime: nat, now: int, from: Option<(nat, bool)>)
    requires h in s'.slots && h in s'.info && o in s.objs && o in s'.objs && h.0 in s'.nslots && h.1 < s'.nslots[h.0]
    requires s'.revoked == s.revoked
    requires s'.objs[o].kind == s.objs[o].kind && o in s.revoked && s.objs[o].generation == Gen(s.revoked[o])
    requires s'.slots[h] == Mint(mac, body, s.objs[o], o, rights, badge, lifetime, now)
    requires from.Some? ==> Descends(s'.slots[h], s.installs, from.value)
    requires s'.installs == s.installs + NewInstall(o, rights, s'.slots[h].seal, from)
    requires s'.info[h] == NewInfo(|s.installs|, s.revoked[o], from)
    ensures SlotOk(mac, body, s', h, now) && s'.slots[h].obj == o
  {
    hide Gen, InWindow;
    if from == None {
      assert Attenuated(s'.slots[h], s'.installs[|s.installs|], false);
    }
  }

  ghost function Filled(s: State, h: Handle, c: Cap, o: nat, from: Option<(nat, bool)>): State
    requires o in s.objs && o in s.revoked && h.0 in s.used
  {
    s.(installs := s.installs + NewInstall(o, c.rights, c.seal, from), slots := s.slots[h := c],
       info := s.info[h := NewInfo(|s.installs|, s.revoked[o], from)],
       used := s.used[h.0 := s.used[h.0] + 1], objs := s.objs[o := s.objs[o].(refcount := s.objs[o].refcount + 1)])
  }

  lemma MintIs(mac: Mac, body: Body, obj: Obj, o: nat, rights: Rights, badge: nat, lifetime: nat, now: int)
    ensures var c := Mint(mac, body, obj, o, rights, badge, lifetime, now);
            && c.obj == o && c.rights == rights && c.badge == badge && c.uses == 0 && c.generation == obj.generation
            && c.seal.notBefore == now
            && c.seal.notAfter == ToS64(now + ToS64(if lifetime == 0 then 60 else lifetime))
  {
  }

  lemma FilledIn(mac: Mac, body: Body, b: State, s: State, s': State, h: Handle, o: nat, rights: Rights, badge: nat,
          lifetime: nat, now: int, from: Option<(nat, bool)>)
    requires o in s.objs && o in s.revoked && h.0 in s.used && s == b.(nslots := s.nslots) && h !in s.slots
    requires forall i :: 0 <= i < h.1 ==> (h.0, i) in s.slots
    requires h.0 in b.nslots
    requires s.nslots == (if h.1 < b.nslots[h.0] then b.nslots else b.nslots[h.0 := 2 * b.nslots[h.0]])
    requires s' == Filled(s, h, Mint(mac, body, s.objs[o], o, rights, badge, lifetime, now), o, from)
    ensures Installed(mac, body, b, s', h, o, rights, badge, lifetime, now, from)
    ensures s'.objs.Keys == b.objs.Keys && s'.revoked == b.revoked && s'.nslots == s.nslots
  {
    hide SealMake;
  }

  lemma FilledOk(mac: Mac, body: Body, s: State, h: Handle, o: nat, rights: Rights, badge: nat, lifetime: nat,
          was: int, now: int, from: Option<(nat, bool)>)
    requires CapsOk(mac, body, s, was) && was <= now && h.0 in s.nslots && h.1 < s.nslots[h.0] && h !in s.slots
    requires o in s.objs && o in s.revoked && h.0 in s.used
    requires from.Some? ==>
               Descends(Mint(mac, body, s.objs[o], o, rights, badge, lifetime, now), s.installs, from.value)
    ensures CapsOk(mac, body, Filled(s, h, Mint(mac, body, s.objs[o], o, rights, badge, lifetime, now), o, from), now)
    ensures Mint(mac, body, s.objs[o], o, rights, badge, lifetime, now).rights == rights
  {
    hide SlotOk, CapsOk, ObjOk, SpaceOk, Descends, Holders, Occupied, Gen, SlotCount, SealMake, NewInfo, NewInstall;
    var s' := Filled(s, h, Mint(mac, body, s.objs[o], o, rights, badge, lifetime, now), o, from);
    InfoFacts(mac, body, s, was);
    CountFacts(mac, body, s, o, was);
    MintedOk(mac, body, s, s', h, o, rights, badge, lifetime, now, from);
    SlotAdded(mac, body, s, s', h, was, now);
  }

  lemma LifeFits(end: int, lifetime: nat, now: int)
    requires lifetime < U64 && end < S63 && now >= 0
    ensures DeriveLife(end, lifetime, now) < U64
  {
  }

  /** What a derivation mints is within what its parent descends from. */
  lemma DerivedOk(mac: Mac, body: Body, s: State, h: Handle, rights: Rights, badge: nat, lifetime: nat, now: int,
        last: int)
    requires h in s.slots && SlotOk(mac, body, s, h, last) && 0 <= last <= now < S63 && lifetime < U64
    requires DeriveLife(s.slots[h].seal.notAfter, lifetime, now) != 0
    ensures var c, i := s.slots[h], s.info[h];
            var d := Mint(mac, body, s.objs[c.obj], c.obj, rights * c.rights, badge,
                          DeriveLife(c.seal.notAfter, lifetime, now), now);
            && Descends(d, s.installs, (i.origin, i.endless || Wraps(c.seal, lifetime, now))) && d.rights <= c.rights
            && (Covers(d.seal, c.seal) <==> !Wraps(c.seal, lifetime, now)) && d.seal.notBefore == now
            && d.seal.notAfter == (if lifetime >= S63 then now + lifetime - U64
                                   else if lifetime == 0 || c.seal.notAfter < now + lifetime then c.seal.notAfter
                                   else now + lifetime)
  {
    hide Gen, InWindow, SealMake, DeriveLife, Sound, Covers;
    var c, i := s.slots[h], s.info[h];
    var payload := body(c.obj, s.objs[c.obj].kind, rights * c.rights, s.objs[c.obj].generation, badge);
    DeriveShortens(mac, c.seal, lifetime, now, c.obj, badge, payload);
    DerivedEnd(mac, c.seal, lifetime, now, c.obj, badge, payload);
    if !i.endless && !Wraps(c.seal, lifetime, now) {
      CoversVia(SealMake(mac, c.obj, badge, payload, DeriveLife(c.seal.notAfter, lifetime, now), now), c.seal,
                s.installs[i.origin].seal);
    }
  }

  /** A grant keeps the end, so the window. */
  lemma GrantedOk(mac: Mac, body: Body, s: State, h: Handle, mask: Rights, now: int, last: int)
    requires h in s.slots && SlotOk(mac, body, s, h, last) && 0 <= last <= now < S63 && s.slots[h].seal.notAfter > now
    ensures var c, i := s.slots[h], s.info[h];
            var d := Mint(mac, body, s.objs[c.obj], c.obj, c.rights * mask, c.badge, c.seal.notAfter - now, now);
            && Descends(d, s.installs, (i.origin, i.endless)) && Covers(d.seal, c.seal)
            && d.seal.notAfter == c.seal.notAfter
  {
    hide Gen, Sound, Covers;
    var c, i := s.slots[h], s.info[h];
    var payload := body(c.obj, s.objs[c.obj].kind, c.rights * mask, s.objs[c.obj].generation, c.badge);
    SameEnd(mac, c.seal, now, c.obj, c.badge, payload);
    if !i.endless {
      CoversVia(SealMake(mac, c.obj, c.badge, payload, c.seal.notAfter - now, now), c.seal, s.installs[i.origin].seal);
    }
  }

  lemma SameEnd(mac: Mac, parent: Seal, now: int, subject: nat, seqno: nat, payload: seq<Byte>)
    requires parent.notBefore <= now && 0 <= now < parent.notAfter < S63
    ensures var d := SealMake(mac, subject, seqno, payload, parent.notAfter - now, now);
            d.notAfter == parent.notAfter && Covers(d, parent)
  {
  }

  /** Within the install it descends from. */
  ghost predicate Descends(c: Cap, installs: seq<Install>, from: (nat, bool)) {
    from.0 < |installs| && Attenuated(c, installs[from.0], from.1)
  }

  /** What a granted lookup may rely on. */
  ghost predicate Authorized(s: State, h: Handle, kind: nat, need: Rights, now: int) {
    && h in s.slots && h in s.info && s.info[h].origin < |s.installs| && s.slots[h].obj in s.revoked
    && var root, born, count := s.installs[s.info[h].origin], s.info[h].born, s.revoked[s.slots[h].obj];
       && root.obj == s.slots[h].obj && need <= root.rights && (!s.info[h].endless ==> InWindow(root.seal, now))
       && born <= count && (count - born) % U32 == 0
       && s.slots[h].obj in s.objs && (kind == 0 || s.objs[s.slots[h].obj].kind == kind)
  }

  lemma IsAuthorized(mac: Mac, body: Body, s: State, h: Handle, kind: nat, need: Rights, now: int, last: int)
    requires CapsOk(mac, body, s, last) && LookupStatus(mac, body, s, h, kind, need, now) == Granted
    ensures Authorized(s, h, kind, need, now)
  {
    hide LookupStatus, CapsOk, InWindow;
    GrantedMeans(mac, body, s, h, kind, need, now, last);
  }

  lemma StatusFacts(mac: Mac, body: Body, s: State, h: Handle, kind: nat, need: Rights, now: int)
    requires LookupStatus(mac, body, s, h, kind, need, now) in {Granted, Lapsed}
    ensures h in s.slots && s.slots[h].obj in s.objs
  {
  }

  /** The slots after one more use of one of them. */
  function UsedOnce(slots: map<Handle, Cap>, h: Handle): map<Handle, Cap> {
    if h !in slots then slots
    else if slots[h].uses == 1 then slots - {h}
    else slots[h := slots[h].(uses := if slots[h].uses == 0 then 0 else slots[h].uses - 1)]
  }

  function More(m: map<nat, nat>, k: nat): map<nat, nat> {
    m[k := if k in m then m[k] + 1 else 1]
  }

  /** The state after a granted lookup: the last of a counted number of uses leaves the slot dead, with its
      reference and its place in the slot count. */
  ghost function AfterUse(s: State, h: Handle): State {
    if h !in s.slots then s
    else if s.slots[h].uses != 1 then s.(slots := UsedOnce(s.slots, h))
    else s.(slots := UsedOnce(s.slots, h), info := s.info - {h}, spent := More(s.spent, s.slots[h].obj),
            spentIn := More(s.spentIn, h.0))
  }

  lemma UsedOk(mac: Mac, body: Body, s: State, h: Handle, last: int)
    requires CapsOk(mac, body, s, last) && h in s.slots
    ensures CapsOk(mac, body, AfterUse(s, h), last)
  {
    hide SlotOk, CapsOk, ObjOk, SpaceOk, Holders, Occupied;
    HandleFacts(mac, body, s, h, last);
    InfoFacts(mac, body, s, last);
    if s.slots[h].uses == 1 {
      SlotSpent(mac, body, s, AfterUse(s, h), h, last, last);
    } else {
      UsesOnly(mac, body, s, AfterUse(s, h), last);
    }
  }

  /** The state after a lookup, whatever its answer. */
  ghost predicate Looked(mac: Mac, body: Body, s: State, s': State, h: Handle, kind: nat, need: Rights, now: int) {
    match LookupStatus(mac, body, s, h, kind, need, now)
    case Granted => s' == AfterUse(s, h)
    case Lapsed => Removed(s, s', h)
    case _ => s' == s
  }

  /** What lookup answers about a capability just made: nothing but its rights and window count. */
  ghost function ChildStatus(c: Cap, need: Rights, t: int): Status {
    if !(need <= c.rights) then Denied else if InWindow(c.seal, t) then Granted else Lapsed
  }

  /** A derivation is an install with what the parent allows. */
  ghost predicate Derived(mac: Mac, body: Body, s: State, s': State, h: Handle, d: Handle, rights: Rights, badge: nat,
          lifetime: nat, now: int) {
    && h in s.slots && h in s.info
    && var c, i := s.slots[h], s.info[h];
       Installed(mac, body, s, s', d, c.obj, rights * c.rights, badge, DeriveLife(c.seal.notAfter, lifetime, now), now,
                 Some((i.origin, i.endless || Wraps(c.seal, lifetime, now))))
  }

  /** The child is of the object's present generation, whatever the parent's: lookup grants it in its window. */
  lemma IsDerived(mac: Mac, body: Body, s: State, s': State, h: Handle, d: Handle, rights: Rights, badge: nat,
          lifetime: nat, now: int)
    requires Derived(mac, body, s, s', h, d, rights, badge, lifetime, now) && s.slots[h].obj in s.objs
    ensures forall need, t :: LookupStatus(mac, body, s', d, 0, need, t) == ChildStatus(s'.slots[d], need, t)
  {
    hide SealMake, DeriveLife, InWindow;
  }

  /** A window just derived is open, unless the lifetime asked for is read as negative and the end does not
      come to zero. */
  lemma OpensAtOnce(mac: Mac, parent: Seal, lifetime: nat, now: int, subject: nat, seqno: nat, payload: seq<Byte>)
    requires 0 <= now < S63 && lifetime < U64 && parent.notAfter < S63
    requires DeriveLife(parent.notAfter, lifetime, now) != 0
    ensures InWindow(SealMake(mac, subject, seqno, payload, DeriveLife(parent.notAfter, lifetime, now), now), now) <==>
            lifetime < S63 || lifetime + now == U64
  {
    if lifetime >= S63 {
      assert ToS64(lifetime) == lifetime - U64;
    }
  }

  /** The new slot `d` holds a weaker copy of the capability at `h`. */
  ghost predicate ChildOf(s: State, s': State, h: Handle, d: Handle, rights: Rights, badge: nat, lifetime: nat,
        now: int) {
    && h in s.slots && h in s.info && d !in s.slots && d in s'.slots && d in s'.info
    && s'.slots == s.slots[d := s'.slots[d]]
    && var p, c, i := s.slots[h], s'.slots[d], s.info[h];
       && c.obj == p.obj && c.rights == rights * p.rights && c.rights <= p.rights && c.badge == badge
       && (Covers(c.seal, p.seal) <==> !Wraps(p.seal, lifetime, now))
       && c.uses == 0 && c.seal.notBefore == now
       && c.seal.notAfter == (if lifetime >= S63 then now + lifetime - U64
                              else if lifetime == 0 || p.seal.notAfter < now + lifetime then p.seal.notAfter
                              else now + lifetime)
       && c.obj in s.revoked
       && s'.info[d] == Info(i.origin, s.revoked[c.obj], i.endless || Wraps(p.seal, lifetime, now))
  }

  lemma IsChild(mac: Mac, body: Body, s: State, s': State, h: Handle, d: Handle, rights: Rights, badge: nat,
          lifetime: nat, now: int)
    requires h in s.slots && h in s.info && s.slots[h].obj in s.objs
    requires var c, i := s.slots[h], s.info[h];
             var m := Mint(mac, body, s.objs[c.obj], c.obj, rights * c.rights, badge,
                           DeriveLife(c.seal.notAfter, lifetime, now), now);
             && m.rights <= c.rights && (Covers(m.seal, c.seal) <==> !Wraps(c.seal, lifetime, now))
             && Installed(mac, body, s, s', d, c.obj, rights * c.rights, badge,
                          DeriveLife(c.seal.notAfter, lifetime, now), now,
                          Some((i.origin, i.endless || Wraps(c.seal, lifetime, now))))
             && m.seal.notBefore == now
             && m.seal.notAfter == (if lifetime >= S63 then now + lifetime - U64
                                    else if lifetime == 0 || c.seal.notAfter < now + lifetime then c.seal.notAfter
                                    else now + lifetime)
    ensures ChildOf(s, s', h, d, rights, badge, lifetime, now)
  {
    hide Covers, Wraps, SealMake, DeriveLife;
  }

  /** The new slot `d` holds what the capability at `h` was, with rights under the mask and the same end. */
  ghost predicate CopyOf(s: State, s': State, h: Handle, d: Handle, mask: Rights) {
    && h in s.slots && h in s.info && d in s'.slots && d in s'.info
    && s'.slots - {d} == UsedOnce(s.slots, h)
    && var p, c, i := s.slots[h], s'.slots[d], s.info[h];
       && c.obj == p.obj && c.rights == p.rights * mask && c.badge == p.badge && c.seal.notAfter == p.seal.notAfter
       && Covers(c.seal, p.seal) && c.uses == 0
       && c.obj in s.revoked && s'.info[d] == Info(i.origin, s.revoked[c.obj], i.endless)
  }

  /** A grant is a lookup and an install with what the handle's capability holds under the mask. */
  ghost predicate Copied(mac: Mac, body: Body, s: State, s': State, h: Handle, d: Handle, mask: Rights, now: int) {
    && h in s.slots && h in s.info && s.slots[h].seal.notAfter > now
    && var c, i := s.slots[h], s.info[h];
       Installed(mac, body, AfterUse(s, h), s', d, c.obj, c.rights * mask, c.badge, c.seal.notAfter - now, now,
                 Some((i.origin, i.endless)))
  }

  lemma IsCopy(mac: Mac, body: Body, s: State, t: State, s': State, h: Handle, d: Handle, mask: Rights, now: int)
    requires h in s.slots && h in s.info && s.slots[h].obj in s.objs && t.objs == s.objs && t.revoked == s.revoked
    requires s.slots[h].seal.notAfter > now
    requires t == AfterUse(s, h) && d !in t.slots
    requires var c, i := s.slots[h], s.info[h];
             var m := Mint(mac, body, s.objs[c.obj], c.obj, c.rights * mask, c.badge, c.seal.notAfter - now, now);
             && Covers(m.seal, c.seal) && m.seal.notAfter == c.seal.notAfter
             && Installed(mac, body, t, s', d, c.obj, c.rights * mask, c.badge, c.seal.notAfter - now, now,
                          Some((i.origin, i.endless)))
    ensures CopyOf(s, s', h, d, mask)
  {
    hide Covers, SealMake;
  }

  /** One revocation turns a handle that would be granted into a bad one. */
  lemma NowStale(mac: Mac, body: Body, s: State, s': State, h: Handle, need: Rights, now: int, last: int)
    requires CapsOk(mac, body, s, last) && CapsOk(mac, body, s', last)
    requires LookupStatus(mac, body, s, h, 0, need, now) == Granted
    requires h in s.slots && s'.slots == s.slots && s'.info == s.info && s.slots[h].obj in s.revoked
    requires s'.revoked == s.revoked[s.slots[h].obj := s.revoked[s.slots[h].obj] + 1]
    ensures LookupStatus(mac, body, s', h, 0, need, now) == BadHandle
  {
    hide CapsOk, LookupStatus;
    StatusExactly(mac, body, s, h, 0, need, now, last);
    StatusExactly(mac, body, s', h, 0, need, now, last);
  }

  /** A revoked handle is refused and yet derives: the child it mints is granted exactly when the handle
      carries DERIVE, the parent's time is not up, the space has room, the rights asked for are among those
      kept, and the lifetime is not one that is read as negative. */
  method DeriveAfterRevoke(caps: Caps, p: nat, parent: nat, rights: Rights, badge: nat, lifetime: nat, now: int,
          memory: bool, need: Rights) returns (stale: Status, child: Status)
    requires caps.Valid() && caps.last <= now < S63 && lifetime < U64 && (p, parent) in caps.slots
    requires LookupStatus(caps.mac, caps.body, caps.S(), (p, parent), 0, need, now) == Granted
    modifies caps
    ensures caps.Valid() && stale == BadHandle
    ensures var c := old(caps.slots)[(p, parent)];
            child == Granted <==> DERIVE <= c.rights && (c.seal.notAfter > now || lifetime >= S63)
                                  && !Full(old(caps.S()), p, memory) && need <= rights * c.rights
                                  && (lifetime < S63 || lifetime + now == U64)
  {
    hide SlotOk, CapsOk, ObjOk, SpaceOk, SealMake, Holders, Occupied, Authorized, Sound, Attenuated, Covers;
    hide Installed, AfterUse, Removed, LookupStatus;
    var h := (p, parent);
    HandleFacts(caps.mac, caps.body, caps.S(), h, caps.last);
    ghost var s := caps.S();
    var c := caps.slots[h];
    caps.RevokeObject(c.obj);
    NowStale(caps.mac, caps.body, s, caps.S(), h, need, now, caps.last);
    var o;
    stale, o := caps.Lookup(h, 0, need, now);
    ghost var t := caps.S();
    assert Full(t, p, memory) == Full(s, p, memory);
    var d := caps.Derive(p, parent, rights, badge, lifetime, now, memory);
    child := BadHandle;
    if d.Some? {
      child, o := caps.Lookup((p, d.value), 0, need, now);
    }
  }
}
