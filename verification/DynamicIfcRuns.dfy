/**
 Runs of arht_dynamic_ifc.c: kprobe handlers that add sessions and see packets, timers that end them,
 enable, disable with its two-pass cleanup, and the references released after the lock.
 */
module DynamicIfcRuns {
  import opened Wrappers
  import opened Tally
  import opened DynamicIfc

  // ---------------------------------------------------------------- invariant of the table

  predicate LiveRule(e: Session) { e.valid && e.ifcValid }

  /** One session's own fields. */
  predicate SessionOk(e: Session) {
    && (e.ifcValid ==> e.valid && e.ifcIndex != 0)
    && (!e.valid ==> e.sk.None? && e.txDst.None? && e.rxDst.None?)
    && (e.ifcValid ==> e.ringId == DEFAULT_RING || RING_START <= e.ringId < RING_START + RING_NUM)
  }

  /** Reservation i is free, or owned by a session with a live rule on ring RING_START + i. */
  predicate RingOwned(ety: seq<Session>, ring: seq<int>, i: nat)
    requires |ety| == MAX_NUM && i < |ring|
  {
    ring[i] == SLOT_FREE
    || (0 <= ring[i] < MAX_NUM && LiveRule(ety[ring[i]]) && ety[ring[i]].ringId == RING_START + i)
  }

  ghost predicate SessionsOk(ety: seq<Session>) { forall k :: 0 <= k < |ety| ==> SessionOk(ety[k]) }

  ghost predicate RingsOk(ety: seq<Session>, ring: seq<int>) {
    && |ety| == MAX_NUM && |ring| == RING_NUM
    && (forall i :: 0 <= i < RING_NUM ==> RingOwned(ety, ring, i))
    && (forall k :: 0 <= k < MAX_NUM && ety[k].ifcValid && ety[k].ringId >= RING_START ==>
          ety[k].ringId < RING_START + RING_NUM && ring[ety[k].ringId - RING_START] == k)
  }

  ghost predicate Unique(ety: seq<Session>) {
    forall i, j :: 0 <= i < j < |ety| && ety[i].valid && ety[j].valid ==> RuleOf(ety[i]) != RuleOf(ety[j])
  }

  ghost predicate HasRule(ety: seq<Session>, r: Rule) {
    exists k :: 0 <= k < |ety| && LiveRule(ety[k]) && RuleOf(ety[k]) == r
  }

  ghost predicate RulesOk(ety: seq<Session>, rules: set<Rule>) { forall r :: r in rules <==> HasRule(ety, r) }

  ghost predicate Core(f: Ifc) {
    && Shape(f) && SessionsOk(f.ety) && RingsOk(f.ety, f.ring) && Unique(f.ety) && RulesOk(f.ety, f.rules)
    && (AnyValid(f.ety) ==> f.hook)
  }

  // ---------------------------------------------------------------- rings

  /** A session without a live rule owns no ring, and no reservation is stale: the reclaim branch is dead. */
  lemma ReclaimBranchIsDead(f: Ifc, k: nat)
    requires Core(f) && k < MAX_NUM && !f.ety[k].ifcValid
    ensures FirstClaimable(f.ety, f.ring, k, 0).None?
    ensures forall i :: 0 <= i < RING_NUM ==> f.ring[i] != k && (f.ring[i] != SLOT_FREE ==> !Stale(f.ety, f.ring[i]))
  {
    forall i | 0 <= i < RING_NUM
      ensures !Claimable(f.ety, f.ring[i], k)
    {
      assert RingOwned(f.ety, f.ring, i);
    }
  }

  /** So a new rule gets the lowest free ring, and the default one exactly when all four are owned. */
  lemma DefaultRingOnlyWhenFull(f: Ifc, k: nat, hw: Hw)
    requires Core(f) && k < MAX_NUM && f.ety[k].valid && !f.ety[k].ifcValid && hw.index != 0 && hw.actionOk
    ensures var e := AddIfc(f, k, hw).ety[k];
            && e.ifcValid
            && (e.ringId == DEFAULT_RING <==>
                  forall i :: 0 <= i < RING_NUM ==> 0 <= f.ring[i] < MAX_NUM && f.ring[i] != k && LiveRule(f.ety[f.ring[i]]))
            && (e.ringId != DEFAULT_RING ==>
                  && RING_START <= e.ringId < RING_START + RING_NUM && f.ring[e.ringId - RING_START] == SLOT_FREE
                  && forall i :: 0 <= i < e.ringId - RING_START ==> f.ring[i] != SLOT_FREE)
  {
    ReclaimBranchIsDead(f, k);
    assert AnyValid(f.ety);
    assert forall i :: 0 <= i < RING_NUM ==> RingOwned(f.ety, f.ring, i);
    hide FirstClaimable, FirstOwned;
  }

  // ---------------------------------------------------------------- each operation keeps it

  /** A session that changes neither its validity, its ports, nor its rule. */
  lemma TouchKeepsCore(f: Ifc, k: nat, e: Session)
    requires Core(f) && k < MAX_NUM && SessionOk(e)
    requires var o := f.ety[k];
             e.valid == o.valid && e.ifcValid == o.ifcValid && (o.ifcValid ==> e.ringId == o.ringId) && RuleOf(e) == RuleOf(o)
    ensures Core(f.(ety := f.ety[k := e]))
  {
    var ety := f.ety[k := e];
    forall i | 0 <= i < RING_NUM
      ensures RingOwned(ety, f.ring, i)
    {
      assert RingOwned(f.ety, f.ring, i);
    }
    forall r
      ensures HasRule(ety, r) == HasRule(f.ety, r)
    {
      if i :| 0 <= i < MAX_NUM && LiveRule(f.ety[i]) && RuleOf(f.ety[i]) == r {
        assert LiveRule(ety[i]) && RuleOf(ety[i]) == r;
      }
    }
  }

  /** A reservation made and given back. */
  lemma ReserveRelease(f: Ifc, k: nat)
    requires Core(f) && k < MAX_NUM && !f.ety[k].ifcValid
    ensures ReleaseRing(GetRing(f.ety, f.ring, k).0, k) == f.ring
  {
    ReclaimBranchIsDead(f, k);
    var free := FirstOwned(f.ring, SLOT_FREE, 0);
    hide FirstClaimable, FirstOwned;
    var ring := GetRing(f.ety, f.ring, k).0;
    var o := FirstOwned(ring, k, 0);
    if free.Some? {
      assert ring[free.value] == k;
      assert o == free;
      assert ring[free.value := SLOT_FREE] == f.ring;
    }
  }

  lemma LiveRuleKeepsRings(f: Ifc, k: nat, e: Session)
    requires Core(f) && k < MAX_NUM && f.ety[k].valid && !f.ety[k].ifcValid
    requires var g := GetRing(f.ety, f.ring, k); e.valid && e.ifcValid && e.ringId == g.1
    ensures RingsOk(f.ety[k := e], GetRing(f.ety, f.ring, k).0)
    ensures e.ringId == DEFAULT_RING || RING_START <= e.ringId < RING_START + RING_NUM
  {
    ReclaimBranchIsDead(f, k);
    hide FirstClaimable, FirstOwned, Unique, RulesOk;
    var ety, ring := f.ety[k := e], GetRing(f.ety, f.ring, k).0;
    forall i | 0 <= i < RING_NUM
      ensures RingOwned(ety, ring, i)
    {
      assert RingOwned(f.ety, f.ring, i);
    }
  }

  lemma AddIfcKeepsCore(f: Ifc, k: nat, hw: Hw)
    requires Core(f) && k < MAX_NUM
    ensures Core(AddIfc(f, k, hw))
  {
    var o := f.ety[k];
    if o.valid && !o.ifcValid && f.hook {
      if hw.index == 0 {
        TouchKeepsCore(f, k, o.(ifcIndex := 0));
      } else if !hw.actionOk {
        ReserveRelease(f, k);
        TouchKeepsCore(f, k, o.(ifcIndex := 0, ringId := GetRing(f.ety, f.ring, k).1));
        assert f.rules + {RuleOf(o)} - {RuleOf(o)} == f.rules;
        hide Core, GetRing, ReleaseRing;
      } else {
        var e := o.(ifcIndex := hw.index, ringId := GetRing(f.ety, f.ring, k).1, ifcValid := true);
        LiveRuleKeepsRings(f, k, e);
        AddedRule(f, k, e);
        hide RingsOk, GetRing, HasRule;
      }
    }
  }

  lemma AddedRule(f: Ifc, k: nat, e: Session)
    requires Core(f) && k < MAX_NUM && f.ety[k].valid && !f.ety[k].ifcValid
    requires LiveRule(e) && RuleOf(e) == RuleOf(f.ety[k])
    ensures RulesOk(f.ety[k := e], f.rules + {RuleOf(e)})
  {
    hide RingsOk, Unique;
    var ety := f.ety[k := e];
    forall r
      ensures HasRule(ety, r) <==> HasRule(f.ety, r) || r == RuleOf(e)
    {
      assert LiveRule(ety[k]);
      if i :| 0 <= i < MAX_NUM && LiveRule(f.ety[i]) && RuleOf(f.ety[i]) == r {
        assert LiveRule(ety[i]) && RuleOf(ety[i]) == r;
      }
    }
  }

  /** Ending a session: its rule leaves the hardware, its ring becomes free, nobody else's does. */
  lemma EndKeepsCore(f: Ifc, k: nat, timerActive: bool, skipCopy: bool)
    requires Core(f) && k < MAX_NUM && f.ety[k].valid
    ensures Core(EndSession(f, k, timerActive, skipCopy))
    ensures var g := EndSession(f, k, timerActive, skipCopy);
            && !g.ety[k].valid && (forall j :: 0 <= j < MAX_NUM && j != k ==> g.ety[j] == f.ety[j])
            && g.reg == f.reg && g.saved == f.saved && g.orig == f.orig && g.hook == f.hook && g.ready == f.ready
  {
    var g := EndSession(f, k, timerActive, skipCopy);
    assert SessionOk(f.ety[k]);
    assert AnyValid(f.ety);
    assert !f.ety[k].ifcValid ==> g.ring == f.ring && g.rules == f.rules;
    EndKeepsRings(f, k, g.ety[k]);
    EndedRule(f, k, g.ety[k]);
    assert g.ety == f.ety[k := g.ety[k]];
    hide RingsOk, HasRule, ReleaseRing, RulesOk;
  }

  lemma EndKeepsRings(f: Ifc, k: nat, e: Session)
    requires Core(f) && k < MAX_NUM && !e.ifcValid
    ensures RingsOk(f.ety[k := e], if f.ety[k].ifcValid then ReleaseRing(f.ring, k) else f.ring)
  {
    hide Unique, RulesOk, FirstOwned;
    var ety, ring := f.ety[k := e], if f.ety[k].ifcValid then ReleaseRing(f.ring, k) else f.ring;
    assert SessionOk(f.ety[k]);
    forall i | 0 <= i < RING_NUM
      ensures f.ring[i] == k ==> f.ety[k].ifcValid && i == f.ety[k].ringId - RING_START
    {
      assert RingOwned(f.ety, f.ring, i);
    }
    forall i | 0 <= i < RING_NUM
      ensures RingOwned(ety, ring, i)
    {
      assert RingOwned(f.ety, f.ring, i);
    }
  }

  lemma EndedRule(f: Ifc, k: nat, e: Session)
    requires Core(f) && k < MAX_NUM && f.ety[k].valid && !LiveRule(e)
    ensures RulesOk(f.ety[k := e], if f.ety[k].ifcValid then f.rules - {RuleOf(f.ety[k])} else f.rules)
  {
    hide RingsOk;
    var ety := f.ety[k := e];
    forall r
      ensures HasRule(ety, r) <==> HasRule(f.ety, r) && !(f.ety[k].ifcValid && r == RuleOf(f.ety[k]))
    {
      if i :| 0 <= i < MAX_NUM && LiveRule(f.ety[i]) && RuleOf(f.ety[i]) == r {
        if i != k { assert LiveRule(ety[i]) && RuleOf(ety[i]) == r; }
      }
      if i :| 0 <= i < MAX_NUM && LiveRule(ety[i]) && RuleOf(ety[i]) == r {
        assert i != k && LiveRule(f.ety[i]) && RuleOf(f.ety[i]) == r;
      }
    }
  }

  lemma AddEntryKeepsCore(f: Ifc, local: nat, remote: nat, sk: nat, now: nat, agg: nat)
    requires Core(f) && f.hook
    ensures Core(AddEntry(f, local, remote, sk, now, agg))
  {
    var slot := AddSlot(f, local, remote);
    if slot.Some? {
      var k := slot.value;
      var e := NewSession(f.ety[k], local, remote, sk, now);
      var ety := f.ety[k := e];
      assert SessionOk(f.ety[k]);
      assert !LiveRule(f.ety[k]);
      EndKeepsRings(f, k, e);
      NewSessionHasNoRule(f, k, e);
      hide Find, FirstInvalid, RingsOk, HasRule, RulesOk;
      forall i, j | 0 <= i < j < MAX_NUM && ety[i].valid && ety[j].valid
        ensures RuleOf(ety[i]) != RuleOf(ety[j])
      {
        assert !PortsAre(f.ety[if i == k then j else i], local, remote) || (i != k && j != k);
      }
    }
  }

  lemma NewSessionHasNoRule(f: Ifc, k: nat, e: Session)
    requires Core(f) && k < MAX_NUM && !LiveRule(f.ety[k]) && !LiveRule(e)
    ensures RulesOk(f.ety[k := e], f.rules)
  {
    hide RingsOk, Unique;
    var ety := f.ety[k := e];
    forall r
      ensures HasRule(ety, r) == HasRule(f.ety, r)
    {
      if i :| 0 <= i < MAX_NUM && LiveRule(f.ety[i]) && RuleOf(f.ety[i]) == r {
        assert LiveRule(ety[i]) && RuleOf(ety[i]) == r;
      }
      if i :| 0 <= i < MAX_NUM && LiveRule(ety[i]) && RuleOf(ety[i]) == r {
        assert LiveRule(f.ety[i]) && RuleOf(f.ety[i]) == r;
      }
    }
  }

  lemma ReceiveKeepsCore(f: Ifc, k: nat, seen: Option<nat>, hash: nat, rateReached: bool, hw: Hw)
    requires Core(f) && k < MAX_NUM && f.ety[k].valid
    ensures Core(Receive(f, k, seen, hash, rateReached, hw))
  {
    var e := Received(f.ety[k], seen, hash);
    assert SessionOk(f.ety[k]);
    TouchKeepsCore(f, k, e);
    if !(e.ifcValid || !rateReached) {
      var e' := e.(skipCopy := e.skipCopy || e.sk.Some?);
      TouchKeepsCore(f, k, e');
      AddIfcKeepsCore(f.(ety := f.ety[k := e']), k, hw);
    }
  }

  lemma TransmitKeepsCore(f: Ifc, k: nat, seen: Option<nat>, now: nat)
    requires Core(f) && k < MAX_NUM && f.ety[k].valid
    ensures Core(Transmit(f, k, seen, now))
  {
    assert SessionOk(f.ety[k]);
    TouchKeepsCore(f, k, Transmit(f, k, seen, now).ety[k]);
  }

  // ---------------------------------------------------------------- runs

  /** References carried by a context past the lock: a socket, and up to two routes. */
  datatype Holder = Holder(sk: Option<nat>, tx: Option<nat>, rx: Option<nat>)

  const DONE: Holder := Holder(None, None, None)

  /** Enabled with its kprobes; then disable: kprobes gone, timers stopped, sessions ended; then off. */
  datatype Phase = Off | On | Draining | Marked | Drained

  /** others is what other writers last put in the register field. */
  datatype Sys = Sys(f: Ifc, holders: seq<Holder>, socks: multiset<nat>, dsts: multiset<nat>,
                     phase: Phase, others: Lro, fault: bool)

  datatype Step =
    | Enable
    | Disable
    | MarkTimers
    | Cleanup
    | ClearHook
    | Add(local: nat, remote: nat, sk: nat, now: nat, agg: nat)
    | Rcv(local: nat, remote: nat, seen: Option<nat>, hash: nat, rateReached: bool, hw: Hw)
    | Xmit(local: nat, remote: nat, seen: Option<nat>, now: nat)
    | Pingpong(local: nat, remote: nat)
    | Timeout(k: nat, now: nat)
    | Release(t: nat)
    | OtherWrite(reg: Lro)
    | Device(up: bool)

  function Init(reg: Lro, ready: bool): Sys {
    Sys(Ifc(seq(MAX_NUM, _ => EMPTY), seq(RING_NUM, _ => SLOT_FREE), {}, reg, false, Lro(0, 0), false, ready),
        [], multiset{}, multiset{}, Off, reg, false)
  }

  function HolderOf(e: Session): Holder { Holder(HandedOver(e).0, HandedOver(e).1, HandedOver(e).2) }

  function HoldersBelow(ety: seq<Session>, n: nat): seq<Holder>
    requires n <= |ety|
  {
    if n == 0 then [] else HoldersBelow(ety, n - 1) + [HolderOf(ety[n - 1])]
  }

  function DoRcv(s: Sys, k: nat, seen: Option<nat>, hash: nat, rateReached: bool, hw: Hw): Sys
    requires Shape(s.f) && k < MAX_NUM
  {
    var o := s.f.ety[k].rxDst;
    var s' := s.(f := Receive(s.f, k, seen, hash, rateReached, hw));
    if Swaps(o, seen) then s'.(dsts := Take(s.dsts, seen), holders := s.holders + [Holder(None, None, o)]) else s'
  }

  function Next(s: Sys, step: Step): Option<Sys> {
    if !Shape(s.f) then None else
    match step
    case Enable => if s.phase.Off? then Some(s.(phase := On, f := s.f.(hook := true))) else None
    case Disable => if s.phase.On? then Some(s.(phase := Draining)) else None
    case MarkTimers =>
      if s.phase.Draining? then Some(s.(phase := Marked, f := s.f.(ety := TimersStopped(s.f.ety)))) else None
    case Cleanup =>
      if s.phase.Marked? then
        Some(s.(phase := Drained, f := RestoreLro(EndBelow(s.f, MAX_NUM)),
                holders := s.holders + HoldersBelow(s.f.ety, MAX_NUM)))
      else None
    case ClearHook => if s.phase.Drained? then Some(s.(phase := Off, f := s.f.(hook := false))) else None
    case Add(local, remote, sk, now, agg) =>
      if s.phase.On? then
        Some(s.(f := AddEntry(s.f, local, remote, sk, now, agg),
                socks := if AddSlot(s.f, local, remote).Some? then Take(s.socks, Some(sk)) else s.socks))
      else None
    case Rcv(local, remote, seen, hash, rateReached, hw) =>
      var found := Find(s.f.ety, local, remote, 0);
      if !s.phase.On? then None
      else if found.None? then Some(s)
      else Some(DoRcv(s, found.value, seen, hash, rateReached, hw))
    case Xmit(local, remote, seen, now) =>
      var found := Find(s.f.ety, local, remote, 0);
      if !s.phase.On? then None
      else if found.None? then Some(s)
      else
        var o := s.f.ety[found.value].txDst;
        var s' := s.(f := Transmit(s.f, found.value, seen, now));
        if Swaps(o, seen) then Some(s'.(dsts := Take(s.dsts, seen), holders := s.holders + [Holder(None, o, None)]))
        else Some(s')
    case Pingpong(local, remote) =>
      var found := Find(s.f.ety, local, remote, 0);
      if found.Some? && s.f.ety[found.value].txDst.Some? then
        var dst := s.f.ety[found.value].txDst;
        Some(s.(dsts := Take(s.dsts, dst), holders := s.holders + [Holder(None, dst, None)],
                fault := s.fault || !CanDrop(s.dsts, dst)))
      else Some(s)
    case Timeout(k, now) =>
      if k >= MAX_NUM then None
      else if s.f.ety[k].valid && !(now < s.f.ety[k].lastTx + EXPIRE_TIME) then
        Some(s.(f := Expire(s.f, k), holders := s.holders + [HolderOf(s.f.ety[k])]))
      else Some(s)
    case Release(t) =>
      if t < |s.holders| then
        var h := s.holders[t];
        Some(s.(holders := s.holders[t := DONE],
                socks := Drop(s.socks, h.sk), dsts := Drop(Drop(s.dsts, h.tx), h.rx),
                fault := s.fault || !CanDrop(s.socks, h.sk) || !CanDrop(s.dsts, h.tx) || !CanDrop(Drop(s.dsts, h.tx), h.rx)))
      else None
    case OtherWrite(reg) => Some(s.(f := s.f.(reg := reg), others := reg))
    case Device(up) => Some(s.(f := s.f.(ready := up)))
  }

  function SessionSk(e: Session): Option<nat> { e.sk }
  function SessionTx(e: Session): Option<nat> { e.txDst }
  function SessionRx(e: Session): Option<nat> { e.rxDst }
  function HolderSk(h: Holder): Option<nat> { h.sk }
  function HolderTx(h: Holder): Option<nat> { h.tx }
  function HolderRx(h: Holder): Option<nat> { h.rx }

  ghost predicate SocksOk(socks: multiset<nat>, ety: seq<Session>, holders: seq<Holder>) {
    forall v: nat :: socks[v] == Refs(ety, SessionSk, v) + Refs(holders, HolderSk, v)
  }

  ghost predicate DstsOk(dsts: multiset<nat>, ety: seq<Session>, holders: seq<Holder>) {
    forall v: nat :: dsts[v] == Refs(ety, SessionTx, v) + Refs(ety, SessionRx, v)
                                + Refs(holders, HolderTx, v) + Refs(holders, HolderRx, v)
  }

  ghost predicate PhaseOk(s: Sys) {
    && (!s.phase.Off? ==> s.f.hook)
    && (s.phase.Off? || s.phase.Drained? ==> !AnyValid(s.f.ety))
  }

  ghost predicate Inv(s: Sys) {
    && Core(s.f) && !s.fault
    && SocksOk(s.socks, s.f.ety, s.holders) && DstsOk(s.dsts, s.f.ety, s.holders)
    && PhaseOk(s)
  }

  lemma InitInv(reg: Lro, ready: bool)
    ensures Inv(Init(reg, ready))
  {
    var s := Init(reg, ready);
    forall v: nat
      ensures Refs(s.f.ety, SessionSk, v) == Refs(s.f.ety, SessionTx, v) == Refs(s.f.ety, SessionRx, v) == 0
    {
      RefsNone(s.f.ety, SessionSk, v);
      RefsNone(s.f.ety, SessionTx, v);
      RefsNone(s.f.ety, SessionRx, v);
    }
  }

  lemma SessionSet(ety: seq<Session>, k: nat, e: Session)
    requires k < |ety|
    ensures forall v: nat {:trigger Refs(ety[k := e], SessionSk, v)} ::
              Refs(ety[k := e], SessionSk, v) + (if ety[k].sk == Some(v) then 1 else 0)
              == Refs(ety, SessionSk, v) + if e.sk == Some(v) then 1 else 0
    ensures forall v: nat {:trigger Refs(ety[k := e], SessionTx, v)} ::
              Refs(ety[k := e], SessionTx, v) + (if ety[k].txDst == Some(v) then 1 else 0)
              == Refs(ety, SessionTx, v) + if e.txDst == Some(v) then 1 else 0
    ensures forall v: nat {:trigger Refs(ety[k := e], SessionRx, v)} ::
              Refs(ety[k := e], SessionRx, v) + (if ety[k].rxDst == Some(v) then 1 else 0)
              == Refs(ety, SessionRx, v) + if e.rxDst == Some(v) then 1 else 0
  {
    RefsUpdateAll(ety, k, e, SessionSk);
    RefsUpdateAll(ety, k, e, SessionTx);
    RefsUpdateAll(ety, k, e, SessionRx);
  }

  // ---------------------------------------------------------------- steps

  /** Replacing a session by one that holds the same references. */
  lemma SameRefs(s: Sys, k: nat, e: Session)
    requires k < |s.f.ety| && SocksOk(s.socks, s.f.ety, s.holders) && DstsOk(s.dsts, s.f.ety, s.holders)
    requires e.sk == s.f.ety[k].sk && e.txDst == s.f.ety[k].txDst && e.rxDst == s.f.ety[k].rxDst
    ensures SocksOk(s.socks, s.f.ety[k := e], s.holders) && DstsOk(s.dsts, s.f.ety[k := e], s.holders)
  {
    SessionSet(s.f.ety, k, e);
  }

  /** Ending session k moves its references to the context that releases them. */
  lemma EndMovesRefs(socks: multiset<nat>, dsts: multiset<nat>, f: Ifc, holders: seq<Holder>, k: nat, ta: bool, sc: bool)
    requires Shape(f) && k < MAX_NUM && f.ety[k].valid
    requires SocksOk(socks, f.ety, holders) && DstsOk(dsts, f.ety, holders)
    ensures var g, h := EndSession(f, k, ta, sc), holders + [HolderOf(f.ety[k])];
            SocksOk(socks, g.ety, h) && DstsOk(dsts, g.ety, h)
  {
    var g := EndSession(f, k, ta, sc);
    assert g.ety == f.ety[k := g.ety[k]];
    SessionSet(f.ety, k, g.ety[k]);
    hide ReleaseRing;
  }

  lemma AddKeepsInv(s: Sys, local: nat, remote: nat, sk: nat, now: nat, agg: nat)
    requires Inv(s) && s.phase.On?
    ensures Inv(Next(s, Add(local, remote, sk, now, agg)).value)
  {
    AddEntryKeepsCore(s.f, local, remote, sk, now, agg);
    var slot := AddSlot(s.f, local, remote);
    if slot.Some? {
      var k := slot.value;
      assert SessionOk(s.f.ety[k]);
      SessionSet(s.f.ety, k, NewSession(s.f.ety[k], local, remote, sk, now));
      assert AddEntry(s.f, local, remote, sk, now, agg).ety[k].valid;
    }
    hide Core, Find, FirstInvalid;
  }

  lemma RcvMovesRefs(s: Sys, k: nat, seen: Option<nat>, hash: nat)
    requires Inv(s) && k < MAX_NUM && s.f.ety[k].valid
    ensures var o, e := s.f.ety[k].rxDst, Received(s.f.ety[k], seen, hash);
            var dsts, holders := if Swaps(o, seen) then Take(s.dsts, seen) else s.dsts,
                                 if Swaps(o, seen) then s.holders + [Holder(None, None, o)] else s.holders;
            SocksOk(s.socks, s.f.ety[k := e], holders) && DstsOk(dsts, s.f.ety[k := e], holders)
  {
    SessionSet(s.f.ety, k, Received(s.f.ety[k], seen, hash));
    hide Core;
  }

  lemma AddIfcTouchesRules(f: Ifc, k: nat, hw: Hw)
    requires Shape(f) && k < MAX_NUM
    ensures var g := AddIfc(f, k, hw);
            && g.ety == f.ety[k := g.ety[k]]
            && g.ety[k].sk == f.ety[k].sk && g.ety[k].txDst == f.ety[k].txDst && g.ety[k].rxDst == f.ety[k].rxDst
            && g.ety[k].valid == f.ety[k].valid
            && g.reg == f.reg && g.saved == f.saved && g.orig == f.orig && g.hook == f.hook && g.ready == f.ready
  {
    hide GetRing, ReleaseRing;
  }

  /** What receiving leaves alone. */
  lemma ReceiveTouches(f: Ifc, k: nat, seen: Option<nat>, hash: nat, rateReached: bool, hw: Hw)
    requires Shape(f) && k < MAX_NUM
    ensures var g, e := Receive(f, k, seen, hash, rateReached, hw), Received(f.ety[k], seen, hash);
            && Shape(g) && g.ety == f.ety[k := e][k := g.ety[k]]
            && g.ety[k].sk == e.sk && g.ety[k].txDst == e.txDst && g.ety[k].rxDst == e.rxDst
            && g.ety[k].valid == e.valid
            && g.reg == f.reg && g.saved == f.saved && g.orig == f.orig && g.hook == f.hook && g.ready == f.ready
  {
    var e := Received(f.ety[k], seen, hash);
    var e' := e.(skipCopy := e.skipCopy || e.sk.Some?);
    AddIfcTouchesRules(f.(ety := f.ety[k := e']), k, hw);
    hide AddIfc, Received;
    var x := Receive(f, k, seen, hash, rateReached, hw).ety[k];
    assert f.ety[k := e'][k := x] == f.ety[k := e][k := x];
  }

  lemma RcvKeepsInv(s: Sys, k: nat, seen: Option<nat>, hash: nat, rateReached: bool, hw: Hw)
    requires Inv(s) && s.phase.On? && k < MAX_NUM && s.f.ety[k].valid
    ensures Inv(DoRcv(s, k, seen, hash, rateReached, hw))
  {
    var e := Received(s.f.ety[k], seen, hash);
    ReceiveKeepsCore(s.f, k, seen, hash, rateReached, hw);
    RcvMovesRefs(s, k, seen, hash);
    ReceiveTouches(s.f, k, seen, hash, rateReached, hw);
    var g := Receive(s.f, k, seen, hash, rateReached, hw);
    var t := DoRcv(s, k, seen, hash, rateReached, hw);
    hide Core, Receive, Received, SocksOk, DstsOk, AnyValid;
    SameRefs(t.(f := t.f.(ety := s.f.ety[k := e])), k, g.ety[k]);
  }

  lemma XmitKeepsInv(s: Sys, local: nat, remote: nat, seen: Option<nat>, now: nat)
    requires Inv(s) && s.phase.On?
    ensures Inv(Next(s, Xmit(local, remote, seen, now)).value)
  {
    var found := Find(s.f.ety, local, remote, 0);
    if found.Some? {
      var k := found.value;
      TransmitKeepsCore(s.f, k, seen, now);
      var e := Transmit(s.f, k, seen, now).ety[k];
      XmitMovesRefs(s, k, seen, now);
      hide Core, Find, SocksOk, DstsOk, AnyValid;
    }
  }

  lemma XmitMovesRefs(s: Sys, k: nat, seen: Option<nat>, now: nat)
    requires Inv(s) && k < MAX_NUM && s.f.ety[k].valid
    ensures var o, e := s.f.ety[k].txDst, Transmit(s.f, k, seen, now).ety[k];
            var dsts, holders := if Swaps(o, seen) then Take(s.dsts, seen) else s.dsts,
                                 if Swaps(o, seen) then s.holders + [Holder(None, o, None)] else s.holders;
            SocksOk(s.socks, s.f.ety[k := e], holders) && DstsOk(dsts, s.f.ety[k := e], holders)
  {
    SessionSet(s.f.ety, k, Transmit(s.f, k, seen, now).ety[k]);
    hide Core;
  }

  lemma PingpongKeepsInv(s: Sys, local: nat, remote: nat)
    requires Inv(s)
    ensures Inv(Next(s, Pingpong(local, remote)).value)
  {
    var found := Find(s.f.ety, local, remote, 0);
    if found.Some? && s.f.ety[found.value].txDst.Some? {
      var dst := s.f.ety[found.value].txDst;
      RefsPositive(s.f.ety, found.value, SessionTx, dst.value);
      hide Core, Find;
    }
  }

  lemma TimeoutKeepsInv(s: Sys, k: nat, now: nat)
    requires Inv(s) && k < MAX_NUM
    ensures Inv(Next(s, Timeout(k, now)).value)
  {
    if s.f.ety[k].valid && !(now < s.f.ety[k].lastTx + EXPIRE_TIME) {
      EndKeepsCore(s.f, k, false, s.f.ety[k].skipCopy);
      EndMovesRefs(s.socks, s.dsts, s.f, s.holders, k, false, s.f.ety[k].skipCopy);
      var g := EndSession(s.f, k, false, s.f.ety[k].skipCopy);
      assert AnyValid(s.f.ety);
      assert g.reg == s.f.reg && g.saved == s.f.saved && g.orig == s.f.orig && g.hook == s.f.hook && g.ready == s.f.ready;
      assert Core(RestoreLro(g));
      hide Core, EndSession, AnyValid, SocksOk, DstsOk;
    }
  }

  lemma ReleaseKeepsInv(s: Sys, t: nat)
    requires Inv(s) && t < |s.holders|
    ensures Inv(Next(s, Release(t)).value)
  {
    assert Shape(s.f);
    ReleaseSock(s, t);
    ReleaseDsts(s, t);
    hide Core, SocksOk, DstsOk;
  }

  lemma ReleaseSock(s: Sys, t: nat)
    requires Inv(s) && t < |s.holders|
    ensures var sk := s.holders[t].sk;
            CanDrop(s.socks, sk) && SocksOk(Drop(s.socks, sk), s.f.ety, s.holders[t := DONE])
  {
    hide Core, DstsOk;
    var sk := s.holders[t].sk;
    if sk.Some? { RefsPositive(s.holders, t, HolderSk, sk.value); }
    hide Drop;
    RefsUpdateAll(s.holders, t, DONE, HolderSk);
  }

  /** Both routes of a holder are out, also when they are the same route. */
  lemma BothRoutesOut(s: Sys, t: nat)
    requires Inv(s) && t < |s.holders|
    ensures var h := s.holders[t]; CanDrop(s.dsts, h.tx) && CanDrop(Drop(s.dsts, h.tx), h.rx)
  {
    hide Core, SocksOk;
    var h := s.holders[t];
    if h.tx.Some? { RefsPositive(s.holders, t, HolderTx, h.tx.value); }
    if h.rx.Some? {
      RefsPositive(s.holders, t, HolderRx, h.rx.value);
      hide Drop;
    }
  }

  lemma ReleaseDsts(s: Sys, t: nat)
    requires Inv(s) && t < |s.holders|
    ensures var h := s.holders[t];
            && CanDrop(s.dsts, h.tx) && CanDrop(Drop(s.dsts, h.tx), h.rx)
            && DstsOk(Drop(Drop(s.dsts, h.tx), h.rx), s.f.ety, s.holders[t := DONE])
  {
    BothRoutesOut(s, t);
    hide Core, SocksOk, Drop, CanDrop;
    var h := s.holders[t];
    RefsUpdateAll(s.holders, t, DONE, HolderTx);
    RefsUpdateAll(s.holders, t, DONE, HolderRx);
  }

  lemma StoppedRefs(a: seq<Session>, v: nat)
    ensures Refs(TimersStopped(a), SessionSk, v) == Refs(a, SessionSk, v)
    ensures Refs(TimersStopped(a), SessionTx, v) == Refs(a, SessionTx, v)
    ensures Refs(TimersStopped(a), SessionRx, v) == Refs(a, SessionRx, v)
    decreases |a|
  {
    if |a| > 0 {
      StoppedRefs(a[..|a| - 1], v);
      assert TimersStopped(a)[..|a| - 1] == TimersStopped(a[..|a| - 1]);
    }
  }

  lemma StoppedKeepsCore(f: Ifc)
    requires Core(f)
    ensures Core(f.(ety := TimersStopped(f.ety)))
    ensures AnyValid(TimersStopped(f.ety)) == AnyValid(f.ety)
  {
    var ety := TimersStopped(f.ety);
    forall i | 0 <= i < MAX_NUM
      ensures SessionOk(ety[i]) && ety[i].valid == f.ety[i].valid && LiveRule(ety[i]) == LiveRule(f.ety[i])
      ensures RuleOf(ety[i]) == RuleOf(f.ety[i]) && ety[i].ringId == f.ety[i].ringId && ety[i].ifcValid == f.ety[i].ifcValid
    {
      assert SessionOk(f.ety[i]);
    }
    forall i | 0 <= i < RING_NUM
      ensures RingOwned(ety, f.ring, i)
    {
      assert RingOwned(f.ety, f.ring, i);
    }
    forall r
      ensures HasRule(ety, r) == HasRule(f.ety, r)
    {
      if i :| 0 <= i < MAX_NUM && LiveRule(f.ety[i]) && RuleOf(f.ety[i]) == r {
        assert LiveRule(ety[i]) && RuleOf(ety[i]) == r;
      }
    }
    if i :| 0 <= i < MAX_NUM && f.ety[i].valid { assert ety[i].valid; }
  }

  lemma MarkKeepsInv(s: Sys)
    requires Inv(s) && s.phase.Draining?
    ensures Inv(Next(s, MarkTimers).value)
  {
    StoppedKeepsCore(s.f);
    forall v: nat
      ensures Refs(TimersStopped(s.f.ety), SessionSk, v) == Refs(s.f.ety, SessionSk, v)
      ensures Refs(TimersStopped(s.f.ety), SessionTx, v) == Refs(s.f.ety, SessionTx, v)
      ensures Refs(TimersStopped(s.f.ety), SessionRx, v) == Refs(s.f.ety, SessionRx, v)
    {
      StoppedRefs(s.f.ety, v);
    }
    hide Core, TimersStopped, AnyValid;
  }

  /** Cleanup, slot by slot: what is left of the table and where the references went. */
  lemma {:induction false} EndBelowKeeps(s: Sys, n: nat)
    requires Inv(s) && n <= MAX_NUM
    ensures var g := EndBelow(s.f, n);
            && Core(g)
            && (forall i :: 0 <= i < n ==> !g.ety[i].valid)
            && (forall i :: n <= i < MAX_NUM ==> g.ety[i] == s.f.ety[i])
            && SocksOk(s.socks, g.ety, s.holders + HoldersBelow(s.f.ety, n))
            && DstsOk(s.dsts, g.ety, s.holders + HoldersBelow(s.f.ety, n))
            && g.reg == s.f.reg && g.saved == s.f.saved && g.orig == s.f.orig && g.ready == s.f.ready && g.hook == s.f.hook
    decreases n
  {
    assert Shape(s.f);
    hide Core, SocksOk, DstsOk, EndSession, AnyValid;
    if n == 0 {
      assert s.holders + HoldersBelow(s.f.ety, 0) == s.holders;
    } else {
      hide Inv;
      EndBelowKeeps(s, n - 1);
      var g, holders := EndBelow(s.f, n - 1), s.holders + HoldersBelow(s.f.ety, n - 1);
      var h := HolderOf(s.f.ety[n - 1]);
      assert s.holders + HoldersBelow(s.f.ety, n) == holders + [h];
      if g.ety[n - 1].valid {
        EndKeepsCore(g, n - 1, g.ety[n - 1].timerActive, false);
        EndMovesRefs(s.socks, s.dsts, g, holders, n - 1, g.ety[n - 1].timerActive, false);
      } else {
        NothingToHold(s.socks, s.dsts, g, holders, n - 1);
      }
    }
  }

  /** A slot without a session holds no reference. */
  lemma NothingToHold(socks: multiset<nat>, dsts: multiset<nat>, f: Ifc, holders: seq<Holder>, k: nat)
    requires Core(f) && k < MAX_NUM && !f.ety[k].valid && SocksOk(socks, f.ety, holders) && DstsOk(dsts, f.ety, holders)
    ensures HolderOf(f.ety[k]) == DONE && SocksOk(socks, f.ety, holders + [DONE]) && DstsOk(dsts, f.ety, holders + [DONE])
  {
    assert SessionOk(f.ety[k]);
    RefsAppendAll(holders, DONE, HolderSk);
    RefsAppendAll(holders, DONE, HolderTx);
    RefsAppendAll(holders, DONE, HolderRx);
    hide Core;
  }

  lemma CleanupKeepsInv(s: Sys)
    requires Inv(s) && s.phase.Marked?
    ensures Inv(Next(s, Cleanup).value)
    ensures !AnyValid(Next(s, Cleanup).value.f.ety)
  {
    EndBelowKeeps(s, MAX_NUM);
    hide EndBelow, SocksOk, DstsOk, HoldersBelow;
    assert Core(RestoreLro(EndBelow(s.f, MAX_NUM)));
    hide Core;
  }

  lemma StepKeepsInv(s: Sys, step: Step)
    requires Inv(s) && Next(s, step).Some?
    ensures Inv(Next(s, step).value)
  {
    hide Inv, DoRcv;
    match step {
      case Add(local, remote, sk, now, agg) => AddKeepsInv(s, local, remote, sk, now, agg);
      case Rcv(local, remote, seen, hash, rateReached, hw) =>
        var found := Find(s.f.ety, local, remote, 0);
        if found.Some? { RcvKeepsInv(s, found.value, seen, hash, rateReached, hw); }
      case Xmit(local, remote, seen, now) => XmitKeepsInv(s, local, remote, seen, now);
      case Pingpong(local, remote) => PingpongKeepsInv(s, local, remote);
      case Timeout(k, now) => TimeoutKeepsInv(s, k, now);
      case Release(t) => ReleaseKeepsInv(s, t);
      case MarkTimers => MarkKeepsInv(s);
      case Cleanup => CleanupKeepsInv(s);
      case _ => PhaseStepKeepsInv(s, step);
    }
  }

  lemma PhaseStepKeepsInv(s: Sys, step: Step)
    requires Inv(s) && Next(s, step).Some?
    requires step.Enable? || step.Disable? || step.ClearHook? || step.OtherWrite? || step.Device?
    ensures Inv(Next(s, step).value)
  {
    hide SocksOk, DstsOk;
  }

  // ---------------------------------------------------------------- every run

  function Then(s: Option<Sys>, step: Step): Option<Sys> {
    if s.Some? then Next(s.value, step) else None
  }

  function Run(reg: Lro, ready: bool, steps: seq<Step>): Option<Sys> {
    if |steps| == 0 then Some(Init(reg, ready))
    else Then(Run(reg, ready, steps[..|steps| - 1]), steps[|steps| - 1])
  }

  lemma {:induction false} RunKeepsInv(reg: Lro, ready: bool, steps: seq<Step>)
    requires Run(reg, ready, steps).Some?
    ensures Inv(Run(reg, ready, steps).value)
    decreases |steps|
  {
    hide Inv;
    if |steps| == 0 {
      InitInv(reg, ready);
    } else {
      RunKeepsInv(reg, ready, steps[..|steps| - 1]);
      StepKeepsInv(Run(reg, ready, steps[..|steps| - 1]).value, steps[|steps| - 1]);
      hide Next;
    }
  }

  /**
   In every run no dedicated LRO ring has two owners: reservation i holds k exactly when session k is
   live with a live rule on ring 12 + i.
   */
  lemma RingsAreExclusive(reg: Lro, ready: bool, steps: seq<Step>)
    requires Run(reg, ready, steps).Some?
    ensures var f := Run(reg, ready, steps).value.f;
            && Shape(f)
            && (forall i, k :: 0 <= i < RING_NUM && 0 <= k < MAX_NUM ==> Owns(f, i, k))
            && (forall i, j :: 0 <= i < j < RING_NUM && f.ring[i] != SLOT_FREE ==> f.ring[i] != f.ring[j])
            && (forall i :: 0 <= i < RING_NUM && f.ring[i] != SLOT_FREE ==> 0 <= f.ring[i] < MAX_NUM)
  {
    RunKeepsInv(reg, ready, steps);
    var f := Run(reg, ready, steps).value.f;
    assert Core(f);
    hide *;
    forall i, k | 0 <= i < RING_NUM && 0 <= k < MAX_NUM
      ensures Owns(f, i, k)
    {
      OwnsAt(f, i, k);
    }
    forall i, j | 0 <= i < j < RING_NUM && f.ring[i] != SLOT_FREE
      ensures f.ring[i] != f.ring[j]
    {
      OwnersDiffer(f, i, j);
    }
    forall i | 0 <= i < RING_NUM && f.ring[i] != SLOT_FREE
      ensures 0 <= f.ring[i] < MAX_NUM
    {
      OwnersDiffer(f, i, i);
    }
  }

  lemma OwnersDiffer(f: Ifc, i: nat, j: nat)
    requires Core(f) && i < |f.ring| && j < |f.ring| && f.ring[i] != SLOT_FREE
    ensures 0 <= f.ring[i] < MAX_NUM
    ensures i != j ==> f.ring[i] != f.ring[j]
  {
    hide Unique, RulesOk, SessionsOk;
    assert RingOwned(f.ety, f.ring, i);
    assert RingOwned(f.ety, f.ring, j);
  }

  lemma OwnsAt(f: Ifc, i: nat, k: nat)
    requires Core(f) && i < RING_NUM && k < MAX_NUM
    ensures Owns(f, i, k)
  {
    hide Unique, RulesOk;
    assert SessionOk(f.ety[k]);
    assert RingOwned(f.ety, f.ring, i);
    if f.ety[k].ifcValid && f.ety[k].ringId == RING_START + i {
      assert f.ring[f.ety[k].ringId - RING_START] == k;
    }
  }

  /** Reservation i names k exactly when k is live with a live rule on that ring. */
  predicate Owns(f: Ifc, i: nat, k: nat)
    requires Shape(f) && i < RING_NUM && k < MAX_NUM
  {
    f.ring[i] == k <==> f.ety[k].valid && f.ety[k].ifcValid && f.ety[k].ringId == RING_START + i
  }

  /** In every run the hardware rules are exactly the port pairs of sessions with a live rule, one each. */
  lemma HardwareMatchesSessions(reg: Lro, ready: bool, steps: seq<Step>)
    requires Run(reg, ready, steps).Some?
    ensures var f := Run(reg, ready, steps).value.f;
            && (forall r :: r in f.rules <==> exists k :: 0 <= k < |f.ety| && f.ety[k].valid && f.ety[k].ifcValid && RuleOf(f.ety[k]) == r)
            && (forall i, j :: 0 <= i < j < |f.ety| && f.ety[i].valid && f.ety[j].valid ==> RuleOf(f.ety[i]) != RuleOf(f.ety[j]))
  {
    RunKeepsInv(reg, ready, steps);
    var f := Run(reg, ready, steps).value.f;
    hide Run, SocksOk, DstsOk, RingsOk;
    forall r
      ensures r in f.rules <==> exists k :: 0 <= k < |f.ety| && f.ety[k].valid && f.ety[k].ifcValid && RuleOf(f.ety[k]) == r
    {
      assert r in f.rules <==> HasRule(f.ety, r);
      if HasRule(f.ety, r) {
        var k :| 0 <= k < |f.ety| && LiveRule(f.ety[k]) && RuleOf(f.ety[k]) == r;
        assert f.ety[k].valid && f.ety[k].ifcValid;
      }
      if k :| 0 <= k < |f.ety| && f.ety[k].valid && f.ety[k].ifcValid && RuleOf(f.ety[k]) == r {
        assert LiveRule(f.ety[k]);
      }
    }
  }

  /** In every run the references out on v are those of live sessions' fields and of pending releases. */
  lemma ReferencesAreAccountedFor(reg: Lro, ready: bool, steps: seq<Step>, v: nat)
    requires Run(reg, ready, steps).Some?
    ensures var s := Run(reg, ready, steps).value;
            && !s.fault
            && s.socks[v] == Refs(s.f.ety, SessionSk, v) + Refs(s.holders, HolderSk, v)
            && s.dsts[v] == Refs(s.f.ety, SessionTx, v) + Refs(s.f.ety, SessionRx, v)
                            + Refs(s.holders, HolderTx, v) + Refs(s.holders, HolderRx, v)
            && forall k :: 0 <= k < |s.f.ety| && !s.f.ety[k].valid ==>
                 s.f.ety[k].sk.None? && s.f.ety[k].txDst.None? && s.f.ety[k].rxDst.None?
  {
    RunKeepsInv(reg, ready, steps);
    var s := Run(reg, ready, steps).value;
    hide Run, RingsOk, Unique, RulesOk;
    assert forall k :: 0 <= k < MAX_NUM ==> SessionOk(s.f.ety[k]);
  }

  // ---------------------------------------------------------------- the LRO register

  predicate SameLro(f: Ifc, g: Ifc) { g.reg == f.reg && g.saved == f.saved && g.orig == f.orig && g.ready == f.ready }

  lemma AnyValidSet(ety: seq<Session>, k: nat, e: Session)
    requires k < |ety| && e.valid == ety[k].valid
    ensures AnyValid(ety[k := e]) == AnyValid(ety)
  {
    var ety' := ety[k := e];
    if i :| 0 <= i < |ety| && ety[i].valid { assert ety'[i].valid; }
    if i :| 0 <= i < |ety'| && ety'[i].valid { assert ety[i].valid; }
  }

  /** A packet changes neither the register nor which sessions are live. */
  lemma PacketKeepsLro(s: Sys, step: Step)
    requires Inv(s) && Next(s, step).Some? && (step.Rcv? || step.Xmit? || step.Pingpong?)
    ensures var t := Next(s, step).value;
            t.others == s.others && AnyValid(t.f.ety) == AnyValid(s.f.ety) && SameLro(s.f, t.f)
  {
    var found := Find(s.f.ety, step.local, step.remote, 0);
    hide Inv, Core, Find, AnyValid, Receive, Received;
    if found.Some? && step.Rcv? {
      var k, e := found.value, Received(s.f.ety[found.value], step.seen, step.hash);
      ReceiveTouches(s.f, k, step.seen, step.hash, step.rateReached, step.hw);
      var g := Receive(s.f, k, step.seen, step.hash, step.rateReached, step.hw);
      ReceivedValid(s.f.ety[k], step.seen, step.hash);
      AnyValidSet(s.f.ety, k, e);
      AnyValidSet(s.f.ety[k := e], k, g.ety[k]);
    } else if found.Some? && step.Xmit? {
      AnyValidSet(s.f.ety, found.value, Transmit(s.f, found.value, step.seen, step.now).ety[found.value]);
    }
  }

  lemma ReceivedValid(e: Session, seen: Option<nat>, hash: nat)
    ensures Received(e, seen, hash).valid == e.valid
  {
  }

  /** Ending sessions restores the register with the last one, and not before. */
  lemma EndStepLro(s: Sys, step: Step)
    requires Inv(s) && Next(s, step).Some? && (step.Timeout? || step.Cleanup?)
    ensures var f, t := s.f, Next(s, step).value;
            var live, live' := AnyValid(f.ety), AnyValid(t.f.ety);
            && t.others == s.others
            && (step.Cleanup? ==> !live' && SameLro(RestoreLro(f), t.f))
            && (step.Timeout? ==> if live && !live' then SameLro(RestoreLro(f), t.f) else live' == live && SameLro(f, t.f))
  {
    if step.Cleanup? {
      EndBelowKeeps(s, MAX_NUM);
      hide EndBelow, SocksOk, DstsOk, HoldersBelow, Core;
    } else if s.f.ety[step.k].valid && !(step.now < s.f.ety[step.k].lastTx + EXPIRE_TIME) {
      EndKeepsCore(s.f, step.k, false, s.f.ety[step.k].skipCopy);
      assert AnyValid(s.f.ety);
      hide Core, EndSession, SocksOk, DstsOk;
    }
  }

  lemma AddStepLro(s: Sys, step: Step)
    requires Inv(s) && Next(s, step).Some? && step.Add?
    ensures var f, t := s.f, Next(s, step).value;
            && t.others == s.others
            && if AddSlot(f, step.local, step.remote).Some? then AnyValid(t.f.ety) && SameLro(SaveLro(f, step.agg), t.f)
               else t.f == f
  {
    hide Core, SocksOk, DstsOk, Find, FirstInvalid;
    var slot := AddSlot(s.f, step.local, step.remote);
    if slot.Some? { assert Next(s, step).value.f.ety[slot.value].valid; }
  }

  lemma OtherStepLro(s: Sys, step: Step)
    requires Inv(s) && Next(s, step).Some?
    requires step.Enable? || step.Disable? || step.MarkTimers? || step.ClearHook? || step.Release?
    ensures var t := Next(s, step).value;
            t.others == s.others && AnyValid(t.f.ety) == AnyValid(s.f.ety) && SameLro(s.f, t.f)
  {
    if step.MarkTimers? { StoppedKeepsCore(s.f); }
    hide Core, SocksOk, DstsOk, AnyValid, TimersStopped;
  }

  /**
   The register bracket: untouched by this module it holds what other writers last put there; else that value is
   remembered. It is touched while a session is live, if the device could be reached, and only then.
   */
  ghost predicate RegisterOk(s: Sys) {
    && (if s.f.saved then s.f.orig == s.others else s.f.reg == s.others)
    && (s.f.saved ==> AnyValid(s.f.ety))
    && (s.f.ready && AnyValid(s.f.ety) ==> s.f.saved)
  }

  /**
   Another writer changes the field while this module has its old value saved, the last session ends while the
   device cannot be reached, or the device comes up under a session added without it.
   */
  ghost predicate Disturbs(s: Sys, step: Step)
    requires Next(s, step).Some?
  {
    || (step.OtherWrite? && s.f.saved && step.reg != s.f.orig)
    || (s.f.saved && !s.f.ready && AnyValid(s.f.ety) && !AnyValid(Next(s, step).value.f.ety))
    || (step.Device? && step.up && AnyValid(s.f.ety) && !s.f.saved)
  }

  lemma StepKeepsRegister(s: Sys, step: Step)
    requires Inv(s) && RegisterOk(s) && Next(s, step).Some?
    ensures RegisterOk(Next(s, step).value) <==> !Disturbs(s, step)
  {
    if step.Add? {
      AddStepLro(s, step);
    } else if step.Timeout? || step.Cleanup? {
      EndStepLro(s, step);
    } else if step.Rcv? || step.Xmit? || step.Pingpong? {
      PacketKeepsLro(s, step);
    } else if step.OtherWrite? || step.Device? {
      DeviceStep(s, step);
    } else {
      OtherStepLro(s, step);
    }
    hide Next, Inv, AnyValid;
  }

  lemma DeviceStep(s: Sys, step: Step)
    requires Inv(s) && (step.OtherWrite? || step.Device?)
    ensures Next(s, step) == Some(if step.Device? then s.(f := s.f.(ready := step.up))
                                  else s.(f := s.f.(reg := step.reg), others := step.reg))
  {
  }

  /** No step of the run is such. */
  ghost predicate Undisturbed(reg: Lro, ready: bool, steps: seq<Step>) {
    forall n :: 0 <= n < |steps| ==>
      var before := Run(reg, ready, steps[..n]);
      before.Some? && Next(before.value, steps[n]).Some? ==> !Disturbs(before.value, steps[n])
  }

  /** The bracket holds all along a run exactly when none of its steps is such. */
  lemma {:induction false} RegisterStaysOk(reg: Lro, ready: bool, steps: seq<Step>)
    requires Run(reg, ready, steps).Some?
    ensures forall n :: 0 <= n <= |steps| ==> Run(reg, ready, steps[..n]).Some?
    ensures (forall n :: 0 <= n <= |steps| ==> RegisterOk(Run(reg, ready, steps[..n]).value)) <==> Undisturbed(reg, ready, steps)
    decreases |steps|
  {
    hide Next, RegisterOk, Disturbs, Inv, Run;
    var n := |steps|;
    assert steps[..n] == steps;
    RunUnfolds(reg, ready, steps);
    if n == 0 {
      InitRegister(reg, ready);
    } else {
      var init := steps[..n - 1];
      RegisterStaysOk(reg, ready, init);
      forall k | 0 <= k <= n - 1
        ensures init[..k] == steps[..k]
      {
      }
      RunKeepsInv(reg, ready, init);
      if forall k :: 0 <= k <= n - 1 ==> RegisterOk(Run(reg, ready, steps[..k]).value) {
        assert RegisterOk(Run(reg, ready, steps[..n - 1]).value);
        StepKeepsRegister(Run(reg, ready, init).value, steps[n - 1]);
      }
    }
  }

  lemma RunUnfolds(reg: Lro, ready: bool, steps: seq<Step>)
    ensures Run(reg, ready, steps) ==
            if |steps| == 0 then Some(Init(reg, ready)) else Then(Run(reg, ready, steps[..|steps| - 1]), steps[|steps| - 1])
    ensures |steps| > 0 && Run(reg, ready, steps).Some? ==>
              && Run(reg, ready, steps[..|steps| - 1]).Some?
              && Next(Run(reg, ready, steps[..|steps| - 1]).value, steps[|steps| - 1]) == Run(reg, ready, steps)
  {
    hide Next;
  }

  lemma InitRegister(reg: Lro, ready: bool)
    ensures RegisterOk(Init(reg, ready))
  {
  }

  /**
   In every such run, whenever no session is live the register field holds what other writers last put there;
   while one is live that value is remembered, if the device can be reached.
   */
  lemma RegisterIsRestored(reg: Lro, ready: bool, steps: seq<Step>)
    requires Run(reg, ready, steps).Some? && Undisturbed(reg, ready, steps)
    ensures var s := Run(reg, ready, steps).value;
            && (!AnyValid(s.f.ety) ==> s.f.reg == s.others)
            && (AnyValid(s.f.ety) && s.f.ready ==> s.f.saved && s.f.orig == s.others)
            && (!s.f.saved ==> s.f.reg == s.others)
  {
    hide Next, Undisturbed, Run, AnyValid;
    RegisterStaysOk(reg, ready, steps);
    assert steps[..|steps|] == steps;
    assert RegisterOk(Run(reg, ready, steps[..|steps|]).value);
  }

  /** A step that leaves the device as it is, and is no other writer's while a session is live. */
  predicate Steady(s: Sys, step: Step) { !step.Device? && (step.OtherWrite? ==> !AnyValid(s.f.ety)) }

  ghost predicate SteadyRun(reg: Lro, ready: bool, steps: seq<Step>) {
    forall n :: 0 <= n < |steps| ==>
      var before := Run(reg, ready, steps[..n]); before.Some? ==> Steady(before.value, steps[n])
  }

  lemma SteadyStep(s: Sys, step: Step)
    requires Inv(s) && RegisterOk(s) && (s.f.saved ==> s.f.ready) && Next(s, step).Some? && Steady(s, step)
    ensures !Disturbs(s, step)
    ensures var t := Next(s, step).value; t.f.ready == s.f.ready && (t.f.saved ==> t.f.ready)
  {
    if step.Add? {
      AddStepLro(s, step);
    } else if step.Timeout? || step.Cleanup? {
      EndStepLro(s, step);
    } else if step.Rcv? || step.Xmit? || step.Pingpong? {
      PacketKeepsLro(s, step);
    } else if step.OtherWrite? {
      DeviceStep(s, step);
    } else {
      OtherStepLro(s, step);
    }
    hide Next, Inv, AnyValid;
  }

  /** With the device steadily up, or down, and no other writer while a session is live, the register is always restored. */
  lemma {:induction false} SteadyRunsRestore(reg: Lro, ready: bool, steps: seq<Step>)
    requires Run(reg, ready, steps).Some? && SteadyRun(reg, ready, steps)
    ensures var s := Run(reg, ready, steps).value;
            && RegisterOk(s) && s.f.ready == ready && (s.f.saved ==> s.f.ready)
            && (!AnyValid(s.f.ety) ==> s.f.reg == s.others)
            && (AnyValid(s.f.ety) && ready ==> s.f.saved && s.f.orig == s.others)
            && (!ready ==> s.f.reg == s.others)
    decreases |steps|
  {
    hide Next, Disturbs, Inv, Run, AnyValid, Steady;
    RunUnfolds(reg, ready, steps);
    if |steps| == 0 {
      InitRegister(reg, ready);
      InitReady(reg, ready);
    } else {
      var init, n := steps[..|steps| - 1], |steps| - 1;
      forall k | 0 <= k < n
        ensures init[..k] == steps[..k]
      {
      }
      SteadyRunsRestore(reg, ready, init);
      RunKeepsInv(reg, ready, init);
      assert Steady(Run(reg, ready, steps[..n]).value, steps[n]);
      SteadyStep(Run(reg, ready, init).value, steps[n]);
      StepKeepsRegister(Run(reg, ready, init).value, steps[n]);
    }
  }

  lemma InitReady(reg: Lro, ready: bool)
    ensures Init(reg, ready).f.ready == ready && !Init(reg, ready).f.saved
  {
  }

  // ---------------------------------------------------------------- a run that restores a stale value

  datatype Bracket = Bracket(reg: Lro, saved: bool, orig: Lro, ready: bool)

  /** Slot 0 is the only one in use, by a session on ports 1 and 2 added at `at` when live. */
  ghost predicate Single(o: Option<Sys>, live: bool, at: nat, lro: Bracket, others: Lro) {
    && o.Some? && Inv(o.value) && o.value.phase.On? && o.value.others == others
    && (forall i :: 1 <= i < MAX_NUM ==> !o.value.f.ety[i].valid)
    && o.value.f.ety[0].valid == live && (live ==> RuleOf(o.value.f.ety[0]) == (1, 2) && o.value.f.ety[0].lastTx == at)
    && Bracket(o.value.f.reg, o.value.f.saved, o.value.f.orig, o.value.f.ready) == lro
  }

  lemma SingleAdd(o: Option<Sys>, lro: Bracket, others: Lro, now: nat)
    requires Single(o, false, 0, lro, others)
    ensures Single(Then(o, Add(1, 2, 7, now, 10)), true, now,
                   if lro.saved || !lro.ready then lro else Bracket(Lro(10, 10), true, lro.reg, lro.ready), others)
  {
    StepKeepsInv(o.value, Add(1, 2, 7, now, 10));
    hide Core, SocksOk, DstsOk;
    assert Find(o.value.f.ety, 1, 2, 0).None?;
    assert FirstInvalid(o.value.f.ety, 0) == Some(0);
    hide Find, FirstInvalid;
  }

  lemma SingleEnd(o: Option<Sys>, lro: Bracket, others: Lro, at: nat)
    requires Single(o, true, at, lro, others)
    ensures Single(Then(o, Timeout(0, at + EXPIRE_TIME)), false, 0,
                   if lro.saved && lro.ready then Bracket(lro.orig, false, lro.orig, lro.ready) else lro, others)
  {
    var s := o.value;
    StepKeepsInv(s, Timeout(0, at + EXPIRE_TIME));
    EndKeepsCore(s.f, 0, false, s.f.ety[0].skipCopy);
    hide Core, SocksOk, DstsOk, EndSession;
  }

  lemma SingleOther(o: Option<Sys>, live: bool, lro: Bracket, others: Lro, reg: Lro, up: bool)
    requires Single(o, live, 0, lro, others)
    ensures Single(Then(o, OtherWrite(reg)), live, 0, lro.(reg := reg), reg)
    ensures Single(Then(o, Device(up)), live, 0, lro.(ready := up), others)
  {
    StepKeepsInv(o.value, OtherWrite(reg));
    StepKeepsInv(o.value, Device(up));
    hide Core, SocksOk, DstsOk;
  }

  lemma SingleEnable(reg: Lro)
    ensures Single(Run(reg, true, [Enable]), false, 0, Bracket(reg, false, Lro(0, 0), true), reg)
  {
    RunUnfolds(reg, true, [Enable]);
    RunUnfolds(reg, true, []);
    assert [Enable][..0] == [];
    InitInv(reg, true);
    StepKeepsInv(Init(reg, true), Enable);
  }

  lemma RunExtends(reg: Lro, ready: bool, steps: seq<Step>, step: Step)
    ensures Run(reg, ready, steps + [step]) == Then(Run(reg, ready, steps), step)
  {
    assert (steps + [step])[..|steps|] == steps;
  }

  /** The device is away when the only session ends, and back for the next. */
  const STALE: seq<Step> :=
    [Enable] + [Add(1, 2, 7, 0, 10)] + [Device(false)] + [Timeout(0, EXPIRE_TIME)] + [OtherWrite(Lro(9, 9))]
    + [Device(true)] + [Add(1, 2, 7, EXPIRE_TIME, 10)] + [Timeout(0, EXPIRE_TIME + EXPIRE_TIME)]

  /** Then the value another writer has put there since is overwritten by an older one. */
  lemma StaleValueIsRestored()
    ensures var o := Run(Lro(4, 4), true, STALE);
            && o.Some? && !AnyValid(o.value.f.ety) && o.value.others == Lro(9, 9) && o.value.f.reg == Lro(4, 4)
            && !Undisturbed(Lro(4, 4), true, STALE)
  {
    hide Single, Then, Run, Next, Undisturbed;
    var r, a, e := Lro(4, 4), Add(1, 2, 7, 0, 10), Timeout(0, EXPIRE_TIME);
    var a', e' := Add(1, 2, 7, EXPIRE_TIME, 10), Timeout(0, EXPIRE_TIME + EXPIRE_TIME);
    SingleEnable(r);
    var s1 := [Enable];
    SingleAdd(Run(r, true, s1), Bracket(r, false, Lro(0, 0), true), r, 0);
    RunExtends(r, true, s1, a);
    var s2 := s1 + [a];
    SingleOther(Run(r, true, s2), true, Bracket(Lro(10, 10), true, r, true), r, r, false);
    RunExtends(r, true, s2, Device(false));
    var s3 := s2 + [Device(false)];
    SingleEnd(Run(r, true, s3), Bracket(Lro(10, 10), true, r, false), r, 0);
    RunExtends(r, true, s3, e);
    var s4 := s3 + [e];
    SingleOther(Run(r, true, s4), false, Bracket(Lro(10, 10), true, r, false), r, Lro(9, 9), true);
    RunExtends(r, true, s4, OtherWrite(Lro(9, 9)));
    var s5 := s4 + [OtherWrite(Lro(9, 9))];
    SingleOther(Run(r, true, s5), false, Bracket(Lro(9, 9), true, r, false), Lro(9, 9), r, true);
    RunExtends(r, true, s5, Device(true));
    var s6 := s5 + [Device(true)];
    SingleAdd(Run(r, true, s6), Bracket(Lro(9, 9), true, r, true), Lro(9, 9), EXPIRE_TIME);
    RunExtends(r, true, s6, a');
    var s7 := s6 + [a'];
    SingleEnd(Run(r, true, s7), Bracket(Lro(9, 9), true, r, true), Lro(9, 9), EXPIRE_TIME);
    RunExtends(r, true, s7, e');
    SingleMeans(Run(r, true, STALE), Bracket(r, false, r, true), Lro(9, 9));
    if Undisturbed(r, true, STALE) { RegisterIsRestored(r, true, STALE); }
  }

  lemma SingleMeans(o: Option<Sys>, lro: Bracket, others: Lro)
    requires Single(o, false, 0, lro, others)
    ensures o.Some? && !AnyValid(o.value.f.ety) && o.value.others == others && o.value.f.reg == lro.reg
  {
  }
}
