/**
 arht_dynamic_ifc.c: the session table, the four dedicated LRO rings, the IFC rules in hardware and the
 saved LRO register field, with the bodies the driver runs under dynamic_ifc_lock.
 */
module DynamicIfc {
  import opened Wrappers

  const MAX_NUM: nat := 8 // MAX_DYNAMIC_IFC_NUM
  const RING_NUM: nat := 4 // IFC_LRO_RING_NUM
  const RING_START: nat := 12 // IFC_LRO_RING_START
  const DEFAULT_RING: nat := 1 // IFC_DEFAULT_RING
  const SLOT_FREE: int := -1 // IFC_RING_SLOT_FREE
  const HZ: nat := 100 // jiffies per second; no property depends on it
  const EXPIRE_TIME: nat := HZ

  /** struct dynamic_ifc; sockets and routes are numbered, ports are in host order. */
  datatype Session = Session(valid: bool, skipCopy: bool, ifcValid: bool, timerActive: bool,
                             localPort: nat, remotePort: nat, hash: nat, lastTx: nat,
                             sk: Option<nat>, txDst: Option<nat>, rxDst: Option<nat>,
                             ifcIndex: nat, ringId: nat)

  const EMPTY: Session := Session(false, false, false, false, 0, 0, 0, 0, None, None, None, 0, 0)

  type Rule = (nat, nat)

  /** The CDM1 and CDM2 aggregation-number fields. */
  datatype Lro = Lro(cdm1: nat, cdm2: nat)

  /** rules is the hardware's rule table; ready says that glb_eth is up. */
  datatype Ifc = Ifc(ety: seq<Session>, ring: seq<int>, rules: set<Rule>,
                     reg: Lro, saved: bool, orig: Lro, hook: bool, ready: bool)

  function RuleOf(e: Session): Rule { (e.localPort, e.remotePort) }

  predicate Shape(f: Ifc) { |f.ety| == MAX_NUM && |f.ring| == RING_NUM }

  // ---------------------------------------------------------------- rings

  /** A reservation whose owner has no live rule. */
  predicate Stale(ety: seq<Session>, owner: int)
    requires |ety| == MAX_NUM
  {
    owner >= MAX_NUM || owner < 0 || !ety[owner].valid || !ety[owner].ifcValid
  }

  /** What the first loop of ifc_get_free_lro_ring stops at: k's own reservation, or a stale one. */
  predicate Claimable(ety: seq<Session>, owner: int, k: nat)
    requires |ety| == MAX_NUM
  {
    owner == k || (owner != SLOT_FREE && Stale(ety, owner))
  }

  function FirstClaimable(ety: seq<Session>, ring: seq<int>, k: nat, i: nat): (r: Option<nat>)
    requires |ety| == MAX_NUM && i <= |ring|
    ensures r.Some? ==> i <= r.value < |ring| && Claimable(ety, ring[r.value], k)
    ensures forall j :: i <= j < (if r.Some? then r.value else |ring|) ==> !Claimable(ety, ring[j], k)
    decreases |ring| - i
  {
    if i == |ring| then None else if Claimable(ety, ring[i], k) then Some(i) else FirstClaimable(ety, ring, k, i + 1)
  }

  function FirstOwned(ring: seq<int>, owner: int, i: nat): (r: Option<nat>)
    requires i <= |ring|
    ensures r.Some? ==> i <= r.value < |ring| && ring[r.value] == owner
    ensures forall j :: i <= j < (if r.Some? then r.value else |ring|) ==> ring[j] != owner
    decreases |ring| - i
  {
    if i == |ring| then None else if ring[i] == owner then Some(i) else FirstOwned(ring, owner, i + 1)
  }

  function GetRing(ety: seq<Session>, ring: seq<int>, k: nat): (r: (seq<int>, nat))
    requires |ety| == MAX_NUM
    ensures |r.0| == |ring|
  {
    var c, f := FirstClaimable(ety, ring, k, 0), FirstOwned(ring, SLOT_FREE, 0);
    if c.Some? then (ring[c.value := k], RING_START + c.value)
    else if f.Some? then (ring[f.value := k], RING_START + f.value)
    else (ring, DEFAULT_RING)
  }

  function ReleaseRing(ring: seq<int>, k: nat): (r: seq<int>)
    ensures |r| == |ring|
  {
    var o := FirstOwned(ring, k, 0);
    if o.Some? then ring[o.value := SLOT_FREE] else ring
  }

  // ---------------------------------------------------------------- rules

  /** Outcome of the hardware calls: the rule index (0 for failure) and whether the action was set. */
  datatype Hw = Hw(index: nat, actionOk: bool)

  function AddIfc(f: Ifc, k: nat, hw: Hw): Ifc
    requires Shape(f) && k < MAX_NUM
  {
    var e := f.ety[k];
    if !e.valid || e.ifcValid || !f.hook then f
    else if hw.index == 0 then f.(ety := f.ety[k := e.(ifcIndex := 0)])
    else
      var (ring, id) := GetRing(f.ety, f.ring, k);
      if hw.actionOk then
        f.(ety := f.ety[k := e.(ifcIndex := hw.index, ringId := id, ifcValid := true)],
           ring := ring, rules := f.rules + {RuleOf(e)})
      else
        f.(ety := f.ety[k := e.(ifcIndex := 0, ringId := id)],
           ring := ReleaseRing(ring, k), rules := f.rules + {RuleOf(e)} - {RuleOf(e)})
  }

  function DelIfc(f: Ifc, k: nat): Ifc
    requires Shape(f) && k < MAX_NUM
  {
    var e := f.ety[k];
    if !e.ifcValid || e.ifcIndex == 0 then f
    else f.(ety := f.ety[k := e.(ifcIndex := 0, ifcValid := false, ringId := 0)],
            ring := ReleaseRing(f.ring, k),
            rules := if f.hook then f.rules - {RuleOf(e)} else f.rules)
  }

  // ---------------------------------------------------------------- LRO register

  function SaveLro(f: Ifc, agg: nat): Ifc {
    if f.saved || !f.ready then f else f.(orig := f.reg, saved := true, reg := Lro(agg, agg))
  }

  function RestoreLro(f: Ifc): Ifc {
    if !f.saved || !f.ready then f else f.(reg := f.orig, saved := false)
  }

  // ---------------------------------------------------------------- sessions

  predicate PortsAre(e: Session, local: nat, remote: nat) {
    e.valid && e.localPort == local && e.remotePort == remote
  }

  /** find_dynamic_ifc_ety_by_port */
  function Find(ety: seq<Session>, local: nat, remote: nat, i: nat): (r: Option<nat>)
    requires i <= |ety|
    ensures r.Some? ==> i <= r.value < |ety| && PortsAre(ety[r.value], local, remote)
    ensures forall j :: i <= j < (if r.Some? then r.value else |ety|) ==> !PortsAre(ety[j], local, remote)
    decreases |ety| - i
  {
    if i == |ety| then None else if PortsAre(ety[i], local, remote) then Some(i) else Find(ety, local, remote, i + 1)
  }

  function FirstInvalid(ety: seq<Session>, i: nat): (r: Option<nat>)
    requires i <= |ety|
    ensures r.Some? ==> i <= r.value < |ety| && !ety[r.value].valid
    ensures forall j :: i <= j < (if r.Some? then r.value else |ety|) ==> ety[j].valid
    decreases |ety| - i
  {
    if i == |ety| then None else if !ety[i].valid then Some(i) else FirstInvalid(ety, i + 1)
  }

  function NewSession(e: Session, local: nat, remote: nat, sk: nat, now: nat): Session {
    Session(true, false, false, true, local, remote, 0, now, Some(sk), None, None, 0, 0)
  }

  /** difc_add_entry_from_sock takes a slot exactly when the pair is new and one is free. */
  function AddSlot(f: Ifc, local: nat, remote: nat): Option<nat> {
    if Find(f.ety, local, remote, 0).Some? then None else FirstInvalid(f.ety, 0)
  }

  function AddEntry(f: Ifc, local: nat, remote: nat, sk: nat, now: nat, agg: nat): Ifc {
    var slot := AddSlot(f, local, remote);
    if slot.None? then f
    else SaveLro(f.(ety := f.ety[slot.value := NewSession(f.ety[slot.value], local, remote, sk, now)]), agg)
  }

  /** A route seen on a packet replaces the session's when it differs. */
  predicate Swaps(cur: Option<nat>, seen: Option<nat>) { seen.Some? && cur != seen }

  function Received(e: Session, seen: Option<nat>, hash: nat): Session {
    e.(rxDst := if Swaps(e.rxDst, seen) then seen else e.rxDst, hash := hash)
  }

  /** difc_handle_tcp_do_rcv for the session found */
  function Receive(f: Ifc, k: nat, seen: Option<nat>, hash: nat, rateReached: bool, hw: Hw): Ifc
    requires Shape(f) && k < MAX_NUM
  {
    var e := Received(f.ety[k], seen, hash);
    if e.ifcValid || !rateReached then f.(ety := f.ety[k := e])
    else AddIfc(f.(ety := f.ety[k := e.(skipCopy := e.skipCopy || e.sk.Some?)]), k, hw)
  }

  function Transmit(f: Ifc, k: nat, seen: Option<nat>, now: nat): Ifc
    requires Shape(f) && k < MAX_NUM
  {
    var e := f.ety[k];
    f.(ety := f.ety[k := e.(txDst := if Swaps(e.txDst, seen) then seen else e.txDst, lastTx := now)])
  }

  /** Ending one session: its rule and ring go, its references are handed over. */
  function EndSession(f: Ifc, k: nat, timerActive: bool, skipCopy: bool): Ifc
    requires Shape(f) && k < MAX_NUM
  {
    var g := DelIfc(f, k);
    g.(ety := g.ety[k := g.ety[k].(valid := false, timerActive := timerActive, skipCopy := skipCopy,
                                   sk := None, txDst := None, rxDst := None)])
  }

  predicate AnyValid(ety: seq<Session>) { exists i :: 0 <= i < |ety| && ety[i].valid }

  /** dynamic_ifc_timeout, once the session has expired */
  function Expire(f: Ifc, k: nat): Ifc
    requires Shape(f) && k < MAX_NUM
  {
    var g := EndSession(f, k, false, f.ety[k].skipCopy);
    if AnyValid(g.ety) then g else RestoreLro(g)
  }

  /** First pass of dynamic_ifc_cleanup_all_sessions: the timers to stop. */
  function NeedTimerSync(ety: seq<Session>): seq<bool> {
    seq(|ety|, i requires 0 <= i < |ety| => ety[i].valid && ety[i].timerActive)
  }

  function TimersStopped(ety: seq<Session>): seq<Session> {
    seq(|ety|, i requires 0 <= i < |ety| =>
      if ety[i].valid && ety[i].timerActive then ety[i].(timerActive := false) else ety[i])
  }

  /** Second pass of dynamic_ifc_cleanup_all_sessions over the slots below n. */
  function EndBelow(f: Ifc, n: nat): (g: Ifc)
    requires Shape(f) && n <= MAX_NUM
    ensures Shape(g)
  {
    if n == 0 then f
    else
      var g := EndBelow(f, n - 1);
      if g.ety[n - 1].valid then EndSession(g, n - 1, g.ety[n - 1].timerActive, false) else g
  }

  // ---------------------------------------------------------------- the driver

  class Driver {
    const ety: array<Session>
    const ring: array<int>
    var rules: set<Rule>
    var reg: Lro
    var saved: bool
    var orig: Lro
    var hook: bool
    var ready: bool

    ghost predicate Valid()
      reads this, ety, ring
    {
      ety.Length == MAX_NUM && ring.Length == RING_NUM && forall i :: 0 <= i < RING_NUM ==> ring[i] >= SLOT_FREE
    }

    ghost function State(): Ifc
      reads this, ety, ring
    {
      Ifc(ety[..], ring[..], rules, reg, saved, orig, hook, ready)
    }

    constructor (reg0: Lro, ready: bool)
      ensures Valid() && fresh(ety) && fresh(ring)
      ensures State() == Ifc(seq(MAX_NUM, _ => EMPTY), seq(RING_NUM, _ => SLOT_FREE), {}, reg0, false, Lro(0, 0), false, ready)
    {
      ety := new Session[MAX_NUM](_ => EMPTY);
      ring := new int[RING_NUM](_ => SLOT_FREE);
      rules := {};
      reg := reg0;
      saved := false;
      orig := Lro(0, 0);
      hook := false;
      this.ready := ready;
    }

    /** ifc_get_free_lro_ring */
    method GetFreeLroRing(k: nat) returns (id: nat)
      requires Valid() && k < MAX_NUM
      modifies ring
      ensures Valid()
      ensures (ring[..], id) == GetRing(ety[..], old(ring[..]), k)
    {
      ghost var was := ring[..];
      for i := 0 to RING_NUM
        invariant Valid() && ring[..] == was
        invariant FirstClaimable(ety[..], was, k, 0) == FirstClaimable(ety[..], was, k, i)
      {
        if ring[i] == k {
          assert was[i := k] == was;
          return RING_START + i;
        }
        if ring[i] != SLOT_FREE {
          var prev := ring[i];
          if prev >= MAX_NUM || !ety[prev].valid || !ety[prev].ifcValid {
            ring[i] := k;
            assert ring[..] == was[i := k];
            return RING_START + i;
          }
        }
      }
      for i := 0 to RING_NUM
        invariant Valid() && ring[..] == was
        invariant FirstOwned(was, SLOT_FREE, 0) == FirstOwned(was, SLOT_FREE, i)
      {
        if ring[i] == SLOT_FREE {
          ring[i] := k;
          assert ring[..] == was[i := k];
          return RING_START + i;
        }
      }
      return DEFAULT_RING;
    }

    /** ifc_release_lro_ring */
    method ReleaseLroRing(k: nat)
      requires Valid()
      modifies ring
      ensures Valid()
      ensures ring[..] == ReleaseRing(old(ring[..]), k)
    {
      ghost var was := ring[..];
      for i := 0 to RING_NUM
        invariant Valid() && ring[..] == was
        invariant FirstOwned(was, k, 0) == FirstOwned(was, k, i)
      {
        if ring[i] == k {
          ring[i] := SLOT_FREE;
          assert ring[..] == was[i := SLOT_FREE];
          return;
        }
      }
    }

    /** dynamic_ifc_add_ifc */
    method AddRule(k: nat, hw: Hw)
      requires Valid() && k < MAX_NUM
      modifies this, ety, ring
      ensures Valid()
      ensures State() == AddIfc(old(State()), k, hw)
    {
      if !ety[k].valid || ety[k].ifcValid { return; }
      if !hook { return; }
      if hw.index != 0 { rules := rules + {RuleOf(ety[k])}; }
      ety[k] := ety[k].(ifcIndex := hw.index);
      if hw.index == 0 {
        assert ety[..] == old(ety[..])[k := ety[k]];
        return;
      }
      RingIgnoresIndex(old(ety[..]), ety[..], ring[..], k);
      var id := GetFreeLroRing(k);
      ety[k] := ety[k].(ringId := id);
      if !hw.actionOk {
        rules := rules - {RuleOf(ety[k])};
        ety[k] := ety[k].(ifcIndex := 0);
        ReleaseLroRing(k);
        assert ety[..] == old(ety[..])[k := ety[k]];
        return;
      }
      ety[k] := ety[k].(ifcValid := true);
      assert ety[..] == old(ety[..])[k := ety[k]];
    }

    /** dynamic_ifc_del_ifc */
    method DelRule(k: nat)
      requires Valid() && k < MAX_NUM
      modifies this, ety, ring
      ensures Valid()
      ensures State() == DelIfc(old(State()), k)
    {
      if !ety[k].ifcValid || ety[k].ifcIndex == 0 { return; }
      if hook { rules := rules - {RuleOf(ety[k])}; }
      ety[k] := ety[k].(ifcIndex := 0);
      ety[k] := ety[k].(ifcValid := false);
      ety[k] := ety[k].(ringId := 0);
      ReleaseLroRing(k);
      assert ety[..] == old(ety[..])[k := ety[k]];
    }

    /** lro_save_and_set_agg_num */
    method SaveAndSetAggNum(agg: nat)
      modifies this
      ensures State() == SaveLro(old(State()), agg)
    {
      if saved { return; }
      if !ready { return; }
      orig := reg;
      saved := true;
      reg := Lro(agg, agg);
    }

    /** lro_restore_agg_num */
    method RestoreAggNum()
      modifies this
      ensures State() == RestoreLro(old(State()))
    {
      if !saved { return; }
      if !ready { return; }
      reg := orig;
      saved := false;
    }

    /** find_dynamic_ifc_ety_by_port */
    method FindByPort(local: nat, remote: nat) returns (found: Option<nat>)
      requires Valid()
      ensures found == Find(ety[..], local, remote, 0)
    {
      for i := 0 to MAX_NUM
        invariant Find(ety[..], local, remote, 0) == Find(ety[..], local, remote, i)
      {
        if !ety[i].valid || ety[i].localPort != local || ety[i].remotePort != remote { continue; }
        return Some(i);
      }
      return None;
    }

    /** difc_add_entry_from_sock; held says whether the session keeps a reference on sk. */
    method AddEntryFromSock(local: nat, remote: nat, sk: nat, now: nat, agg: nat) returns (held: bool)
      requires Valid()
      modifies this, ety
      ensures Valid()
      ensures held == AddSlot(old(State()), local, remote).Some?
      ensures State() == AddEntry(old(State()), local, remote, sk, now, agg)
    {
      var found := FindByPort(local, remote);
      if found.Some? { return false; }
      for i := 0 to MAX_NUM
        invariant Valid() && State() == old(State())
        invariant FirstInvalid(ety[..], 0) == FirstInvalid(ety[..], i)
      {
        if !ety[i].valid {
          ety[i] := Session(false, false, false, true, local, remote, 0, now, Some(sk), None, None, 0, 0);
          SaveAndSetAggNum(agg);
          ety[i] := ety[i].(valid := true);
          assert ety[..] == old(ety[..])[i := ety[i]];
          return true;
        }
      }
      return false;
    }

    /** difc_handle_tcp_do_rcv: the route it puts down, if it swapped one. */
    method HandleTcpDoRcv(local: nat, remote: nat, seen: Option<nat>, hash: nat, rateReached: bool, hw: Hw)
      returns (swapped: bool, oldDst: Option<nat>)
      requires Valid()
      modifies this, ety, ring
      ensures Valid()
      ensures var found := Find(old(ety[..]), local, remote, 0);
              && State() == (if found.Some? then Receive(old(State()), found.value, seen, hash, rateReached, hw)
                             else old(State()))
              && swapped == (found.Some? && Swaps(old(ety[..])[found.value].rxDst, seen))
              && oldDst == if swapped then old(ety[..])[found.value].rxDst else None
    {
      var found := FindByPort(local, remote);
      if found.None? { return false, None; }
      var k := found.value;
      swapped, oldDst := false, None;
      if seen.Some? && ety[k].rxDst != seen {
        swapped, oldDst := true, ety[k].rxDst;
        ety[k] := ety[k].(rxDst := seen);
      }
      ety[k] := ety[k].(hash := hash);
      if !ety[k].ifcValid {
        if !rateReached {
          assert ety[..] == old(ety[..])[k := ety[k]];
          return;
        }
        if !ety[k].skipCopy && ety[k].sk.Some? {
          ety[k] := ety[k].(skipCopy := true);
        }
        assert ety[..] == old(ety[..])[k := ety[k]];
        AddRule(k, hw);
      } else {
        assert ety[..] == old(ety[..])[k := ety[k]];
      }
    }

    /** difc_handle_local_out, lines 774-788 */
    method HandleLocalOut(local: nat, remote: nat, seen: Option<nat>, now: nat) returns (swapped: bool, oldDst: Option<nat>)
      requires Valid()
      modifies ety
      ensures Valid()
      ensures var found := Find(old(ety[..]), local, remote, 0);
              && State() == (if found.Some? then Transmit(old(State()), found.value, seen, now) else old(State()))
              && swapped == (found.Some? && Swaps(old(ety[..])[found.value].txDst, seen))
              && oldDst == if swapped then old(ety[..])[found.value].txDst else None
    {
      var found := FindByPort(local, remote);
      if found.None? { return false, None; }
      var k := found.value;
      swapped, oldDst := false, None;
      if seen.Some? && ety[k].txDst != seen {
        swapped, oldDst := true, ety[k].txDst;
        ety[k] := ety[k].(txDst := seen);
      }
      ety[k] := ety[k].(lastTx := now);
      assert ety[..] == old(ety[..])[k := ety[k]];
    }

    /** dynamic_ifc_timeout: the references it hands over for release after the lock. */
    method Timeout(k: nat, now: nat) returns (sk: Option<nat>, tx: Option<nat>, rx: Option<nat>)
      requires Valid() && k < MAX_NUM
      modifies this, ety, ring
      ensures Valid()
      ensures var e := old(ety[k]);
              var ends := e.valid && !(now < e.lastTx + EXPIRE_TIME);
              && State() == (if ends then Expire(old(State()), k) else old(State()))
              && (sk, tx, rx) == if ends then (e.sk, e.txDst, e.rxDst) else (None, None, None)
    {
      if !ety[k].valid { return None, None, None; }
      if now < ety[k].lastTx + EXPIRE_TIME { return None, None, None; }
      if ety[k].ifcValid { DelRule(k); }
      label L:
      ety[k] := ety[k].(timerActive := false);
      sk, tx, rx := ety[k].sk, ety[k].txDst, ety[k].rxDst;
      ety[k] := ety[k].(sk := None);
      ety[k] := ety[k].(txDst := None);
      ety[k] := ety[k].(rxDst := None);
      ety[k] := ety[k].(valid := false);
      assert ety[..] == old@L(ety[..])[k := ety[k]];
      assert State() == EndSession(old(State()), k, false, old(ety[k].skipCopy));
      var active := false;
      for i := 0 to MAX_NUM
        invariant active <==> exists j :: 0 <= j < i && ety[j].valid
      {
        if ety[i].valid {
          active := true;
          break;
        }
      }
      assert active <==> AnyValid(ety[..]);
      if !active { RestoreAggNum(); }
    }

    /** dynamic_ifc_cleanup_all_sessions, first locked pass (lines 883-892). */
    method MarkTimers() returns (need: seq<bool>)
      requires Valid()
      modifies ety
      ensures Valid()
      ensures need == NeedTimerSync(old(ety[..]))
      ensures ety[..] == TimersStopped(old(ety[..]))
    {
      need := [];
      for i := 0 to MAX_NUM
        invariant |need| == i
        invariant need == NeedTimerSync(old(ety[..]))[..i]
        invariant forall j :: 0 <= j < MAX_NUM ==> ety[j] == if j < i then TimersStopped(old(ety[..]))[j] else old(ety[..])[j]
      {
        if ety[i].valid && ety[i].timerActive {
          need := need + [true];
          ety[i] := ety[i].(timerActive := false);
        } else {
          need := need + [false];
        }
      }
    }

    /** One live slot in the second pass (lines 906-926). */
    method EndOne(k: nat) returns (sk: Option<nat>, tx: Option<nat>, rx: Option<nat>)
      requires Valid() && k < MAX_NUM
      modifies this, ety, ring
      ensures Valid()
      ensures State() == EndSession(old(State()), k, old(ety[k].timerActive), false)
      ensures forall j :: 0 <= j < MAX_NUM && j != k ==> ety[j] == old(ety[j])
      ensures (sk, tx, rx) == (old(ety[k].sk), old(ety[k].txDst), old(ety[k].rxDst))
    {
      if ety[k].ifcValid { DelRule(k); }
      label L:
      sk, tx, rx := ety[k].sk, ety[k].txDst, ety[k].rxDst;
      ety[k] := ety[k].(sk := None);
      ety[k] := ety[k].(txDst := None);
      ety[k] := ety[k].(rxDst := None);
      ety[k] := ety[k].(valid := false);
      ety[k] := ety[k].(skipCopy := false);
      assert ety[..] == old@L(ety[..])[k := ety[k]];
    }

    /** dynamic_ifc_cleanup_all_sessions, second locked pass (lines 899-930). */
    method CleanupAllSessions() returns (sks: seq<Option<nat>>, txs: seq<Option<nat>>, rxs: seq<Option<nat>>)
      requires Valid()
      modifies this, ety, ring
      ensures Valid()
      ensures State() == RestoreLro(EndBelow(old(State()), MAX_NUM))
      ensures |sks| == |txs| == |rxs| == MAX_NUM
      ensures forall i :: 0 <= i < MAX_NUM ==> (sks[i], txs[i], rxs[i]) == HandedOver(old(ety[..])[i])
    {
      hide EndSession;
      sks, txs, rxs := [], [], [];
      ghost var was := ety[..];
      for i := 0 to MAX_NUM
        invariant Valid() && |sks| == |txs| == |rxs| == i
        invariant State() == EndBelow(old(State()), i)
        invariant forall j :: i <= j < MAX_NUM ==> ety[j] == was[j]
        invariant forall j :: 0 <= j < i ==> (sks[j], txs[j], rxs[j]) == HandedOver(was[j])
      {
        var sk, tx, rx := None, None, None;
        if ety[i].valid {
          sk, tx, rx := EndOne(i);
        }
        sks, txs, rxs := sks + [sk], txs + [tx], rxs + [rx];
      }
      RestoreAggNum();
    }
  }

  function HandedOver(e: Session): (Option<nat>, Option<nat>, Option<nat>) {
    if e.valid then (e.sk, e.txDst, e.rxDst) else (None, None, None)
  }

  /** Reserving a ring does not look at the index field. */
  lemma RingIgnoresIndex(a: seq<Session>, b: seq<Session>, ring: seq<int>, k: nat)
    requires |a| == |b| == MAX_NUM && k < MAX_NUM && b == a[k := a[k].(ifcIndex := b[k].ifcIndex)]
    ensures GetRing(a, ring, k) == GetRing(b, ring, k)
  {
    ClaimableSame(a, b, ring, k, 0);
  }

  lemma ClaimableSame(a: seq<Session>, b: seq<Session>, ring: seq<int>, k: nat, i: nat)
    requires |a| == |b| == MAX_NUM && k < MAX_NUM && b == a[k := a[k].(ifcIndex := b[k].ifcIndex)] && i <= |ring|
    ensures FirstClaimable(a, ring, k, i) == FirstClaimable(b, ring, k, i)
    decreases |ring| - i
  {
    if i < |ring| { ClaimableSame(a, b, ring, k, i + 1); }
  }
}
