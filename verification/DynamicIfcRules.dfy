/**
 arht_dynamic_ifc.c: what one request for a rule, its refusal and its removal leave behind, in any state of the driver.
 */
module DynamicIfcRules {
  import opened Wrappers
  import opened DynamicIfc
  import opened DynamicIfcRuns

  /** Reservation i is the session's own, or names a session out of range, ended or without a rule. */
  predicate MayTake(ety: seq<Session>, ring: seq<int>, i: nat, k: nat)
    requires |ety| == 8 && i < |ring|
  {
    ring[i] == k
    || (ring[i] != -1 && (ring[i] < 0 || ring[i] >= 8 || !ety[ring[i]].valid || !ety[ring[i]].ifcValid))
  }

  /** Reservation i is the one to take: the lowest that may be, or if there is none the lowest that is free. */
  predicate IsChosen(ety: seq<Session>, ring: seq<int>, i: nat, k: nat)
    requires |ety| == 8 && |ring| == 4
  {
    i < 4
    && if MayTake(ety, ring, i, k) then forall j: nat :: j < i ==> !MayTake(ety, ring, j, k)
       else ring[i] == -1 && (forall j: nat :: j < 4 ==> !MayTake(ety, ring, j, k)) && forall j: nat :: j < i ==> ring[j] != -1
  }

  /** In any state: the chosen reservation becomes the session's and gives its ring, 12 and up; without one it is ring 1. */
  lemma RingChosen(ety: seq<Session>, ring: seq<int>, k: nat)
    requires |ety| == 8 && |ring| == 4 && k < 8
    ensures var (ring', id) := GetRing(ety, ring, k);
            && (forall i: nat :: IsChosen(ety, ring, i, k) ==> ring' == ring[i := k] && id == 12 + i)
            && ((forall i: nat :: !IsChosen(ety, ring, i, k)) ==> ring' == ring && id == 1)
            && (id == 1 <==> forall i: nat :: i < 4 ==> !MayTake(ety, ring, i, k) && ring[i] != -1)
  {
    forall i | 0 <= i < 4
      ensures Claimable(ety, ring[i], k) <==> MayTake(ety, ring, i, k)
    {
    }
    var c, f := FirstClaimable(ety, ring, k, 0), FirstOwned(ring, -1, 0);
    assert c.Some? ==> IsChosen(ety, ring, c.value, k);
    assert c.None? && f.Some? ==> IsChosen(ety, ring, f.value, k);
    hide FirstClaimable, FirstOwned, Claimable, MayTake;
  }

  /** Without the hook, for a slot that is not live or has its rule, a request does nothing. */
  lemma NothingRequested(f: Ifc, k: nat, hw: Hw)
    requires Shape(f) && k < 8 && (!f.ety[k].valid || f.ety[k].ifcValid || !f.hook)
    ensures AddIfc(f, k, hw) == f
  {
  }

  lemma NoRuleYet(f: Ifc, k: nat)
    requires Core(f) && k < 8 && f.ety[k].valid && !f.ety[k].ifcValid
    ensures RuleOf(f.ety[k]) !in f.rules
  {
    forall i | 0 <= i < 8 && LiveRule(f.ety[i])
      ensures RuleOf(f.ety[i]) != RuleOf(f.ety[k])
    {
      assert i < k ==> RuleOf(f.ety[i]) != RuleOf(f.ety[k]);
      assert k < i ==> RuleOf(f.ety[k]) != RuleOf(f.ety[i]);
    }
  }

  /** A request the hardware refuses leaves rings, rules and every other session as they were; the index reads 0. */
  lemma RefusedLeavesNothing(f: Ifc, k: nat, hw: Hw)
    requires Core(f) && k < 8 && f.ety[k].valid && !f.ety[k].ifcValid && f.hook && (hw.index == 0 || !hw.actionOk)
    ensures var g := AddIfc(f, k, hw);
            && g.ring == f.ring && g.rules == f.rules
            && g == f.(ety := g.ety) && g.ety == f.ety[k := f.ety[k].(ifcIndex := 0, ringId := g.ety[k].ringId)]
            && (hw.index == 0 ==> g.ety[k].ringId == f.ety[k].ringId)
            && (hw.index != 0 ==> g.ety[k].ringId == GetRing(f.ety, f.ring, k).1)
  {
    ReserveRelease(f, k);
    NoRuleYet(f, k);
    hide GetRing, ReleaseRing;
  }

  /** Removing a rule just added restores rings and rules; of the session only its index and ring number are cleared. */
  lemma RemoveUndoesAdd(f: Ifc, k: nat, hw: Hw)
    requires Core(f) && k < 8 && f.ety[k].valid && !f.ety[k].ifcValid && f.hook && hw.index != 0 && hw.actionOk
    ensures AddIfc(f, k, hw).rules == f.rules + {(f.ety[k].localPort, f.ety[k].remotePort)}
    ensures AddIfc(f, k, hw).ety[k].ifcValid && AddIfc(f, k, hw).ety[k].ifcIndex == hw.index
    ensures DelIfc(AddIfc(f, k, hw), k) == f.(ety := f.ety[k := f.ety[k].(ifcIndex := 0, ringId := 0)])
  {
    ReserveRelease(f, k);
    NoRuleYet(f, k);
    hide GetRing, ReleaseRing, Core;
  }

  /** Without the hook a removal clears the session and gives the ring back, but the hardware keeps its rule. */
  lemma RemoveWithoutHook(f: Ifc, k: nat)
    requires Core(f.(hook := true)) && !f.hook && k < 8 && f.ety[k].ifcValid
    ensures var g := DelIfc(f, k);
            && g.rules == f.rules && (f.ety[k].localPort, f.ety[k].remotePort) in g.rules
            && g.ety == f.ety[k := f.ety[k].(ifcIndex := 0, ifcValid := false, ringId := 0)]
            && k !in g.ring
            && forall i :: 0 <= i < 4 && f.ring[i] != k ==> g.ring[i] == f.ring[i]
  {
    assert LiveRule(f.ety[k]);
    assert HasRule(f.ety, RuleOf(f.ety[k]));
    assert RingsOk(f.ety, f.ring);
    var o := FirstOwned(f.ring, k, 0);
    hide FirstOwned, HasRule, Unique;
    forall i | 0 <= i < 4 && f.ring[i] == k
      ensures o == Some(i)
    {
      assert RingOwned(f.ety, f.ring, i) && RingOwned(f.ety, f.ring, o.value);
      assert f.ety[k].ringId == 12 + i && f.ety[k].ringId == 12 + o.value;
    }
  }

  /** A rule with index 0 is not removed. */
  lemma IndexZeroStays(f: Ifc, k: nat)
    requires Shape(f) && k < 8 && (!f.ety[k].ifcValid || f.ety[k].ifcIndex == 0)
    ensures DelIfc(f, k) == f
  {
  }

  /** The first pass of the cleanup stops exactly the running timers of live sessions, and touches nothing else. */
  lemma TimersAreMarked(ety: seq<Session>)
    ensures |NeedTimerSync(ety)| == |TimersStopped(ety)| == |ety|
    ensures forall i :: 0 <= i < |ety| ==>
              && NeedTimerSync(ety)[i] == (ety[i].valid && ety[i].timerActive)
              && TimersStopped(ety)[i] == ety[i].(timerActive := ety[i].timerActive && !ety[i].valid)
    ensures forall i :: 0 <= i < |ety| ==> !NeedTimerSync(TimersStopped(ety))[i]
  {
  }

  /** Slot i is the one an add takes: the lowest that is not live, when no live session has the pair. */
  predicate IsTaken(ety: seq<Session>, i: nat, local: nat, remote: nat)
    requires |ety| == 8
  {
    && i < 8 && !ety[i].valid && (forall j: nat :: j < i ==> ety[j].valid)
    && forall j: nat :: j < 8 && ety[j].valid ==> !(ety[j].localPort == local && ety[j].remotePort == remote)
  }

  /** In any state: what an add leaves in its slot and in the register; without a slot, nothing. */
  lemma AddedSession(f: Ifc, local: nat, remote: nat, sk: nat, now: nat, agg: nat)
    requires Shape(f)
    ensures var g, plain := AddEntry(f, local, remote, sk, now, agg),
                            Session(true, false, false, true, local, remote, 0, now, Some(sk), None, None, 0, 0);
            && (forall i: nat :: IsTaken(f.ety, i, local, remote) ==>
                  g == if f.ready && !f.saved then f.(ety := f.ety[i := plain], reg := Lro(agg, agg), orig := f.reg, saved := true)
                       else f.(ety := f.ety[i := plain]))
            && ((forall i: nat :: !IsTaken(f.ety, i, local, remote)) ==> g == f)
  {
    var found, slot := Find(f.ety, local, remote, 0), FirstInvalid(f.ety, 0);
    assert found.None? && slot.Some? ==> IsTaken(f.ety, slot.value, local, remote);
    forall i: nat | IsTaken(f.ety, i, local, remote)
      ensures found.None? && slot == Some(i)
    {
      assert forall j: nat :: j < 8 ==> !PortsAre(f.ety[j], local, remote);
    }
    hide Find, FirstInvalid, IsTaken;
  }
}
