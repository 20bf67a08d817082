/**
 arht_dynamic_ifc.c as its users see it: a map from port pairs to flows. Every step of every run acts on the map as
 said here, whatever slots, rings and rules it goes through.
 */
module DynamicIfcFlows {
  import opened Wrappers
  import opened Tally
  import opened DynamicIfc
  import opened DynamicIfcRuns

  /** A live session: when it was added or last transmitted, what it refers to, and whether the hardware has its rule. */
  datatype Flow = Flow(lastTx: nat, sk: Option<nat>, tx: Option<nat>, rx: Option<nat>, hash: nat, ruled: bool, skipCopy: bool)

  type Flows = map<Rule, Flow>

  function FlowOf(e: Session): Flow { Flow(e.lastTx, e.sk, e.txDst, e.rxDst, e.hash, e.ifcValid, e.skipCopy) }

  /** The live sessions are the flows of the map, one each. */
  ghost predicate Shows(f: Ifc, m: Flows) {
    && (forall k :: 0 <= k < |f.ety| && f.ety[k].valid ==>
          RuleOf(f.ety[k]) in m && m[RuleOf(f.ety[k])] == FlowOf(f.ety[k]))
    && (forall r :: r in m ==> exists k :: 0 <= k < |f.ety| && f.ety[k].valid && RuleOf(f.ety[k]) == r)
  }

  /** Another route seen on a packet replaces the one held. */
  function Latest(held: Option<nat>, seen: Option<nat>): Option<nat> { if seen.Some? then seen else held }

  /**
   What a step does to the flows. A timer belongs to a slot, so a timeout concerns the flow that slot has; all 8 slots
   in use refuse an add.
   */
  function Acts(s: Sys, m: Flows, step: Step): Flows
    requires |s.f.ety| == 8
  {
    match step
    case Add(local, remote, sk, now, _) =>
      if (local, remote) in m || (forall k :: 0 <= k < 8 ==> s.f.ety[k].valid) then m
      else m[(local, remote) := Flow(now, Some(sk), None, None, 0, false, false)]
    case Rcv(local, remote, seen, hash, rateReached, hw) =>
      if (local, remote) !in m then m
      else
        var flow := m[(local, remote)];
        var asks := rateReached && !flow.ruled;
        m[(local, remote) := flow.(rx := Latest(flow.rx, seen), hash := hash,
                                   ruled := flow.ruled || (asks && hw.index != 0 && hw.actionOk),
                                   skipCopy := flow.skipCopy || (asks && flow.sk.Some?))]
    case Xmit(local, remote, seen, now) =>
      if (local, remote) !in m then m
      else
        var flow := m[(local, remote)];
        m[(local, remote) := flow.(tx := Latest(flow.tx, seen), lastTx := now)]
    case Timeout(k, now) =>
      if k < 8 && s.f.ety[k].valid && RuleOf(s.f.ety[k]) in m && now >= m[RuleOf(s.f.ety[k])].lastTx + HZ
      then m - {RuleOf(s.f.ety[k])}
      else m
    case Cleanup => map[]
    case _ => m
  }

  // ---------------------------------------------------------------- one slot

  lemma ShowsChange(f: Ifc, g: Ifc, m: Flows, k: nat, flow: Flow)
    requires k < |f.ety| && Shows(f, m) && Unique(f.ety) && f.ety[k].valid
    requires |g.ety| == |f.ety| && g.ety == f.ety[k := g.ety[k]] && g.ety[k].valid && RuleOf(g.ety[k]) == RuleOf(f.ety[k])
    requires FlowOf(g.ety[k]) == flow
    ensures Shows(g, m[RuleOf(f.ety[k]) := flow])
  {
    hide FlowOf;
    var r := RuleOf(f.ety[k]);
    forall j | 0 <= j < |g.ety| && j != k && g.ety[j].valid
      ensures RuleOf(g.ety[j]) != r && g.ety[j] == f.ety[j]
    {
      assert if j < k then RuleOf(f.ety[j]) != r else r != RuleOf(f.ety[j]);
    }
    forall x | x in m
      ensures exists j :: 0 <= j < |g.ety| && g.ety[j].valid && RuleOf(g.ety[j]) == x
    {
      var j :| 0 <= j < |f.ety| && f.ety[j].valid && RuleOf(f.ety[j]) == x;
      assert g.ety[j].valid && RuleOf(g.ety[j]) == x;
    }
    assert g.ety[k].valid;
  }

  lemma ShowsEnd(f: Ifc, g: Ifc, m: Flows, k: nat)
    requires k < |f.ety| && Shows(f, m) && Unique(f.ety) && f.ety[k].valid
    requires |g.ety| == |f.ety| && g.ety == f.ety[k := g.ety[k]] && !g.ety[k].valid
    ensures Shows(g, m - {RuleOf(f.ety[k])})
  {
    hide FlowOf;
    var r := RuleOf(f.ety[k]);
    forall j | 0 <= j < |g.ety| && g.ety[j].valid
      ensures RuleOf(g.ety[j]) != r && g.ety[j] == f.ety[j]
    {
      assert if j < k then RuleOf(f.ety[j]) != r else r != RuleOf(f.ety[j]);
    }
    forall x | x in m && x != r
      ensures exists j :: 0 <= j < |g.ety| && g.ety[j].valid && RuleOf(g.ety[j]) == x
    {
      var j :| 0 <= j < |f.ety| && f.ety[j].valid && RuleOf(f.ety[j]) == x;
      assert g.ety[j].valid && RuleOf(g.ety[j]) == x;
    }
  }

  lemma ShowsNew(f: Ifc, g: Ifc, m: Flows, k: nat)
    requires k < |f.ety| == |g.ety| && Shows(f, m) && !f.ety[k].valid && RuleOf(g.ety[k]) !in m
    requires |g.ety| == |f.ety| && g.ety == f.ety[k := g.ety[k]] && g.ety[k].valid
    ensures Shows(g, m[RuleOf(g.ety[k]) := FlowOf(g.ety[k])])
  {
    hide FlowOf;
    forall x | x in m
      ensures exists j :: 0 <= j < |g.ety| && g.ety[j].valid && RuleOf(g.ety[j]) == x
    {
      var j :| 0 <= j < |f.ety| && f.ety[j].valid && RuleOf(f.ety[j]) == x;
      assert g.ety[j].valid && RuleOf(g.ety[j]) == x;
    }
    assert g.ety[k].valid;
  }

  /** A search by port pair finds the flow's slot exactly when the map has it. */
  lemma FindsFlow(f: Ifc, m: Flows, local: nat, remote: nat)
    requires Shows(f, m)
    ensures var found := Find(f.ety, local, remote, 0);
            && (found.Some? <==> (local, remote) in m)
            && (found.Some? ==> RuleOf(f.ety[found.value]) == (local, remote) && m[(local, remote)] == FlowOf(f.ety[found.value]))
  {
    hide FlowOf;
    if (local, remote) in m {
      var k :| 0 <= k < |f.ety| && f.ety[k].valid && RuleOf(f.ety[k]) == (local, remote);
      assert PortsAre(f.ety[k], local, remote);
    }
  }

  // ---------------------------------------------------------------- the steps

  lemma AddActs(s: Sys, m: Flows, step: Step)
    requires Inv(s) && Shows(s.f, m) && step.Add? && Next(s, step).Some?
    ensures Shows(Next(s, step).value.f, Acts(s, m, step))
  {
    FindsFlow(s.f, m, step.local, step.remote);
    var slot := AddSlot(s.f, step.local, step.remote);
    assert slot.Some? <==> !((step.local, step.remote) in m || forall k :: 0 <= k < 8 ==> s.f.ety[k].valid);
    hide Inv, Find, FirstInvalid, Shows;
    if slot.Some? {
      ShowsNew(s.f, Next(s, step).value.f, m, slot.value);
    } else {
      ShowsSame(s.f, Next(s, step).value.f, m);
    }
  }

  lemma ShowsSame(f: Ifc, g: Ifc, m: Flows)
    requires Shows(f, m) && g.ety == f.ety
    ensures Shows(g, m)
  {
  }

  lemma RcvActs(s: Sys, m: Flows, step: Step)
    requires Inv(s) && Shows(s.f, m) && step.Rcv? && Next(s, step).Some?
    ensures Shows(Next(s, step).value.f, Acts(s, m, step))
  {
    FindsFlow(s.f, m, step.local, step.remote);
    var found, g := Find(s.f.ety, step.local, step.remote, 0), Next(s, step).value.f;
    if found.Some? {
      var k := found.value;
      assert AnyValid(s.f.ety) && SessionOk(s.f.ety[k]);
      ReceiveTouches(s.f, k, step.seen, step.hash, step.rateReached, step.hw);
      ReceivedFlow(s.f, k, step);
      hide Inv, Find, Shows, Receive, Received, FlowOf, AnyValid;
      assert g.ety == s.f.ety[k := g.ety[k]];
      ShowsChange(s.f, g, m, k, FlowOf(g.ety[k]));
    }
  }

  lemma ReceivedFlow(f: Ifc, k: nat, step: Step)
    requires Shape(f) && k < MAX_NUM && f.ety[k].valid && f.hook && step.Rcv?
    ensures var e, flow := Receive(f, k, step.seen, step.hash, step.rateReached, step.hw).ety[k], FlowOf(f.ety[k]);
            var asks := step.rateReached && !flow.ruled;
            && e.valid && RuleOf(e) == RuleOf(f.ety[k])
            && FlowOf(e) == flow.(rx := Latest(flow.rx, step.seen), hash := step.hash,
                                  ruled := flow.ruled || (asks && step.hw.index != 0 && step.hw.actionOk),
                                  skipCopy := flow.skipCopy || (asks && flow.sk.Some?))
  {
    hide GetRing, ReleaseRing;
  }

  lemma XmitActs(s: Sys, m: Flows, step: Step)
    requires Inv(s) && Shows(s.f, m) && step.Xmit? && Next(s, step).Some?
    ensures Shows(Next(s, step).value.f, Acts(s, m, step))
  {
    FindsFlow(s.f, m, step.local, step.remote);
    var found, g := Find(s.f.ety, step.local, step.remote, 0), Next(s, step).value.f;
    if found.Some? {
      var k := found.value;
      assert Unique(s.f.ety) && s.f.ety[k].valid;
      TransmittedFlow(s.f, k, step.seen, step.now);
      hide Inv, Find, Shows, Unique, Transmit, FlowOf;
      ShowsChange(s.f, g, m, k, FlowOf(g.ety[k]));
    }
  }

  lemma TransmittedFlow(f: Ifc, k: nat, seen: Option<nat>, now: nat)
    requires Shape(f) && k < MAX_NUM
    ensures var g, flow := Transmit(f, k, seen, now), FlowOf(f.ety[k]);
            && g.ety == f.ety[k := g.ety[k]] && g.ety[k].valid == f.ety[k].valid && RuleOf(g.ety[k]) == RuleOf(f.ety[k])
            && FlowOf(g.ety[k]) == flow.(tx := Latest(flow.tx, seen), lastTx := now)
  {
  }

  lemma TimeoutActs(s: Sys, m: Flows, step: Step)
    requires Inv(s) && Shows(s.f, m) && step.Timeout? && Next(s, step).Some?
    ensures Shows(Next(s, step).value.f, Acts(s, m, step))
  {
    var k, g := step.k, Next(s, step).value.f;
    if s.f.ety[k].valid && !(step.now < s.f.ety[k].lastTx + EXPIRE_TIME) {
      EndKeepsCore(s.f, k, false, s.f.ety[k].skipCopy);
      assert Unique(s.f.ety);
      hide Inv, Core, EndSession, Shows, Unique, AnyValid;
      assert g.ety == s.f.ety[k := g.ety[k]] && !g.ety[k].valid;
      ShowsEnd(s.f, g, m, k);
      ShowsAt(s.f, m, k);
    } else if s.f.ety[k].valid {
      ShowsAt(s.f, m, k);
      hide Inv, Shows;
    }
  }

  lemma ShowsAt(f: Ifc, m: Flows, k: nat)
    requires Shows(f, m) && k < |f.ety| && f.ety[k].valid
    ensures RuleOf(f.ety[k]) in m && m[RuleOf(f.ety[k])].lastTx == f.ety[k].lastTx
  {
  }

  lemma CleanupActs(s: Sys, m: Flows)
    requires Inv(s) && Shows(s.f, m) && Next(s, Cleanup).Some?
    ensures Shows(Next(s, Cleanup).value.f, map[])
  {
    CleanupKeepsInv(s);
    hide Inv, Next;
  }

  lemma MarkActs(s: Sys, m: Flows)
    requires Inv(s) && Shows(s.f, m) && Next(s, MarkTimers).Some?
    ensures Shows(Next(s, MarkTimers).value.f, m)
  {
    var f, g := s.f, Next(s, MarkTimers).value.f;
    assert g.ety == TimersStopped(f.ety);
    hide Inv, Next;
    forall k | 0 <= k < |f.ety|
      ensures g.ety[k].valid == f.ety[k].valid && RuleOf(g.ety[k]) == RuleOf(f.ety[k]) && FlowOf(g.ety[k]) == FlowOf(f.ety[k])
    {
    }
    forall r | r in m
      ensures exists k :: 0 <= k < |g.ety| && g.ety[k].valid && RuleOf(g.ety[k]) == r
    {
      var k :| 0 <= k < |f.ety| && f.ety[k].valid && RuleOf(f.ety[k]) == r;
      assert g.ety[k].valid && RuleOf(g.ety[k]) == r;
    }
  }

  /** Each step acts on the flows as said. */
  lemma StepActs(s: Sys, m: Flows, step: Step)
    requires Inv(s) && Shows(s.f, m) && Next(s, step).Some?
    ensures |s.f.ety| == 8 && Shows(Next(s, step).value.f, Acts(s, m, step))
  {
    assert Shape(s.f);
    match step {
      case Add(_, _, _, _, _) => AddActs(s, m, step);
      case Rcv(_, _, _, _, _, _) => RcvActs(s, m, step);
      case Xmit(_, _, _, _) => XmitActs(s, m, step);
      case Timeout(_, _) => TimeoutActs(s, m, step);
      case Cleanup => CleanupActs(s, m);
      case MarkTimers => MarkActs(s, m);
      case _ =>
        hide Inv, Shows;
        ShowsSame(s.f, Next(s, step).value.f, m);
    }
  }

  // ---------------------------------------------------------------- runs

  /** The flows after a run. */
  ghost function FlowsAfter(reg: Lro, ready: bool, steps: seq<Step>): Flows {
    if |steps| == 0 then map[]
    else
      var before := Run(reg, ready, steps[..|steps| - 1]);
      if before.Some? && |before.value.f.ety| == 8 then
        Acts(before.value, FlowsAfter(reg, ready, steps[..|steps| - 1]), steps[|steps| - 1])
      else map[]
  }

  /** In every run the live sessions are those flows. */
  lemma {:induction false} RunShowsFlows(reg: Lro, ready: bool, steps: seq<Step>)
    requires Run(reg, ready, steps).Some?
    ensures Shows(Run(reg, ready, steps).value.f, FlowsAfter(reg, ready, steps))
    decreases |steps|
  {
    hide Next, Inv, Acts, Shows;
    RunUnfolds(reg, ready, steps);
    if |steps| == 0 {
      NoFlows(reg, ready);
    } else {
      RunShowsFlows(reg, ready, steps[..|steps| - 1]);
      RunKeepsInv(reg, ready, steps[..|steps| - 1]);
      hide Run;
      StepActs(Run(reg, ready, steps[..|steps| - 1]).value, FlowsAfter(reg, ready, steps[..|steps| - 1]), steps[|steps| - 1]);
    }
  }

  lemma NoFlows(reg: Lro, ready: bool)
    ensures Shows(Init(reg, ready).f, map[])
  {
  }

  // ---------------------------------------------------------------- what keeps a session alive

  /** Slot k holds a session with this port pair. */
  predicate LiveAs(f: Ifc, k: nat, pair: Rule) { k < |f.ety| && f.ety[k].valid && RuleOf(f.ety[k]) == pair }

  /** A step that does not reach back before time t, expire a session seen at t, or clean all up. */
  predicate Within(s: Sys, step: Step, pair: Rule, t: nat) {
    && !step.Cleanup?
    && (step.Timeout? && LiveAs(s.f, step.k, pair) ==> step.now < t + HZ)
    && (step.Xmit? && (step.local, step.remote) == pair ==> step.now >= t)
  }

  /**
   A session seen at t, by the add or by a transmit, is still live after any step that comes before t plus a second,
   with its socket, and with its rule if it had one.
   */
  lemma SeenStaysLive(s: Sys, m: Flows, step: Step, pair: Rule, t: nat)
    requires Inv(s) && Shows(s.f, m) && Next(s, step).Some? && Within(s, step, pair, t)
    requires pair in m && m[pair].lastTx >= t
    ensures |s.f.ety| == 8
    ensures var m' := Acts(s, m, step);
            pair in m' && m'[pair].lastTx >= t && m'[pair].sk == m[pair].sk && (m[pair].ruled ==> m'[pair].ruled)
  {
    assert Shape(s.f);
    hide Inv, Next, Shows;
  }

  /** Over runs: from a step that sees the session at t on, until a timeout a second later. */
  lemma {:induction false} SeenSessionSurvives(reg: Lro, ready: bool, steps: seq<Step>, more: seq<Step>, pair: Rule, t: nat)
    requires Run(reg, ready, steps + more).Some? && Run(reg, ready, steps).Some?
    requires var m := FlowsAfter(reg, ready, steps); pair in m && m[pair].lastTx >= t
    requires forall n :: 0 <= n < |more| ==>
               Run(reg, ready, steps + more[..n]).Some? && Within(Run(reg, ready, steps + more[..n]).value, more[n], pair, t)
    ensures var m, m' := FlowsAfter(reg, ready, steps), FlowsAfter(reg, ready, steps + more);
            pair in m' && m'[pair].lastTx >= t && m'[pair].sk == m[pair].sk && (m[pair].ruled ==> m'[pair].ruled)
    ensures exists k :: LiveAs(Run(reg, ready, steps + more).value.f, k, pair)
    decreases |more|
  {
    hide Run, FlowsAfter, Acts, Within, Next;
    if |more| == 0 {
      assert steps + more == steps;
    } else {
      var init, n := more[..|more| - 1], |more| - 1;
      assert more[..n] == init;
      forall j | 0 <= j < n
        ensures steps + init[..j] == steps + more[..j]
      {
        assert init[..j] == more[..j];
      }
      SeenSessionSurvives(reg, ready, steps, init, pair, t);
      assert steps + more == steps + init + [more[n]];
      LastAct(reg, ready, steps + init, more[n]);
      RunKeepsInv(reg, ready, steps + init);
      RunShowsFlows(reg, ready, steps + init);
      SeenStaysLive(Run(reg, ready, steps + init).value, FlowsAfter(reg, ready, steps + init), more[n], pair, t);
    }
    RunShowsFlows(reg, ready, steps + more);
    FlowIsLive(Run(reg, ready, steps + more).value.f, FlowsAfter(reg, ready, steps + more), pair);
  }

  lemma FlowIsLive(f: Ifc, m: Flows, pair: Rule)
    requires Shows(f, m) && pair in m
    ensures exists k :: LiveAs(f, k, pair)
  {
    var k :| 0 <= k < |f.ety| && f.ety[k].valid && RuleOf(f.ety[k]) == pair;
    assert LiveAs(f, k, pair);
  }

  lemma LastAct(reg: Lro, ready: bool, steps: seq<Step>, step: Step)
    requires Run(reg, ready, steps + [step]).Some?
    ensures Run(reg, ready, steps).Some? && Next(Run(reg, ready, steps).value, step).Some?
    ensures |Run(reg, ready, steps).value.f.ety| == 8 ==>
              FlowsAfter(reg, ready, steps + [step]) == Acts(Run(reg, ready, steps).value, FlowsAfter(reg, ready, steps), step)
  {
    hide Next, Acts;
    RunUnfolds(reg, ready, steps + [step]);
    assert (steps + [step])[..|steps|] == steps;
  }

  /** A timeout a second or more after the session was last seen ends it, and takes its rule out of the hardware. */
  lemma SilentSessionEnds(s: Sys, m: Flows, k: nat, now: nat, pair: Rule)
    requires Inv(s) && Shows(s.f, m) && LiveAs(s.f, k, pair) && pair in m && now >= m[pair].lastTx + HZ
    ensures Next(s, Timeout(k, now)).Some?
    ensures var f := Next(s, Timeout(k, now)).value.f;
            (forall j :: !LiveAs(f, j, pair)) && pair !in f.rules
  {
    StepActs(s, m, Timeout(k, now));
    StepKeepsInv(s, Timeout(k, now));
    var f, m' := Next(s, Timeout(k, now)).value.f, Acts(s, m, Timeout(k, now));
    assert pair !in m';
    assert RulesOk(f.ety, f.rules);
    hide Inv, Next, Acts;
    forall j: nat
      ensures !LiveAs(f, j, pair)
    {
    }
    assert !HasRule(f.ety, pair) by {
      assert forall j :: 0 <= j < |f.ety| ==> !LiveAs(f, j, pair);
    }
  }

  // ---------------------------------------------------------------- hook and keep-alive

  /** In every run the hardware hook is set exactly from enable until the cleanup is over. */
  lemma {:induction false} HookFollowsPhase(reg: Lro, ready: bool, steps: seq<Step>)
    requires Run(reg, ready, steps).Some?
    ensures Run(reg, ready, steps).value.f.hook <==> !Run(reg, ready, steps).value.phase.Off?
    decreases |steps|
  {
    RunUnfolds(reg, ready, steps);
    if |steps| > 0 {
      HookFollowsPhase(reg, ready, steps[..|steps| - 1]);
      RunKeepsInv(reg, ready, steps[..|steps| - 1]);
      hide Run;
      HookStep(Run(reg, ready, steps[..|steps| - 1]).value, steps[|steps| - 1]);
    }
  }

  lemma HookStep(s: Sys, step: Step)
    requires Inv(s) && (s.f.hook <==> !s.phase.Off?) && Next(s, step).Some?
    ensures Next(s, step).value.f.hook <==> !Next(s, step).value.phase.Off?
  {
    if step.Cleanup? { EndBelowKeeps(s, 8); }
    assert Shape(s.f);
    hide *;
    match step
    case Rcv(local, remote, _, _, _, _) => ReceiveHook(s, step);
    case Timeout(k, _) => TimeoutHook(s, step);
    case Cleanup => CleanupHook(s);
    case _ => PlainHook(s, step);
  }

  lemma ReceiveHook(s: Sys, step: Step)
    requires Shape(s.f) && step.Rcv? && Next(s, step).Some?
    ensures Next(s, step).value.f.hook == s.f.hook && Next(s, step).value.phase == s.phase
  {
    hide GetRing, ReleaseRing, Find, Take;
  }

  lemma TimeoutHook(s: Sys, step: Step)
    requires Shape(s.f) && step.Timeout? && Next(s, step).Some?
    ensures Next(s, step).value.f.hook == s.f.hook && Next(s, step).value.phase == s.phase
  {
    hide ReleaseRing, AnyValid;
  }

  lemma CleanupHook(s: Sys)
    requires Shape(s.f) && Next(s, Cleanup).Some? && EndBelow(s.f, 8).hook == s.f.hook
    ensures Next(s, Cleanup).value.f.hook == s.f.hook && Next(s, Cleanup).value.phase == Drained && s.phase == Marked
  {
    hide EndBelow, HoldersBelow;
  }

  lemma PlainHook(s: Sys, step: Step)
    requires Shape(s.f) && !step.Rcv? && !step.Timeout? && !step.Cleanup? && Next(s, step).Some?
    requires s.f.hook <==> !s.phase.Off?
    ensures Next(s, step).value.f.hook <==> !Next(s, step).value.phase.Off?
  {
    hide Find, FirstInvalid, Take, Drop, CanDrop, TimersStopped;
  }

  /** A keep-alive answer takes a reference on the session's transmit route for as long as it uses it, if there is one. */
  lemma PingpongUsesTx(s: Sys, m: Flows, local: nat, remote: nat)
    requires Inv(s) && Shows(s.f, m)
    ensures Next(s, Pingpong(local, remote)).Some?
    ensures var t := Next(s, Pingpong(local, remote)).value;
            if (local, remote) in m && m[(local, remote)].tx.Some? then
              var route := m[(local, remote)].tx;
              t.f == s.f && t.holders == s.holders + [Holder(None, route, None)] && t.dsts == s.dsts + multiset{route.value}
            else t == s
  {
    FindsFlow(s.f, m, local, remote);
    hide Find, Shows;
  }
}
