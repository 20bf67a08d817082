/**
 arht_wifi_lo.c slot by slot: what each step of a run does to what a slot says. The steps take a session as said here,
 whatever indexes, callbacks and reference counts they go through.
 */
module WifiLoSlots {
  import opened Wrappers
  import opened Tally
  import opened WifiLoTable
  import opened WifiLoRuns

  /** The device a slot caches, and whether it was published as a wifi one. */
  datatype Cached = Cached(dev: nat, wifi: bool)

  datatype View =
    | Dead(cached: Option<Cached>, marked: bool)
    | Live(lport: nat, rport: nat, sk: Option<nat>, dst: Option<nat>, lastTx: nat, hash: nat, cached: Option<Cached>, marked: bool)

  /** The slot says what the view says; IS_WIFI is set exactly when the cached device was published as wifi. */
  predicate Says(x: Slot, v: View) {
    && x.dev == (if v.cached.Some? then Some(v.cached.value.dev) else None)
    && (x.isWifi <==> v.cached.Some? && v.cached.value.wifi)
    && x.skipCopy == v.marked && x.valid == v.Live?
    && (v.Live? ==> x.lport == v.lport && x.rport == v.rport && x.sk == v.sk && x.txDst == v.dst && x.lastTx == v.lastTx && x.hash == v.hash)
  }

  /** The slot an add takes: the lowest that is neither live nor has a callback out. */
  predicate IsNext(s: Sys, i: nat)
    requires |s.tbl.slots| == 32 && |s.queued| == 32 && i < 32
  {
    && !s.tbl.slots[i].valid && s.queued[i].None?
    && forall j :: 0 <= j < i ==> s.tbl.slots[j].valid || s.queued[j].Some?
  }

  /** The slot found for a port pair: a live one with these ports. */
  predicate IsFor(s: Sys, i: nat, lport: nat, rport: nat)
    requires |s.tbl.slots| == 32 && |s.tbl.ports| == 32
  {
    PortLookup(s.tbl, lport, rport) == Some(i)
  }

  /** What a step does to what slot i says. */
  function After(s: Sys, i: nat, v: View, step: Step): View
    requires |s.tbl.slots| == 32 && |s.queued| == 32 && |s.tbl.ports| == 32 && i < 32
  {
    match step
    case AddLock(t, now) =>
      if t < |s.threads| && s.threads[t].AddHeld? && IsNext(s, i) then
        Live(s.threads[t].lport, s.threads[t].rport, s.threads[t].sk, s.threads[t].dst, now, 0, None, false)
      else v
    case TimerFire(k, now) =>
      if k == i && v.Live? && now >= v.lastTx + HZ then Dead(None, v.marked) else v
    case TxTouch(lport, rport, now) =>
      // the difference is unsigned, so a clock behind last_tx counts as far ahead
      if IsFor(s, i, lport, rport) && v.Live? && (now < v.lastTx || now >= v.lastTx + 25) then v.(lastTx := now) else v
    case LocalPublish(r, dev, bridge, wifiOnly, wifi) =>
      if r < |s.readers| && s.readers[r] == Seen(i) && v.cached.None? && !bridge && (wifi || !wifiOnly) then
        v.(cached := Some(Cached(dev, wifi)))
      else v
    case HashPublish(k, hash) => if k == i && v.Live? && v.hash == 0 then v.(hash := hash) else v
    case ReaderTestSet(r) =>
      if r < |s.readers| && s.readers[r].SkLoaded? && s.readers[r].slot == i then v.(marked := true) else v
    case _ => v
  }

  lemma AddLockActs(s: Sys, i: nat, v: View, step: Step)
    requires Inv(s) && i < 32 && Says(s.tbl.slots[i], v) && step.AddLock? && Next(s, step).Some?
    ensures Shape(s) && Shape(Next(s, step).value) && Says(Next(s, step).value.tbl.slots[i], After(s, i, v, step))
  {
    forall j | 0 <= j < 32
      ensures Reusable(s.tbl.slots[j]) <==> !s.tbl.slots[j].valid && s.queued[j].None?
    {
      assert SlotOk(s.tbl.slots[j], s.queued[j].Some?);
    }
    assert Shape(s);
    hide Inv, HashAdd, Linked;
    var free := FreeFrom(s.tbl.slots, 0);
    assert free == Some(i) <==> IsNext(s, i);
    hide FreeFrom;
  }

  lemma TimerActs(s: Sys, i: nat, v: View, step: Step)
    requires Inv(s) && i < 32 && Says(s.tbl.slots[i], v) && step.TimerFire? && Next(s, step).Some?
    ensures Shape(s) && Shape(Next(s, step).value) && Says(Next(s, step).value.tbl.slots[i], After(s, i, v, step))
  {
    assert Shape(s);
    hide Inv, HashDel, Says;
    var x := s.tbl.slots[i];
    var ends := step.i == i && x.valid && step.now >= x.lastTx + EXPIRE_TIME;
    SlotAfterTimer(s, step, i);
    hide Next, ExpiredSlot;
    SaysFields(x, v);
    if ends { SaysEnded(x, v); }
  }

  lemma SlotAfterTimer(s: Sys, step: Step, i: nat)
    requires Shape(s) && i < 32 && step.TimerFire? && Next(s, step).Some?
    ensures var t, x := Next(s, step).value, s.tbl.slots[i];
            && Shape(t)
            && t.tbl.slots[i] == if step.i == i && x.valid && step.now >= x.lastTx + EXPIRE_TIME then ExpiredSlot(x) else x
  {
    hide HashDel, ExpiredSlot;
  }

  lemma SaysFields(x: Slot, v: View)
    requires Says(x, v)
    ensures x.valid == v.Live? && (v.Live? ==> x.lastTx == v.lastTx)
  {
  }

  lemma SaysEnded(x: Slot, v: View)
    requires Says(x, v)
    ensures Says(ExpiredSlot(x), Dead(None, v.marked))
  {
  }

  lemma TouchActs(s: Sys, i: nat, v: View, step: Step)
    requires Inv(s) && i < 32 && Says(s.tbl.slots[i], v) && step.TxTouch? && Next(s, step).Some?
    ensures Shape(s) && Shape(Next(s, step).value) && Says(Next(s, step).value.tbl.slots[i], After(s, i, v, step))
  {
    PortLookupIsScan(s.tbl, step.lport, step.rport);
    assert Shape(s);
    hide Inv, PortLookup;
  }

  lemma PublishActs(s: Sys, i: nat, v: View, step: Step)
    requires Inv(s) && i < 32 && Says(s.tbl.slots[i], v) && step.LocalPublish? && Next(s, step).Some?
    ensures Shape(s) && Shape(Next(s, step).value) && Says(Next(s, step).value.tbl.slots[i], After(s, i, v, step))
  {
    assert Shape(s);
    hide Inv;
    SlotAfterPublish(s, step, i);
    hide Next;
  }

  lemma SlotAfterPublish(s: Sys, step: Step, i: nat)
    requires Shape(s) && i < 32 && step.LocalPublish? && Next(s, step).Some?
    ensures var t, x := Next(s, step).value, s.tbl.slots[i];
            && Shape(t)
            && t.tbl.slots[i] ==
               if s.readers[step.r] == Seen(i) && !step.bridge && (step.wifi || !step.wifiOnly) && x.dev.None?
               then x.(dev := Some(step.dev), isWifi := x.isWifi || step.wifi) else x
  {
    hide Take;
  }

  lemma HashActs(s: Sys, i: nat, v: View, step: Step)
    requires Inv(s) && i < 32 && Says(s.tbl.slots[i], v) && step.HashPublish? && Next(s, step).Some?
    ensures Shape(s) && Shape(Next(s, step).value) && Says(Next(s, step).value.tbl.slots[i], After(s, i, v, step))
  {
    assert Shape(s);
    hide Inv, HashAdd, Linked;
  }

  lemma CallbackActs(s: Sys, i: nat, v: View, step: Step)
    requires Inv(s) && i < 32 && Says(s.tbl.slots[i], v) && step.CallbackRun? && Next(s, step).Some?
    ensures Shape(s) && Shape(Next(s, step).value) && Says(Next(s, step).value.tbl.slots[i], v)
  {
    assert Shape(s);
    hide Inv, GraceOver;
  }

  lemma TestSetActs(s: Sys, i: nat, v: View, step: Step)
    requires Inv(s) && i < 32 && Says(s.tbl.slots[i], v) && step.ReaderTestSet? && Next(s, step).Some?
    ensures Shape(s) && Shape(Next(s, step).value) && Says(Next(s, step).value.tbl.slots[i], After(s, i, v, step))
  {
    assert Shape(s);
    hide Inv;
  }

  predicate LeavesTable(step: Step) {
    !step.AddLock? && !step.TimerFire? && !step.TxTouch? && !step.LocalPublish? && !step.HashPublish? && !step.CallbackRun?
    && !step.ReaderTestSet?
  }

  lemma TableIsLeft(s: Sys, step: Step)
    requires Shape(s) && LeavesTable(step) && Next(s, step).Some?
    ensures Next(s, step).value.tbl == s.tbl && Shape(Next(s, step).value)
  {
    if IsReaderStep(step) {
      ReaderLeavesTable(s, step);
    } else {
      hide DoAddLock, DoExpire, PortLookup, Take, Drop, CanDrop, GraceOver, Stamp, PublishDev;
    }
  }

  lemma ReaderLeavesTable(s: Sys, step: Step)
    requires Shape(s) && IsReaderStep(step) && !step.ReaderTestSet? && Next(s, step).Some?
    ensures Next(s, step).value.tbl == s.tbl && Shape(Next(s, step).value)
  {
    hide PortLookup, HashLookup, Take, Drop;
  }

  /** Each step acts on each slot as said. */
  lemma StepActs(s: Sys, i: nat, v: View, step: Step)
    requires Inv(s) && i < 32 && Shape(s) && Says(s.tbl.slots[i], v) && Next(s, step).Some?
    ensures Shape(Next(s, step).value) && Says(Next(s, step).value.tbl.slots[i], After(s, i, v, step))
  {
    hide Inv, Says, Next, IsNext, IsFor;
    if LeavesTable(step) {
      TableIsLeft(s, step);
    } else if step.AddLock? {
      AddLockActs(s, i, v, step);
    } else if step.TimerFire? {
      TimerActs(s, i, v, step);
    } else if step.TxTouch? {
      TouchActs(s, i, v, step);
    } else if step.LocalPublish? {
      PublishActs(s, i, v, step);
    } else if step.HashPublish? {
      HashActs(s, i, v, step);
    } else if step.CallbackRun? {
      CallbackActs(s, i, v, step);
    } else {
      TestSetActs(s, i, v, step);
    }
  }

  // ---------------------------------------------------------------- runs

  /** What slot i says after a run. */
  ghost function Told(steps: seq<Step>, i: nat): View
    requires i < 32
  {
    if |steps| == 0 then Dead(None, false)
    else
      var before := Run(steps[..|steps| - 1]);
      if before.Some? && Shape(before.value) then After(before.value, i, Told(steps[..|steps| - 1], i), steps[|steps| - 1])
      else Dead(None, false)
  }

  lemma {:induction false} RunSays(steps: seq<Step>, i: nat)
    requires Run(steps).Some? && i < 32
    ensures Shape(Run(steps).value) && Says(Run(steps).value.tbl.slots[i], Told(steps, i))
    decreases |steps|
  {
    hide Next, Inv, After, Says;
    if |steps| == 0 {
      InitSays(i);
    } else {
      RunSays(steps[..|steps| - 1], i);
      RunKeepsInv(steps[..|steps| - 1]);
      StepActs(Run(steps[..|steps| - 1]).value, i, Told(steps[..|steps| - 1], i), steps[|steps| - 1]);
    }
  }

  lemma InitSays(i: nat)
    requires i < 32
    ensures Shape(Init()) && Says(Init().tbl.slots[i], Dead(None, false))
  {
  }

  // ---------------------------------------------------------------- which devices may be cached

  /** Some step published d: not a bridge, and a wifi device if only those are wanted. */
  ghost predicate WasPublished(steps: seq<Step>, d: nat) {
    exists n :: 0 <= n < |steps| && steps[n].LocalPublish? && steps[n].dev == d && !steps[n].bridge
                && (steps[n].wifiOnly ==> steps[n].wifi)
  }

  /** The module has d in a slot, pending release, in a reader's or a callback's hands, or leaked. */
  ghost predicate Knows(s: Sys, d: nat) {
    || (exists i :: 0 <= i < |s.tbl.slots| && s.tbl.slots[i].dev == Some(d))
    || (exists i :: 0 <= i < |s.tbl.slots| && s.tbl.slots[i].pending == Some(d))
    || (exists r :: 0 <= r < |s.readers| && s.readers[r].Loaded? && s.readers[r].dev == d)
    || (exists r :: 0 <= r < |s.readers| && ReaderDev(s.readers[r]) == Some(d))
    || (exists t :: 0 <= t < |s.threads| && ThreadDev(s.threads[t]) == Some(d))
    || d in s.leaked
  }

  lemma KnownIsOut(s: Sys, d: nat)
    requires Inv(s) && Knows(s, d)
    ensures d in s.devs
  {
    if i :| 0 <= i < |s.tbl.slots| && s.tbl.slots[i].dev == Some(d) {
      RefsPositive(s.tbl.slots, i, SlotDev, d);
    } else if i :| 0 <= i < |s.tbl.slots| && s.tbl.slots[i].pending == Some(d) {
      RefsPositive(s.tbl.slots, i, SlotPending, d);
    } else if r :| 0 <= r < |s.readers| && s.readers[r].Loaded? && s.readers[r].dev == d {
      HoldIsSafe(s, r);
    } else if r :| 0 <= r < |s.readers| && ReaderDev(s.readers[r]) == Some(d) {
      RefsPositive(s.readers, r, ReaderDev, d);
    } else if t :| 0 <= t < |s.threads| && ThreadDev(s.threads[t]) == Some(d) {
      RefsPositive(s.threads, t, ThreadDev, d);
    } else {
      var n :| 0 <= n < |s.leaked| && s.leaked[n] == d;
      RefsPositive(s.leaked, n, Itself, d);
    }
    hide IndexOk, SlotsOk, ReadersOk, SocksOk, DstsOk, LateOk, CountOk, KeyOk;
  }

  /** A reference to a new device comes from a publish only. */
  lemma NewDevice(s: Sys, step: Step, d: nat)
    requires Inv(s) && Next(s, step).Some? && d in Next(s, step).value.devs && d !in s.devs
    ensures step.LocalPublish? && step.dev == d && !step.bridge && (step.wifiOnly ==> step.wifi)
  {
    if step.LocalPublish? {
      hide Inv, PublishDev;
    } else if step.ReaderHold? {
      HoldIsSafe(s, step.r);
      hide Inv;
    } else if IsReaderStep(step) {
      ReaderDevices(s, step, d);
    } else {
      OtherDevices(s, step, d);
    }
  }

  lemma ReaderDevices(s: Sys, step: Step, d: nat)
    requires Shape(s) && IsReaderStep(step) && !step.ReaderHold? && Next(s, step).Some? && d in Next(s, step).value.devs
    ensures d in s.devs
  {
    hide PortLookup, HashLookup, Take;
  }

  lemma TimerDevices(s: Sys, step: Step, d: nat)
    requires Shape(s) && step.TimerFire? && Next(s, step).Some? && d in Next(s, step).value.devs
    ensures d in s.devs
  {
    hide Expire;
  }

  lemma CallbackDevices(s: Sys, step: Step, d: nat)
    requires Shape(s) && (step.CallbackPut? || step.CallbackRun?) && Next(s, step).Some? && d in Next(s, step).value.devs
    ensures d in s.devs
  {
    hide GraceOver;
  }

  lemma OtherDevices(s: Sys, step: Step, d: nat)
    requires Shape(s) && !step.LocalPublish? && !IsReaderStep(step) && Next(s, step).Some? && d in Next(s, step).value.devs
    ensures d in s.devs
  {
    if step.TimerFire? {
      TimerDevices(s, step, d);
    } else if step.CallbackPut? || step.CallbackRun? {
      CallbackDevices(s, step, d);
    } else {
      hide DoAddLock, PortLookup, Stamp, GraceOver, Take, Drop, CanDrop, Linked;
    }
  }

  /** Over every run: whatever device the module has anywhere was published as the switch and the bridge allow. */
  lemma {:induction false} DevicesWerePublished(steps: seq<Step>, d: nat)
    requires Run(steps).Some? && d in Run(steps).value.devs
    ensures WasPublished(steps, d)
    decreases |steps|
  {
    hide Next, Inv;
    if |steps| == 0 {
      InitHasNone(d);
    } else {
      var init, n := steps[..|steps| - 1], |steps| - 1;
      RunKeepsInv(init);
      if d in Run(init).value.devs {
        DevicesWerePublished(init, d);
        var k :| 0 <= k < |init| && init[k].LocalPublish? && init[k].dev == d && !init[k].bridge && (init[k].wifiOnly ==> init[k].wifi);
        assert steps[k] == init[k];
      } else {
        NewDevice(Run(init).value, steps[n], d);
      }
    }
  }

  lemma InitHasNone(d: nat)
    ensures d !in Init().devs
  {
  }

  lemma KnownDevicesWerePublished(steps: seq<Step>, d: nat)
    requires Run(steps).Some? && Knows(Run(steps).value, d)
    ensures WasPublished(steps, d)
  {
    hide *;
    RunKeepsInv(steps);
    KnownIsOut(Run(steps).value, d);
    DevicesWerePublished(steps, d);
  }

  // ---------------------------------------------------------------- what keeps a session alive

  /** A step before time t plus a second that does not take the clock behind t. */
  predicate Within(s: Sys, i: nat, step: Step, t: nat)
    requires |s.tbl.slots| == 32 && |s.tbl.ports| == 32
  {
    && (step.TimerFire? && step.i == i ==> step.now < t + HZ)
    && (step.TxTouch? && IsFor(s, i, step.lport, step.rport) ==> step.now >= t)
  }

  /**
   A live slot last seen at t or later stays the same session with its socket and route while every timer of it fires
   before t plus a second.
   */
  lemma SeenStaysLive(s: Sys, i: nat, v: View, step: Step, t: nat)
    requires Inv(s) && Shape(s) && i < 32 && Says(s.tbl.slots[i], v) && Within(s, i, step, t) && v.Live? && v.lastTx >= t
    ensures var v' := After(s, i, v, step);
            && v'.Live? && v'.lastTx >= t && v'.sk == v.sk && v'.dst == v.dst && v'.lport == v.lport && v'.rport == v.rport
            && (v.cached.Some? ==> v'.cached == v.cached) && (v.hash != 0 ==> v'.hash == v.hash)
  {
    hide Inv;
  }

  /** A transmit sees the session: its stamp is then less than a quarter of a second old. */
  lemma TransmitIsSeen(s: Sys, i: nat, v: View, lport: nat, rport: nat, now: nat)
    requires Shape(s) && i < 32 && v.Live? && IsFor(s, i, lport, rport)
    ensures var v' := After(s, i, v, TxTouch(lport, rport, now)); v'.Live? && v'.lastTx <= now < v'.lastTx + 25
  {
  }

  /** A timer a second or more after the stamp ends the session, and leaves the slot without socket, route or device. */
  lemma SilentSessionEnds(s: Sys, i: nat, v: View, now: nat)
    requires Inv(s) && Shape(s) && i < 32 && Says(s.tbl.slots[i], v) && v.Live? && now >= v.lastTx + HZ
    ensures Next(s, TimerFire(i, now)).Some? && Shape(Next(s, TimerFire(i, now)).value)
    ensures var x := Next(s, TimerFire(i, now)).value.tbl.slots[i];
            !x.valid && x.sk.None? && x.txDst.None? && x.dev.None? && !x.isWifi
  {
    StepActs(s, i, v, TimerFire(i, now));
    StepKeepsInv(s, TimerFire(i, now));
    var t := Next(s, TimerFire(i, now)).value;
    assert SlotOk(t.tbl.slots[i], t.queued[i].Some?);
    hide Inv, Next;
  }

  /** Over runs: a session last seen at t or later is still there after any steps before t plus a second. */
  lemma {:induction false} SeenSessionSurvives(steps: seq<Step>, more: seq<Step>, i: nat, t: nat)
    requires i < 32 && Run(steps).Some? && Run(steps + more).Some?
    requires Told(steps, i).Live? && Told(steps, i).lastTx >= t
    requires forall n :: 0 <= n < |more| ==>
               var before := Run(steps + more[..n]);
               before.Some? && Shape(before.value) && Within(before.value, i, more[n], t)
    ensures var v, v' := Told(steps, i), Told(steps + more, i);
            && v'.Live? && v'.lastTx >= t && v'.sk == v.sk && v'.dst == v.dst && v'.lport == v.lport && v'.rport == v.rport
            && (v.cached.Some? ==> v'.cached == v.cached)
    ensures Shape(Run(steps + more).value) && Run(steps + more).value.tbl.slots[i].valid
    decreases |more|
  {
    hide Run, Told, After, Within, Next, Shape, Inv, Says;
    if |more| == 0 {
      assert steps + more == steps;
    } else {
      var init, n := more[..|more| - 1], |more| - 1;
      assert more[..n] == init && steps + more == steps + init + [more[n]];
      forall j | 0 <= j < n
        ensures steps + init[..j] == steps + more[..j]
      {
        assert init[..j] == more[..j];
      }
      LastStep(steps + init, more[n], i);
      SeenSessionSurvives(steps, init, i, t);
      RunKeepsInv(steps + init);
      RunSays(steps + init, i);
      SeenStaysLive(Run(steps + init).value, i, Told(steps + init, i), more[n], t);
    }
    RunSays(steps + more, i);
    SaysLive(Run(steps + more).value, i, Told(steps + more, i));
  }

  lemma SaysLive(s: Sys, i: nat, v: View)
    requires Shape(s) && i < 32 && Says(s.tbl.slots[i], v)
    ensures s.tbl.slots[i].valid == v.Live?
  {
  }

  lemma LastStep(steps: seq<Step>, step: Step, i: nat)
    requires i < 32 && Run(steps + [step]).Some?
    ensures Run(steps).Some? && Shape(Run(steps).value) && Told(steps + [step], i) == After(Run(steps).value, i, Told(steps, i), step)
  {
    assert (steps + [step])[..|steps|] == steps;
    hide Next, After;
  }
}
