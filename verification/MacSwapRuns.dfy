/**
 Runs of arht_loopback.c's mac_swap switch with the Ethernet device coming and going: each write finds it there or not.
 */
module MacSwapRuns {
  import opened Wrappers
  import opened Digits
  import opened L2bEtherType
  import opened MacSwap

  datatype Write = Write(val: bool, present: bool)

  function Written(s: Swap, w: Write): (s': Swap)
    requires Shaped(s)
    ensures Shaped(s')
  {
    if w.present then WriteMacSwap(s, w.val).0 else WriteAbsent(s, w.val).0
  }

  function RunWith(s: Swap, ws: seq<Write>): (s': Swap)
    requires Shaped(s)
    ensures Shaped(s')
    decreases |ws|
  {
    if ws == [] then s else Written(RunWith(s, ws[..|ws| - 1]), ws[|ws| - 1])
  }

  /** The switch was turned off once while the device was away. */
  ghost predicate Forgot(s: Swap, ws: seq<Write>)
    requires Shaped(s)
  {
    exists n :: 0 <= n < |ws| && TurnsOffAway(s, ws, n)
  }

  predicate TurnsOffAway(s: Swap, ws: seq<Write>, n: nat)
    requires Shaped(s) && n < |ws|
  {
    !ws[n].val && !ws[n].present && RunWith(s, ws[..n]).on
  }

  /** The keys of every stage from k on are on the blacklist. */
  ghost predicate AllListed(s: Swap, k: nat)
    requires Shaped(s)
  {
    forall j: nat :: k <= j < STAGES ==> Has(s.regs, StageKey(j))
  }

  /** An enable that finds all its keys there puts none there and remembers none. */
  lemma {:induction false} EnableFindsAll(s: Swap, k: nat)
    requires Ready(s) && k <= STAGES && FreshFrom(s, k) && AllListed(s, k)
    ensures EnableFrom(s, k) == (s.(on := true), None)
    decreases STAGES - k
  {
    if k < STAGES {
      AddKeepsReady(s, k);
      SetAutoInserts(s.regs, StageKey(k));
      EnableFindsAll(s, k + 1);
      hide Ready, Has, SetAuto, StageKey;
    }
  }

  lemma {:induction false} DisableForgetsNothing(s: Swap, k: nat)
    requires Shaped(s) && k <= STAGES && FreshFrom(s, k)
    ensures DisableFrom(s, k) == s.(on := false)
    decreases STAGES - k
  {
    if k < STAGES { DisableForgetsNothing(s, k + 1); }
  }

  /** Once the keys are there and no index remembers them, no write takes them off again. */
  lemma StrandedStep(s: Swap, w: Write)
    requires Ready(s) && FreshFrom(s, 0) && AllListed(s, 0)
    ensures Written(s, w).regs == s.regs && FreshFrom(Written(s, w), 0)
  {
    hide Ready, AllListed, EnableFrom, DisableFrom, Shape;
    EnableFindsAll(s, 0);
    DisableForgetsNothing(s, 0);
  }

  /** After a successful enable every key is there. */
  lemma EnabledListsAll(s: Swap)
    requires Ready(s) && Off(s) && EnableFrom(s, 0).1.None?
    ensures Ready(EnableFrom(s, 0).0) && AllListed(EnableFrom(s, 0).0, 0)
  {
    EnableInserts(s, 0);
    hide EnableFrom, Has, Good, StageKey;
    forall j: nat | j < STAGES
      ensures Listed(StageKey(j), 0)
    {
    }
  }

  /**
   Over every run: unless the switch was turned off while the device was away, the registers and indices are the first
   ones or those of one enable; if it was, the keys stay on the blacklist for good.
   */
  lemma {:induction false} RunsWithDevice(s: Swap, ws: seq<Write>)
    requires Ready(s) && Off(s)
    ensures var r, (e, error) := RunWith(s, ws), EnableFrom(s, 0);
            && (!Forgot(s, ws) ==> r == s || (error.None? && r == e))
            && (Forgot(s, ws) ==> error.None? && r.regs == e.regs && FreshFrom(r, 0))
    decreases |ws|
  {
    hide *;
    if ws == [] {
      RunsUnfold(s, ws);
    } else {
      var init, w := ws[..|ws| - 1], ws[|ws| - 1];
      RunsWithDevice(s, init);
      RunsUnfold(s, ws);
      ForgotStep(s, ws);
      if Forgot(s, init) {
        EnabledListsAll(s);
        SameRegisters(RunWith(s, init), EnableFrom(s, 0).0);
        StrandedStep(RunWith(s, init), w);
      } else {
        OneWrite(s, RunWith(s, init), w);
      }
    }
  }

  lemma RunsUnfold(s: Swap, ws: seq<Write>)
    requires Shaped(s)
    ensures RunWith(s, ws) == if ws == [] then s else Written(RunWith(s, ws[..|ws| - 1]), ws[|ws| - 1])
    ensures ws == [] ==> !Forgot(s, ws)
  {
    hide Written, Shape, TurnsOffAway;
  }

  /** One write to a switch that is as at first or as one enable makes it. */
  lemma OneWrite(s: Swap, r: Swap, w: Write)
    requires Ready(s) && Off(s) && (r == s || (EnableFrom(s, 0).1.None? && r == EnableFrom(s, 0).0))
    ensures var r', (e, error) := Written(r, w), EnableFrom(s, 0);
            if !w.val && !w.present && r.on then error.None? && r'.regs == e.regs && FreshFrom(r', 0)
            else r' == s || (error.None? && r' == e)
  {
    hide Ready, Has, Good, Installed, EnableFrom, DisableFrom, AllListed, Shape;
    FailedEnableChangesNothing(s, 0);
    if EnableFrom(s, 0).1.None? {
      DisableUndoesEnable(s, 0);
      EnableInserts(s, 0);
    }
  }

  lemma SameRegisters(r: Swap, e: Swap)
    requires Shaped(r) && r.regs == e.regs && Ready(e) && AllListed(e, 0)
    ensures Ready(r) && AllListed(r, 0)
  {
  }

  lemma ForgotStep(s: Swap, ws: seq<Write>)
    requires Shaped(s) && ws != []
    ensures var init, w := ws[..|ws| - 1], ws[|ws| - 1];
            Forgot(s, ws) <==> Forgot(s, init) || (!w.val && !w.present && RunWith(s, init).on)
  {
    hide *;
    var init := ws[..|ws| - 1];
    forall n | 0 <= n < |init|
      ensures TurnsOffAway(s, ws, n) <==> TurnsOffAway(s, init, n)
    {
      EarlierTurn(s, ws, n);
    }
    LastTurn(s, ws);
    ForgotMeans(s, ws);
    ForgotMeans(s, init);
  }

  lemma ForgotMeans(s: Swap, ws: seq<Write>)
    requires Shaped(s)
    ensures Forgot(s, ws) <==> exists n :: 0 <= n < |ws| && TurnsOffAway(s, ws, n)
  {
    hide TurnsOffAway, Shaped;
  }

  lemma EarlierTurn(s: Swap, ws: seq<Write>, n: nat)
    requires Shaped(s) && n < |ws| - 1
    ensures TurnsOffAway(s, ws, n) <==> TurnsOffAway(s, ws[..|ws| - 1], n)
  {
    hide RunWith, Shaped;
    assert ws[..|ws| - 1][..n] == ws[..n];
  }

  lemma LastTurn(s: Swap, ws: seq<Write>)
    requires Shaped(s) && ws != []
    ensures var init, w := ws[..|ws| - 1], ws[|ws| - 1];
            TurnsOffAway(s, ws, |ws| - 1) <==> !w.val && !w.present && RunWith(s, init).on
  {
    hide RunWith, Shaped;
  }

  /** With a key missing at first, off means the first registers if and only if the switch was never off without the device. */
  lemma OffRestores(s: Swap, ws: seq<Write>)
    requires Ready(s) && Off(s) && !RunWith(s, ws).on
    requires exists j: nat :: j < 4 && !Has(s.regs, [(0x0800, false), (0x86dd, false), (0x0021, true), (0x0057, true)][j])
    ensures RunWith(s, ws).regs == s.regs <==> !Forgot(s, ws)
  {
    hide EnableFrom, RunWith, Has, Forgot, Ready, Shape;
    RunsWithDevice(s, ws);
    if EnableFrom(s, 0).1.None? { EnableBlacklists(s); }
  }

  // ---------------------------------------------------------------- such a run

  /** No entry in use, no index set, off. */
  function Clear(): Swap { Swap(Regs(0, [0, 0, 0, 0, 0, 0, 0, 0]), [None, None, None, None], false) }

  lemma {:induction false} ZeroDigits(k: nat, base: nat)
    requires base >= 2
    ensures Digit(0, k, base) == 0
    decreases k
  {
    if k > 0 { ZeroDigits(k - 1, base); }
  }

  lemma ClearEntry(i: nat)
    requires i < 16
    ensures Shaped(Clear()) && Get(Clear().regs, i) == Entry(false, false, 0)
  {
    ZeroDigits(i, 2);
    ZeroDigits(i + 16, 2);
    ZeroDigits(i % 2, 0x1_0000);
    hide Digit;
  }

  lemma ClearIsReady()
    ensures Ready(Clear()) && Off(Clear()) && forall key :: !Has(Clear().regs, key)
  {
    forall i: nat | i < 16
      ensures Get(Clear().regs, i) == Entry(false, false, 0)
    {
      ClearEntry(i);
    }
    hide Get;
  }

  lemma {:induction false} AllFree(n: nat)
    requires n <= 16
    ensures Shaped(Clear()) && FreeBelow(Clear().regs, n) == n
  {
    hide Get;
    if n > 0 {
      ClearEntry(n - 1);
      AllFree(n - 1);
    }
  }

  lemma {:induction false} AtMostFour(r: Regs, k: nat)
    requires Shape(r) && k <= STAGES
    ensures Missing(r, k) <= STAGES - k
    decreases STAGES - k
  {
    if k < STAGES { AtMostFour(r, k + 1); }
  }

  /** On, off while the device is away, on and off again: the four keys are still on the blacklist. */
  lemma AwayStrandsKeys()
    ensures var run := [Write(true, true), Write(false, false), Write(true, true), Write(false, true)];
            var r := RunWith(Clear(), run);
            && !Has(Clear().regs, (0x0800, false)) && !r.on
            && Has(r.regs, (0x0800, false)) && Has(r.regs, (0x86dd, false)) && Has(r.regs, (0x0021, true)) && Has(r.regs, (0x0057, true))
  {
    hide *;
    var s, run := Clear(), [Write(true, true), Write(false, false), Write(true, true), Write(false, true)];
    ClearIsReady();
    AllFree(16);
    ClearHasRoom();
    EnableSucceedsWhenThereIsRoom(s, 0);
    EnableBlacklists(s);
    AwayRun(s);
  }

  lemma ClearHasRoom()
    requires Shaped(Clear()) && FreeBelow(Clear().regs, 16) == 16
    ensures Missing(Clear().regs, 0) <= FreeCount(Clear().regs) && FreshFrom(Clear(), 0)
  {
    AtMostFour(Clear().regs, 0);
    hide Missing, FreeBelow, Clear;
  }

  lemma AwayRun(s: Swap)
    requires Ready(s) && Off(s) && EnableFrom(s, 0).1.None? && EnableFrom(s, 0).0.on
    ensures var run := [Write(true, true), Write(false, false), Write(true, true), Write(false, true)];
            RunWith(s, run).regs == EnableFrom(s, 0).0.regs && !RunWith(s, run).on
  {
    hide *;
    var run := [Write(true, true), Write(false, false), Write(true, true), Write(false, true)];
    assert run[..4] == run;
    FirstWrite(s, run);
    EarlyTurn(s, run, 4);
    EarlyTurn(s, run, 3);
    RunsWithDevice(s, run);
    RunsWithDevice(s, run[..3]);
    RunsUnfold(s, run);
    OffAfterDisable(RunWith(s, run[..3]));
  }

  lemma FirstWrite(s: Swap, run: seq<Write>)
    requires Shaped(s) && Off(s) && |run| > 1 && run[0] == Write(true, true) && EnableFrom(s, 0).0.on
    requires run[1] == Write(false, false)
    ensures TurnsOffAway(s, run, 1)
  {
    RunsUnfold(s, run[..1]);
    RunsUnfold(s, []);
    assert run[..1][..0] == [];
    hide RunWith, EnableFrom, Shape;
  }

  lemma EarlyTurn(s: Swap, run: seq<Write>, n: nat)
    requires Shaped(s) && 1 < n <= |run| && TurnsOffAway(s, run, 1)
    ensures Forgot(s, run[..n])
  {
    assert run[..n][..1] == run[..1];
    hide RunWith, Shape;
    assert TurnsOffAway(s, run[..n], 1);
  }

  lemma OffAfterDisable(r: Swap)
    requires Shaped(r) && FreshFrom(r, 0)
    ensures !Written(r, Write(false, true)).on
  {
    hide EnableFrom, DisableFrom, Shape;
    DisableForgetsNothing(r, 0);
  }

  /** Writing what the switch already says changes nothing; without the device it cannot be turned on. */
  lemma WriteOutOfTurn(s: Swap)
    requires Shaped(s)
    ensures WriteMacSwap(s, s.on) == (s, None) && WriteAbsent(s, s.on) == (s, None)
    ensures !s.on ==> WriteAbsent(s, true) == (s, Some(ENODEV))
    ensures s.on ==> WriteAbsent(s, false) == (s.(idx := [None, None, None, None], on := false), None)
  {
  }
}
