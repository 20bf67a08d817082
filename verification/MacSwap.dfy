/**
 The MAC-swap switch of arht_loopback.c (lines 347-515): four ether types are put on the L2B blacklist
 together, or not at all, and switching off gives back exactly what switching on took.
 */
module MacSwap {
  import opened Wrappers
  import opened L2bEtherType

  const STAGES: nat := 4

  /** IPv4, IPv6, IPv4 over PPPoE and IPv6 over PPPoE, in the order they are added and cleared. */
  function StageKey(k: nat): (key: Key)
    ensures IsKey(key)
  {
    if k == 0 then (0x0800, false) else if k == 1 then (0x86dd, false) else if k == 2 then (0x0021, true)
    else (0x0057, true)
  }

  ghost predicate Listed(key: Key, k: nat) { exists j: nat :: k <= j < STAGES && key == StageKey(j) }

  /** The register image, the four l2b_*_etype_index globals (None for L2B_ETYPE_INVALID_INDEX), and the flag. */
  datatype Swap = Swap(regs: Regs, idx: seq<Option<nat>>, on: bool)

  predicate Shaped(s: Swap) { Shape(s.regs) && |s.idx| == STAGES }

  ghost predicate Ready(s: Swap): (ready: bool)
    ensures ready ==> Shaped(s)
  {
    Shaped(s) && Good(s.regs)
  }

  /** The step that adds key k, remembering its index unless the entry was there already. */
  function Add(s: Swap, k: nat): (Swap, SetResult)
    requires Shaped(s) && k < STAGES
  {
    var (regs, result) := SetAuto(s.regs, StageKey(k));
    (if result.Ok? && !result.value.1 then s.(regs := regs, idx := s.idx[k := Some(result.value.0)]) else s.(regs := regs), result)
  }

  /** Clear key k and forget its index: one stage of the rollback, and of disable. */
  function Remove(s: Swap, k: nat): (s': Swap)
    requires Shaped(s) && k < STAGES
    ensures Shaped(s')
  {
    s.(regs := ClearAuto(s.regs, StageKey(k)), idx := s.idx[k := None])
  }

  /** hwnat_loopback_mac_swap_enable from its k-th stage on, with the rollback it jumps to on failure. */
  function EnableFrom(s: Swap, k: nat): (Swap, Option<Errno>)
    requires Shaped(s) && k <= STAGES
    ensures Shaped(EnableFrom(s, k).0)
    decreases STAGES - k
  {
    if k == STAGES then (s.(on := true), None)
    else
      var (s1, added) := Add(s, k);
      if added.Err? then (s1, Some(added.error))
      else
        var (s2, error) := EnableFrom(s1, k + 1);
        if error.Some? && !added.value.1 then (Remove(s2, k), error) else (s2, error)
  }

  /** hwnat_loopback_mac_swap_disable from its k-th stage on. */
  function DisableFrom(s: Swap, k: nat): (s': Swap)
    requires Shaped(s) && k <= STAGES
    ensures Shaped(s')
    decreases STAGES - k
  {
    if k == STAGES then s.(on := false)
    else DisableFrom(if s.idx[k].Some? then Remove(s, k) else s, k + 1)
  }

  /** One stage of enable and of disable, for proofs that keep the rest folded. */
  lemma Unfold(s: Swap, k: nat)
    requires Shaped(s) && k < STAGES
    ensures var (s1, added) := Add(s, k);
            if added.Err? then EnableFrom(s, k) == (s1, Some(added.error))
            else
              var (s2, error) := EnableFrom(s1, k + 1);
              EnableFrom(s, k) == if error.Some? && !added.value.1 then (Remove(s2, k), error) else (s2, error)
    ensures DisableFrom(s, k) == DisableFrom(if s.idx[k].Some? then Remove(s, k) else s, k + 1)
  {}

  lemma Done(s: Swap)
    requires Shaped(s) || Ready(s)
    ensures Shaped(s) && Missing(s.regs, STAGES) == 0
    ensures EnableFrom(s, STAGES) == (s.(on := true), None) && DisableFrom(s, STAGES) == s.(on := false)
  {}

  // ---------------------------------------------------------------- all or nothing

  /** No stage from k on has been done. */
  predicate FreshFrom(s: Swap, k: nat) { |s.idx| == STAGES && forall j :: k <= j < STAGES ==> s.idx[j] == None }

  /** A stage that fails or finds the key changes nothing; one that adds it is undone by removing it. */
  lemma AddKeepsReady(s: Swap, k: nat)
    requires Ready(s) && k < STAGES && FreshFrom(s, k)
    ensures var (s1, added) := Add(s, k);
            && Ready(s1) && FreshFrom(s1, k + 1)
            && (added.Err? || added.value.1 ==> s1 == s)
            && (added.Ok? && !added.value.1 ==> Remove(s1, k) == s)
  {
    hide StageKey, SetAuto, ClearAuto, Has, Good;
    SetAutoInserts(s.regs, StageKey(k));
    var (s1, added) := Add(s, k);
    if added.Ok? && !added.value.1 {
      ClearUndoesSet(s.regs, StageKey(k));
      assert s1.idx[k := None] == s.idx;
    }
  }

  /** The index of key k is set exactly when the stage put it there. */
  lemma AddInserts(s: Swap, k: nat)
    requires Ready(s) && k < STAGES && FreshFrom(s, k) && Add(s, k).1.Ok?
    ensures var (s1, added) := Add(s, k);
            && s1.idx == s.idx[k := s1.idx[k]] && (s1.idx[k].Some? <==> !Has(s.regs, StageKey(k)))
            && (added.value.1 <==> Has(s.regs, StageKey(k)))
            && (forall key :: Has(s1.regs, key) <==> Has(s.regs, key) || key == StageKey(k))
  {
    hide StageKey, SetAuto, ClearAuto, Has, Good;
    SetAutoInserts(s.regs, StageKey(k));
    var (s1, added) := Add(s, k);
    if added.value.1 { assert s1.idx == s.idx[k := s1.idx[k]]; }
  }

  lemma AddFails(s: Swap, k: nat)
    requires Shaped(s) && k < STAGES && Add(s, k).1.Err?
    ensures Add(s, k).1 == Err(ENOSPC)
  {}

  /** A failed enable leaves every register, index and the flag as they were. */
  lemma {:induction false} FailedEnableChangesNothing(s: Swap, k: nat)
    requires Ready(s) && k <= STAGES && FreshFrom(s, k)
    ensures EnableFrom(s, k).1.Some? ==> EnableFrom(s, k) == (s, Some(ENOSPC))
    decreases STAGES - k
  {
    hide *;
    if k == STAGES {
      Done(s);
    } else {
      AddKeepsReady(s, k);
      Unfold(s, k);
      var (s1, added) := Add(s, k);
      if added.Err? { AddFails(s, k); }
      if added.Ok? { FailedEnableChangesNothing(s1, k + 1); }
    }
  }

  /** How many of the keys from k on are not on the blacklist yet. */
  ghost function Missing(r: Regs, k: nat): nat
    requires Shape(r) && k <= STAGES
    decreases STAGES - k
  {
    if k == STAGES then 0 else Missing(r, k + 1) + if Has(r, StageKey(k)) then 0 else 1
  }

  lemma {:induction false} MissingAfterAdd(r: Regs, r': Regs, i: nat, k: nat)
    requires Shape(r) && Shape(r') && i < k <= STAGES
    requires forall key :: Has(r', key) <==> Has(r, key) || key == StageKey(i)
    ensures Missing(r, k) == Missing(r', k)
    decreases STAGES - k
  {
    if k < STAGES { MissingAfterAdd(r, r', i, k + 1); }
  }

  /** Enable succeeds exactly when the table has room for every key that is missing. */
  lemma {:induction false} EnableSucceedsWhenThereIsRoom(s: Swap, k: nat)
    requires Ready(s) && k <= STAGES && FreshFrom(s, k)
    ensures EnableFrom(s, k).1.None? <==> Missing(s.regs, k) <= FreeCount(s.regs)
    decreases STAGES - k
  {
    hide *;
    if k == STAGES {
      Done(s);
    } else {
      AddKeepsReady(s, k);
      RoomForOne(s, k);
      Unfold(s, k);
      var (s1, added) := Add(s, k);
      if added.Ok? { EnableSucceedsWhenThereIsRoom(s1, k + 1); }
    }
  }

  lemma RoomForOne(s: Swap, k: nat)
    requires Ready(s) && k < STAGES && FreshFrom(s, k)
    ensures var (s1, added) := Add(s, k);
            if added.Ok?
            then Missing(s.regs, k) as int - FreeCount(s.regs) == Missing(s1.regs, k + 1) as int - FreeCount(s1.regs)
            else FreeCount(s.regs) == 0 && Missing(s.regs, k) > 0
  {
    hide StageKey;
    SetAutoInserts(s.regs, StageKey(k));
    if !Has(s.regs, StageKey(k)) { SetAutoTakesOneEntry(s.regs, StageKey(k)); }
    hide SetAuto, FreeCount, Has, Good;
    var (s1, added) := Add(s, k);
    if added.Ok? { MissingAfterAdd(s.regs, s1.regs, k, k + 1); }
  }

  lemma ListedStep(key: Key, k: nat)
    ensures Listed(key, k) <==> (k < STAGES && key == StageKey(k)) || Listed(key, k + 1)
  {
    hide StageKey;
    if k < STAGES && key == StageKey(k) { assert Listed(key, k); }
  }

  /** What a successful enable has done from stage k on. */
  ghost predicate Installed(s: Swap, s': Swap, k: nat)
    requires Shaped(s) && Shaped(s')
  {
    && (forall key :: Has(s'.regs, key) <==> Has(s.regs, key) || Listed(key, k))
    && (forall j :: 0 <= j < STAGES && j < k ==> s'.idx[j] == s.idx[j])
    && (forall j :: k <= j < STAGES ==> (s'.idx[j].Some? <==> !Has(s.regs, StageKey(j))))
  }

  /** A successful enable puts the four keys on the blacklist, beside what was there. */
  lemma {:induction false} EnableInserts(s: Swap, k: nat)
    requires Ready(s) && k <= STAGES && FreshFrom(s, k)
    ensures var (s', error) := EnableFrom(s, k);
            error.None? ==> Ready(s') && s'.on && Installed(s, s', k)
    decreases STAGES - k
  {
    hide *;
    if k == STAGES {
      Done(s);
      InstalledNone(s);
    } else {
      AddKeepsReady(s, k);
      Unfold(s, k);
      var (s1, added) := Add(s, k);
      var (s', error) := EnableFrom(s, k);
      if added.Ok? && error.None? {
        AddInserts(s, k);
        EnableInserts(s1, k + 1);
        InstalledStep(s, s1, s', k);
      }
    }
  }

  lemma InstalledNone(s: Swap)
    requires Ready(s)
    ensures Shaped(s) && Ready(s.(on := true)) && Installed(s, s.(on := true), STAGES)
  {}

  lemma InstalledStep(s: Swap, s1: Swap, s': Swap, k: nat)
    requires k < STAGES && Shaped(s) && Shaped(s1) && Shaped(s') && Installed(s1, s', k + 1)
    requires s1.idx == s.idx[k := s1.idx[k]] && (s1.idx[k].Some? <==> !Has(s.regs, StageKey(k)))
    requires forall key :: Has(s1.regs, key) <==> Has(s.regs, key) || key == StageKey(k)
    ensures Installed(s, s', k)
  {
    KeysDiffer(k);
    hide Has, Listed, StageKey;
    forall key
      ensures Has(s'.regs, key) <==> Has(s.regs, key) || Listed(key, k)
    {
      ListedStep(key, k);
    }
  }

  lemma KeysDiffer(k: nat)
    requires k < STAGES
    ensures forall j :: k < j < STAGES ==> StageKey(j) != StageKey(k)
  {}

  // ---------------------------------------------------------------- enable then disable

  lemma RemoveOff(s: Swap, k: nat)
    requires Shaped(s) && k < STAGES
    ensures Shaped(s.(on := false))
    ensures Remove(s.(on := false), k) == Remove(s, k).(on := false)
  {}

  /** Clearing one key first or last makes no difference to the clears of the others. */
  lemma {:induction false} RemoveCommutesWithDisable(s: Swap, j: nat, k: nat)
    requires Ready(s) && j < k <= STAGES
    ensures DisableFrom(Remove(s, j), k) == Remove(DisableFrom(s, k), j)
    decreases STAGES - k
  {
    hide *;
    if k == STAGES {
      Done(s);
      Done(Remove(s, j));
      RemoveOff(s, j);
    } else {
      RemovesCommute(s, j, k);
      Unfold(s, k);
      Unfold(Remove(s, j), k);
      RemoveCommutesWithDisable(if s.idx[k].Some? then Remove(s, k) else s, j, k + 1);
    }
  }

  lemma RemovesCommute(s: Swap, j: nat, k: nat)
    requires Ready(s) && j < k < STAGES
    ensures Shaped(s) && Ready(Remove(s, k)) && |s.idx| == STAGES == |Remove(s, j).idx|
    ensures Remove(Remove(s, j), k) == Remove(Remove(s, k), j) && Remove(s, j).idx[k] == s.idx[k]
  {
    KeysDiffer(j);
    hide ClearAuto, Good, StageKey, Has;
    ClearsCommute(s.regs, StageKey(j), StageKey(k));
    ClearAutoRemoves(s.regs, StageKey(k));
    assert s.idx[j := None][k := None] == s.idx[k := None][j := None];
  }

  lemma KeptIndex(s: Swap, s': Swap, k: nat)
    requires k < STAGES && Shaped(s) && Shaped(s') && Installed(s, s', k + 1)
    ensures |s'.idx| == |s.idx| == STAGES && s'.idx[k] == s.idx[k]
  {}

  /** Disable first clears key k; moved behind the other clears, that undoes stage k of enable. */
  lemma UndoStage(s: Swap, k: nat)
    requires Ready(s) && k < STAGES && FreshFrom(s, k) && Add(s, k).1.Ok? && EnableFrom(s, k).1.None?
    requires var s1 := Add(s, k).0; DisableFrom(EnableFrom(s1, k + 1).0, k + 1) == s1.(on := false)
    ensures DisableFrom(EnableFrom(s, k).0, k) == s.(on := false)
  {
    hide *;
    AddKeepsReady(s, k);
    Unfold(s, k);
    var (s1, added) := Add(s, k);
    var s2 := EnableFrom(s1, k + 1).0;
    AddInserts(s, k);
    EnableInserts(s1, k + 1);
    KeptIndex(s1, s2, k);
    Unfold(s2, k);
    if !added.value.1 { RemoveCommutesWithDisable(s2, k, k + 1); }
    RemoveOff(s1, k);
  }

  /**
   Disabling clears in the order enabling added, not in reverse, and still undoes it: registers and indices
   come back bit for bit, so entries that were there before are kept.
   */
  lemma {:induction false} DisableUndoesEnable(s: Swap, k: nat)
    requires Ready(s) && k <= STAGES && FreshFrom(s, k) && EnableFrom(s, k).1.None?
    ensures DisableFrom(EnableFrom(s, k).0, k) == s.(on := false)
    decreases STAGES - k
  {
    if k < STAGES {
      Unfold(s, k);
      AddKeepsReady(s, k);
      DisableUndoesEnable(Add(s, k).0, k + 1);
      UndoStage(s, k);
    }
  }

  // ---------------------------------------------------------------- runs of the proc file

  /** The mac_swap branch of airoha_hwnat_loopback_write. */
  function WriteMacSwap(s: Swap, val: bool): (Swap, Option<Errno>)
    requires Shaped(s)
    ensures Shaped(WriteMacSwap(s, val).0)
  {
    if val && !s.on then EnableFrom(s, 0)
    else if !val && s.on then (DisableFrom(s, 0), None)
    else (s, None)
  }

  function Run(s: Swap, vals: seq<bool>): (s': Swap)
    requires Shaped(s)
    ensures Shaped(s')
    decreases |vals|
  {
    if vals == [] then s else WriteMacSwap(Run(s, vals[..|vals| - 1]), vals[|vals| - 1]).0
  }

  predicate Off(s: Swap) { !s.on && FreshFrom(s, 0) }

  /** The four keys, and which index remembers which. */
  lemma EnableBlacklists(s: Swap)
    requires Ready(s) && FreshFrom(s, 0) && EnableFrom(s, 0).1.None?
    ensures var s', v4, v6, pppoeV4, pppoeV6 := EnableFrom(s, 0).0, (0x0800, false), (0x86dd, false), (0x0021, true), (0x0057, true);
            && Ready(s') && s'.on
            && (forall key :: Has(s'.regs, key) <==> Has(s.regs, key) || key == v4 || key == v6 || key == pppoeV4 || key == pppoeV6)
            && (s'.idx[0].Some? <==> !Has(s.regs, v4)) && (s'.idx[1].Some? <==> !Has(s.regs, v6))
            && (s'.idx[2].Some? <==> !Has(s.regs, pppoeV4)) && (s'.idx[3].Some? <==> !Has(s.regs, pppoeV6))
  {
    EnableInserts(s, 0);
    hide Has, Good, EnableFrom;
    forall key
      ensures Listed(key, 0) <==>
              key == (0x0800, false) || key == (0x86dd, false) || key == (0x0021, true) || key == (0x0057, true)
    {
      ListedStep(key, 0);
      ListedStep(key, 1);
      ListedStep(key, 2);
      ListedStep(key, 3);
    }
  }

  /**
   Whatever was written before, the last write decides: off gives the first registers back; on puts the keys there
   if there is room for those that are missing, and else fails and leaves the switch off.
   */
  lemma LastWriteDecides(s: Swap, vals: seq<bool>, val: bool)
    requires Ready(s) && Off(s)
    ensures var before, room := Run(s, vals), Missing(s.regs, 0) <= FreeCount(s.regs);
            var (after, error) := WriteMacSwap(before, val);
            && (!val ==> after == s && error.None?)
            && (val && !room ==> after == s && error == Some(ENOSPC))
            && (val && room ==> after == EnableFrom(s, 0).0 && after.on && error.None?)
  {
    RunsNeverDrift(s, vals);
    EnableSucceedsWhenThereIsRoom(s, 0);
    FailedEnableChangesNothing(s, 0);
    hide Missing, FreeCount, Has, Good, Run;
    if EnableFrom(s, 0).1.None? {
      DisableUndoesEnable(s, 0);
      EnableInserts(s, 0);
    }
    hide EnableFrom, DisableFrom, Ready, Installed;
  }

  /** After any writes the registers are as they first were, or as one enable makes them. */
  lemma {:induction false} RunsNeverDrift(s: Swap, vals: seq<bool>)
    requires Ready(s) && Off(s)
    ensures Run(s, vals) == s || (EnableFrom(s, 0).1.None? && Run(s, vals) == EnableFrom(s, 0).0)
    ensures Run(s, vals).on ==>
              forall key :: Has(Run(s, vals).regs, key) <==>
                || Has(s.regs, key)
                || key == (0x0800, false) || key == (0x86dd, false) || key == (0x0021, true) || key == (0x0057, true)
    decreases |vals|
  {
    if EnableFrom(s, 0).1.None? { EnableBlacklists(s); }
    hide Has, Good;
    FailedEnableChangesNothing(s, 0);
    if EnableFrom(s, 0).1.None? { DisableUndoesEnable(s, 0); }
    if vals != [] { RunsNeverDrift(s, vals[..|vals| - 1]); }
  }

  // ---------------------------------------------------------------- the module's variables

  class Loopback {
    const ppe: Ppe
    var index: seq<Option<nat>> // l2b_ipv4, l2b_ipv6, l2b_pppoe_ipv4 and l2b_pppoe_ipv6_etype_index
    var macSwap: bool

    ghost predicate Valid()
      reads this, ppe, ppe.et, ppe.et2
    {
      ppe.Valid() && |index| == STAGES
    }

    ghost function State(): (s: Swap)
      requires Valid()
      reads this, ppe, ppe.et, ppe.et2
      ensures Shaped(s)
    {
      Swap(ppe.Image(), index, macSwap)
    }

    constructor (ppe: Ppe)
      requires ppe.Valid()
      ensures Valid() && this.ppe == ppe && State() == Swap(ppe.Image(), [None, None, None, None], false)
    {
      this.ppe := ppe;
      index := [None, None, None, None];
      macSwap := false;
    }

    /** One ppe_set_l2b_ether_type_auto call, and the index it is remembered by. */
    method AddKey(k: nat) returns (added: SetResult)
      requires Valid() && ppe.present && k < STAGES
      modifies this, ppe, ppe.et, ppe.et2
      ensures Valid() && (State(), added) == Add(old(State()), k)
    {
      hide SetAuto, StageKey;
      added := ppe.SetTypeAuto(StageKey(k));
      if added.Ok? && !added.value.1 { index := index[k := Some(added.value.0)]; }
    }

    /** One ppe_clear_l2b_ether_type_auto call, and the index reset after it. */
    method ClearKey(k: nat)
      requires Valid() && k < STAGES
      modifies this, ppe, ppe.et, ppe.et2
      ensures Valid() && State() == if ppe.present then Remove(old(State()), k) else Forgotten(old(State()), k)
    {
      hide ClearAuto, StageKey;
      var _ := ppe.ClearTypeAuto(StageKey(k));
      index := index[k := None];
    }

    /** hwnat_loopback_mac_swap_enable; each block after a failed stage is one label of the rollback. */
    method Enable() returns (error: Option<Errno>)
      requires Valid()
      modifies this, ppe, ppe.et, ppe.et2
      ensures Valid()
      ensures (State(), error) == if ppe.present then EnableFrom(old(State()), 0) else (old(State()), Some(ENODEV))
    {
      hide Add, Remove, EnableFrom, DisableFrom;
      if !ppe.present { return Some(ENODEV); }
      Unfold(State(), 0);
      var ipv4 := AddKey(0);
      if ipv4.Err? { return Some(ipv4.error); }
      Unfold(State(), 1);
      var ipv6 := AddKey(1);
      if ipv6.Err? {
        error := Some(ipv6.error);
      } else {
        Unfold(State(), 2);
        var pppoeIpv4 := AddKey(2);
        if pppoeIpv4.Err? {
          error := Some(pppoeIpv4.error);
        } else {
          Unfold(State(), 3);
          var pppoeIpv6 := AddKey(3);
          if pppoeIpv6.Ok? {
            Done(State());
            macSwap := true;
            return None;
          }
          error := Some(pppoeIpv6.error);
          if !pppoeIpv4.value.1 { ClearKey(2); }
        }
        if !ipv6.value.1 { ClearKey(1); }
      }
      if !ipv4.value.1 { ClearKey(0); }
    }

    /** One block of disable: clear key k if this module put it there. */
    method ForgetKey(k: nat)
      requires Valid() && k < STAGES
      modifies this, ppe, ppe.et, ppe.et2
      ensures Valid()
      ensures ppe.present ==> DisableFrom(State(), k + 1) == DisableFrom(old(State()), k)
      ensures !ppe.present ==> State() == Forgotten(old(State()), k)
    {
      Unfold(State(), k);
      hide Remove, DisableFrom;
      if index[k].Some? { ClearKey(k); } else { assert index[k := None] == index; }
    }

    /** hwnat_loopback_mac_swap_disable */
    method Disable()
      requires Valid()
      modifies this, ppe, ppe.et, ppe.et2
      ensures Valid()
      ensures State() == if ppe.present then DisableFrom(old(State()), 0) else SwitchedOff(old(State()))
    {
      hide DisableFrom;
      ghost var s := State();
      ForgetKey(0);
      ForgetKey(1);
      ForgetKey(2);
      ForgetKey(3);
      Done(State());
      AllForgotten(s);
      hide Forgotten;
      macSwap := false;
    }

    /** The mac_swap branch of airoha_hwnat_loopback_write. */
    method Write(val: bool) returns (error: Option<Errno>)
      requires Valid()
      modifies this, ppe, ppe.et, ppe.et2
      ensures Valid()
      ensures (State(), error) == if ppe.present then WriteMacSwap(old(State()), val) else WriteAbsent(old(State()), val)
    {
      error := None;
      if val && !macSwap {
        error := Enable();
      } else if !val && macSwap {
        Disable();
      }
    }
  }

  // ---------------------------------------------------------------- without the Ethernet device

  /** Only the index is reset. */
  function Forgotten(s: Swap, k: nat): (s': Swap)
    requires Shaped(s) && k < STAGES
    ensures Shaped(s')
  {
    s.(idx := s.idx[k := None])
  }

  function SwitchedOff(s: Swap): Swap { s.(idx := [None, None, None, None], on := false) }

  function WriteAbsent(s: Swap, val: bool): (Swap, Option<Errno>) {
    if val && !s.on then (s, Some(ENODEV)) else if !val && s.on then (SwitchedOff(s), None) else (s, None)
  }

  lemma AllForgotten(s: Swap)
    requires Shaped(s)
    ensures Forgotten(Forgotten(Forgotten(Forgotten(s, 0), 1), 2), 3) == s.(idx := [None, None, None, None])
  {}
}
