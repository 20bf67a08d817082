/**
 The shrink table of arht_ppe.c line by line: what each step of a run does to one line, and from it, which FOE entries
 a slot knows as its users.
 */
module ShrinkLines {
  import opened Wrappers
  import opened ShrinkTable

  /** The scan comes to bit b: words of 64 bits are tested for strides of 32. */
  predicate Scanned(bits: set<nat>, b: nat, entries: nat) {
    b in bits && b < entries && b / 32 < 512 && exists c :: c in bits && c / 64 == b / 32
  }

  /** A sweep at `now`: an expired line loses the users found unbound, and is invalid unless one is found bound. */
  ghost function SweptAt(l: Line, foe: nat -> FoeState, now: nat, timeout: nat, entries: Option<nat>): Line {
    if entries.None? || l.pinned || now <= l.stamp + timeout then l
    else
      l.(bits := (set b | b in l.bits && !(Scanned(l.bits, b, entries.value) && foe(b) == Unbound)),
         valid := l.valid && exists b: nat :: Scanned(l.bits, b, entries.value) && foe(b) == Bound)
  }

  /** A lookup that returned `found`, having written the line or not, before its sweep. */
  function LookedUp(l: Line, i: nat, v: seq<nat>, found: Option<nat>, taken: bool, foeIdx: nat, now: nat, timeout: nat,
                    entries: Option<nat>): Line
  {
    if found == Some(i) then
      Line(if taken then v else l.content, true, l.pinned, now,
           if entries.Some? && 0 < foeIdx < entries.value then l.bits + {foeIdx} else l.bits)
    else if !l.pinned && now > l.stamp + timeout && (found.None? || taken || i < found.value) then
      // passed on the way, and expired
      l.(valid := false)
    else l
  }

  /** What a step does to line i of a select. */
  ghost function After(y: Sys, sel: Select, i: nat, op: Op): Line
    requires Framed(y) && i < 16
  {
    var l := y.tbl.cols[sel][i];
    match op
    case LookupOp(s, v, foeIdx, now, timeout, entries, foe) =>
      if y.busy.Some? || !IsValue(s, v) then l
      else
        var found := Find(y.tbl.cols[s], v, foeIdx, now, timeout, entries);
        SweptAt(if sel == s then LookedUp(l, i, v, found.1, found.2, foeIdx, now, timeout, entries) else l,
                foe, now, timeout, entries)
    case SweepOp(now, timeout, entries, foe) => if y.busy.Some? then l else SweptAt(l, foe, now, timeout, entries)
    case Pin(index) =>
      if y.busy.None? && index in y.open && y.open[index].words == 2 && sel == Smac && index == i then
        l.(content := y.open[i].mac, valid := true, pinned := true)
      else l
    case _ => l
  }

  lemma SweptIs(l: Line, foe: nat -> FoeState, now: nat, timeout: nat, entries: Option<nat>)
    ensures SweptAt(l, foe, now, timeout, entries)
            == if entries.Some? then SweptLine(l, foe, now, timeout, entries.value) else l
  {
    if entries.Some? {
      forall b: nat
        ensures Scanned(l.bits, b, entries.value) <==> Examined(l.bits, b, entries.value)
      {
      }
      hide Scanned, Examined;
    }
  }

  lemma FoundIs(col: Column, v: seq<nat>, foeIdx: nat, now: nat, timeout: nat, entries: Option<nat>, i: nat)
    requires i < |col|
    ensures var found := Find(col, v, foeIdx, now, timeout, entries);
            found.0[i] == LookedUp(col[i], i, v, found.1, found.2, foeIdx, now, timeout, entries)
  {
    hide FirstHolding, FirstReusable;
  }

  /** Each step acts on each line as said. */
  lemma StepLine(y: Sys, sel: Select, i: nat, op: Op)
    requires Framed(y) && i < 16
    ensures Apply(y, op).tbl.cols[sel][i] == After(y, sel, i, op)
  {
    if op.LookupOp? && Possible(y, op) {
      LookupLine(y, sel, i, op);
    } else if op.SweepOp? && Possible(y, op) {
      SweptIs(y.tbl.cols[sel][i], op.foe, op.now, op.timeout, op.entries);
      hide SweptAt, SweptLine;
    } else {
      hide IsValue, HwWord, Framed, TableOk;
    }
  }

  lemma LookupLine(y: Sys, sel: Select, i: nat, op: Op)
    requires Framed(y) && i < 16 && op.LookupOp? && Possible(y, op)
    ensures Apply(y, op).tbl.cols[sel][i] == After(y, sel, i, op)
  {
    var col := Find(y.tbl.cols[op.sel], op.v, op.foeIdx, op.now, op.timeout, op.entries).0;
    FoundIs(y.tbl.cols[op.sel], op.v, op.foeIdx, op.now, op.timeout, op.entries, i);
    SweptIs(y.tbl.cols[op.sel := col][sel][i], op.foe, op.now, op.timeout, op.entries);
    hide Find, SweptAt, SweptLine, LookedUp, IsValue, WriteRow, Taken;
  }

  // ---------------------------------------------------------------- the users of a slot

  /** No sweep of this step finds b unbound. */
  predicate NotUnbound(op: Op, b: nat) { op.LookupOp? || op.SweepOp? ==> op.foe(b) != Unbound }

  /** The FOE entry of a lookup that returns the line is a user of it from then on. */
  lemma LookupRecords(y: Sys, op: Op, i: nat)
    requires Framed(y) && i < 16 && op.LookupOp? && Possible(y, op)
    requires Find(y.tbl.cols[op.sel], op.v, op.foeIdx, op.now, op.timeout, op.entries).1 == Some(i)
    requires op.entries.Some? && 0 < op.foeIdx < op.entries.value
    ensures op.foeIdx in Apply(y, op).tbl.cols[op.sel][i].bits
  {
    StepLine(y, op.sel, i, op);
    hide Apply, Find, Scanned, IsValue;
  }

  lemma UserStays(y: Sys, op: Op, sel: Select, i: nat, b: nat)
    requires Framed(y) && i < 16 && b in y.tbl.cols[sel][i].bits && NotUnbound(op, b)
    ensures b in Apply(y, op).tbl.cols[sel][i].bits
  {
    StepLine(y, sel, i, op);
    hide Apply, Find, SweptAt, IsValue;
    var l := y.tbl.cols[sel][i];
    if op.LookupOp? {
      var found := Find(y.tbl.cols[op.sel], op.v, op.foeIdx, op.now, op.timeout, op.entries);
      SweptKeeps(l, op.foe, op.now, op.timeout, op.entries, b);
      SweptKeeps(LookedUp(l, i, op.v, found.1, found.2, op.foeIdx, op.now, op.timeout, op.entries), op.foe, op.now,
                 op.timeout, op.entries, b);
    } else if op.SweepOp? {
      SweptKeeps(l, op.foe, op.now, op.timeout, op.entries, b);
    }
  }

  lemma SweptKeeps(l: Line, foe: nat -> FoeState, now: nat, timeout: nat, entries: Option<nat>, b: nat)
    ensures b in l.bits && foe(b) != Unbound ==> b in SweptAt(l, foe, now, timeout, entries).bits
  {
    hide Scanned;
  }

  /** Over runs: a user stays recorded while no sweep finds it unbound, whatever others look the slot up. */
  lemma {:induction false} UsersStay(y: Sys, ops: seq<Op>, sel: Select, i: nat, b: nat)
    requires Framed(y) && i < 16 && b in y.tbl.cols[sel][i].bits
    requires forall op :: op in ops ==> NotUnbound(op, b)
    ensures b in Run(y, ops).tbl.cols[sel][i].bits
    decreases |ops|
  {
    hide Apply, NotUnbound, Run, Framed;
    RunUnfolds(y, ops);
    if |ops| > 0 {
      UsersStay(y, ops[..|ops| - 1], sel, i, b);
      assert ops[|ops| - 1] in ops;
      UserStays(Run(y, ops[..|ops| - 1]), ops[|ops| - 1], sel, i, b);
    }
  }

  /**
   So a slot that has been returned for FOE entry b keeps its value through any run and a sweep at its end that finds b
   bound and comes to it, unless the slot was invalid before that sweep.
   */
  lemma BoundUserKeepsSlot(y: Sys, op: Op, ops: seq<Op>, sweep: Op, i: nat, c: nat)
    requires Framed(y) && i < 16 && op.LookupOp? && Possible(y, op)
    requires Find(y.tbl.cols[op.sel], op.v, op.foeIdx, op.now, op.timeout, op.entries).1 == Some(i)
    requires op.entries.Some? && 0 < op.foeIdx < op.entries.value
    requires forall o :: o in ops ==> NotUnbound(o, op.foeIdx)
    requires sweep.SweepOp? && sweep.entries == op.entries && sweep.foe(op.foeIdx) == Bound
    requires var l := Run(Apply(y, op), ops).tbl.cols[op.sel][i];
             l.valid && c in l.bits && c / 64 == op.foeIdx / 32 && op.foeIdx / 32 < 512
    ensures Apply(Run(Apply(y, op), ops), sweep).tbl.cols[op.sel][i].valid
    ensures Apply(Run(Apply(y, op), ops), sweep).tbl.cols[op.sel][i].content == Run(Apply(y, op), ops).tbl.cols[op.sel][i].content
  {
    LookupRecords(y, op, i);
    UsersStay(Apply(y, op), ops, op.sel, i, op.foeIdx);
    var z := Run(Apply(y, op), ops);
    StepLine(z, op.sel, i, sweep);
    hide Apply, Find, Run, IsValue;
    assert Scanned(z.tbl.cols[op.sel][i].bits, op.foeIdx, op.entries.value);
  }
}
