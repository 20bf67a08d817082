/**
 The shrink table of arht_ppe.c: for each of source MAC, IPv6 pair and IPv4 pair, 16 slots that cache a
 value, mirror it into the PPE's update memory, expire when unused, and may be pinned.
 */
module ShrinkTable {
  import opened Wrappers

  const SLOTS: nat := 16 // UPDMEM_NUM
  const BITMAP_WORDS: nat := 512 // BITMAP_IDX_SIZE
  const LONG_BITS: nat := 64 // bits of an unsigned long
  const PON_SLOT: nat := 14 // SMAC_PON_IDX

  datatype Select = Smac | Ipv6 | Ipv4

  /** One select's part of a slot; bits are the FOE entries recorded as users of it. */
  datatype Line = Line(content: seq<nat>, valid: bool, pinned: bool, stamp: nat, bits: set<nat>)

  const EMPTY: Line := Line([], false, false, 0, {})

  type Column = seq<Line>

  /** Software tables, and the hardware's update memory as words by select, slot and offset. */
  datatype State = State(cols: map<Select, Column>, mem: map<(Select, nat, nat), nat>)

  predicate Shape(s: State) {
    forall sel: Select :: sel in s.cols && |s.cols[sel]| == SLOTS
  }

  lemma AllSelects(s: State)
    requires Smac in s.cols && Ipv6 in s.cols && Ipv4 in s.cols
    requires |s.cols[Smac]| == |s.cols[Ipv6]| == |s.cols[Ipv4]| == SLOTS
    ensures Shape(s)
  {
    forall sel: Select
      ensures sel in s.cols && |s.cols[sel]| == SLOTS
    {
      match sel case Smac => case Ipv6 => case Ipv4 =>
    }
  }

  // ---------------------------------------------------------------- values and their hardware words

  function ContentSize(sel: Select): nat { match sel case Smac => 6 case Ipv4 => 2 case Ipv6 => 8 }

  /** Bytes of a MAC address, or 32-bit words of an address pair. */
  predicate IsValue(sel: Select, v: seq<nat>): (value: bool)
    ensures value ==> |v| == ContentSize(sel)
  {
    && |v| == ContentSize(sel)
    && forall i :: 0 <= i < |v| ==> v[i] < if sel.Smac? then 0x100 else 0x1_0000_0000
  }

  function HwLines(sel: Select): nat { match sel case Smac => 2 case Ipv4 => 2 case Ipv6 => 8 }

  /** Offset in update memory of the i-th word written. */
  function Offset(sel: Select, i: nat): nat
    requires i < HwLines(sel)
  {
    if sel.Ipv6? then (if i <= 3 then 3 - i else 11 - i) else i
  }

  function HwWord(sel: Select, v: seq<nat>, i: nat): nat
    requires |v| == ContentSize(sel) && i < HwLines(sel)
  {
    if !sel.Smac? then v[i]
    else if i == 0 then v[2] * 0x100_0000 + v[3] * 0x1_0000 + v[4] * 0x100 + v[5]
    else v[0] * 0x100 + v[1]
  }

  function WriteRow(mem: map<(Select, nat, nat), nat>, sel: Select, index: nat, v: seq<nat>, n: nat): map<(Select, nat, nat), nat>
    requires |v| == ContentSize(sel) && n <= HwLines(sel)
  {
    if n == 0 then mem
    else WriteRow(mem, sel, index, v, n - 1)[(sel, index, Offset(sel, n - 1)) := HwWord(sel, v, n - 1)]
  }

  /** Update memory holds value v for this slot. */
  ghost predicate RowHolds(mem: map<(Select, nat, nat), nat>, sel: Select, index: nat, v: seq<nat>)
    requires |v| == ContentSize(sel)
  {
    forall i :: 0 <= i < HwLines(sel) ==>
      (sel, index, Offset(sel, i)) in mem && mem[(sel, index, Offset(sel, i))] == HwWord(sel, v, i)
  }

  /** The eight IPv6 words land on a permutation of offsets 0..7: the offset map is its own inverse. */
  lemma Ipv6OffsetsPermute(i: nat, j: nat)
    requires i < 8 && j < 8
    ensures Offset(Ipv6, i) < 8 && Offset(Ipv6, Offset(Ipv6, i)) == i
    ensures Offset(Ipv6, i) == Offset(Ipv6, j) ==> i == j
  {
  }

  lemma BytesDetermine(a: nat, b: nat, c: nat, d: nat, a': nat, b': nat, c': nat, d': nat)
    requires b < 0x100 && c < 0x100 && d < 0x100 && b' < 0x100 && c' < 0x100 && d' < 0x100
    requires a * 0x100_0000 + b * 0x1_0000 + c * 0x100 + d == a' * 0x100_0000 + b' * 0x1_0000 + c' * 0x100 + d'
    ensures a == a' && b == b' && c == c' && d == d'
  {
  }

  /** The hardware words of a slot determine the value: no two values share a row. */
  lemma RowDeterminesValue(mem: map<(Select, nat, nat), nat>, sel: Select, index: nat, a: seq<nat>, b: seq<nat>)
    requires IsValue(sel, a) && IsValue(sel, b)
    requires RowHolds(mem, sel, index, a) && RowHolds(mem, sel, index, b)
    ensures a == b
  {
    forall i | 0 <= i < HwLines(sel)
      ensures HwWord(sel, a, i) == HwWord(sel, b, i)
    {
      hide HwWord;
      assert mem[(sel, index, Offset(sel, i))] == HwWord(sel, a, i);
    }
    if sel.Smac? {
      assert HwWord(sel, a, 0) == HwWord(sel, b, 0) && HwWord(sel, a, 1) == HwWord(sel, b, 1);
      hide RowHolds;
      BytesDetermine(a[2], a[3], a[4], a[5], b[2], b[3], b[4], b[5]);
      BytesDetermine(0, 0, a[0], a[1], 0, 0, b[0], b[1]);
      assert a == [a[0], a[1], a[2], a[3], a[4], a[5]] && b == [b[0], b[1], b[2], b[3], b[4], b[5]];
    } else {
      hide RowHolds;
      assert forall i :: 0 <= i < |a| ==> HwWord(sel, a, i) == a[i] && HwWord(sel, b, i) == b[i];
    }
  }

  lemma {:induction false} WriteRowHolds(mem: map<(Select, nat, nat), nat>, sel: Select, index: nat, v: seq<nat>, n: nat)
    requires |v| == ContentSize(sel) && n <= HwLines(sel)
    ensures var m := WriteRow(mem, sel, index, v, n);
            && (forall i :: 0 <= i < n ==>
                  (sel, index, Offset(sel, i)) in m && m[(sel, index, Offset(sel, i))] == HwWord(sel, v, i))
            && (forall s', k, o {:trigger (s', k, o) in m} :: s' != sel || k != index ==>
                  ((s', k, o) in m <==> (s', k, o) in mem) && ((s', k, o) in mem ==> m[(s', k, o)] == mem[(s', k, o)]))
  {
    if n > 0 {
      WriteRowHolds(mem, sel, index, v, n - 1);
      hide HwWord;
    }
  }

  /**
   A row as the hardware reads it: of a MAC the low four bytes and then the high two, of an IPv4 pair both words in
   order, of an IPv6 pair each address with its words reversed.
   */
  lemma RowLayout(mem: map<(Select, nat, nat), nat>, sel: Select, index: nat, v: seq<nat>)
    requires IsValue(sel, v)
    ensures var m := WriteRow(mem, sel, index, v, HwLines(sel));
            && (forall o: nat :: o < (if sel.Ipv6? then 8 else 2) ==> (sel, index, o) in m)
            && (sel.Smac? ==> m[(sel, index, 0)] == ((v[2] * 256 + v[3]) * 256 + v[4]) * 256 + v[5]
                              && m[(sel, index, 1)] == v[0] * 256 + v[1])
            && (sel.Ipv4? ==> m[(sel, index, 0)] == v[0] && m[(sel, index, 1)] == v[1])
            && (sel.Ipv6? ==> forall o: nat :: o < 4 ==> m[(sel, index, o)] == v[3 - o])
            && (sel.Ipv6? ==> forall o: nat :: 4 <= o < 8 ==> m[(sel, index, o)] == v[11 - o])
  {
    WriteRowHolds(mem, sel, index, v, HwLines(sel));
    var m := WriteRow(mem, sel, index, v, HwLines(sel));
    hide WriteRow, IsValue;
    forall o: nat | o < HwLines(sel)
      ensures (sel, index, o) in m && m[(sel, index, o)] == HwWord(sel, v, Offset(sel, o))
    {
      assert Offset(sel, Offset(sel, o)) == o;
    }
  }

  // ---------------------------------------------------------------- expiry and lookup

  predicate TimedOut(l: Line, now: nat, timeout: nat) { !l.pinned && now > l.stamp + timeout }

  predicate Holds(l: Line, v: seq<nat>) { l.valid && l.content == v }

  /** Expired on the way: what the matching loop does to the slots it passes. */
  function Aged(l: Line, now: nat, timeout: nat): Line {
    if l.valid && TimedOut(l, now, timeout) then l.(valid := false) else l
  }

  function AgedBelow(col: Column, n: nat, now: nat, timeout: nat): (r: Column)
    ensures |r| == |col|
    ensures forall i :: 0 <= i < |col| ==> r[i] == if i < n then Aged(col[i], now, timeout) else col[i]
  {
    seq(|col|, i requires 0 <= i < |col| => if i < n then Aged(col[i], now, timeout) else col[i])
  }

  function FirstHolding(col: Column, v: seq<nat>, i: nat): (r: Option<nat>)
    requires i <= |col|
    ensures r.Some? ==> i <= r.value < |col| && Holds(col[r.value], v)
    ensures forall j :: i <= j < (if r.Some? then r.value else |col|) ==> !Holds(col[j], v)
    decreases |col| - i
  {
    if i == |col| then None else if Holds(col[i], v) then Some(i) else FirstHolding(col, v, i + 1)
  }

  /** A slot the loop may reuse: invalid already, or expired when it gets there. */
  predicate Reusable(l: Line, now: nat, timeout: nat) { !l.valid || TimedOut(l, now, timeout) }

  function FirstReusable(col: Column, now: nat, timeout: nat, i: nat): (r: Option<nat>)
    requires i <= |col|
    ensures r.Some? ==> i <= r.value < |col| && Reusable(col[r.value], now, timeout)
    ensures forall j :: i <= j < (if r.Some? then r.value else |col|) ==> !Reusable(col[j], now, timeout)
    decreases |col| - i
  {
    if i == |col| then None else if Reusable(col[i], now, timeout) then Some(i) else FirstReusable(col, now, timeout, i + 1)
  }

  /** At success: valid, stamped, and the FOE entry recorded when it is in range. */
  function Touched(l: Line, foeIdx: nat, now: nat, entries: Option<nat>): Line {
    l.(valid := true, stamp := now,
       bits := if entries.Some? && 0 < foeIdx < entries.value then l.bits + {foeIdx} else l.bits)
  }

  /** find_and_update_shrink_table up to the sweep: the column, the index, and whether hardware was written. */
  function Find(col: Column, v: seq<nat>, foeIdx: nat, now: nat, timeout: nat, entries: Option<nat>): (r: (Column, Option<nat>, bool))
    ensures |r.0| == |col|
    ensures r.1.Some? ==> r.1.value < |col|
  {
    var hit := FirstHolding(col, v, 0);
    if hit.Some? then
      var aged := AgedBelow(col, hit.value, now, timeout);
      (aged[hit.value := Touched(aged[hit.value], foeIdx, now, entries)], hit, false)
    else
      var aged, free := AgedBelow(col, |col|, now, timeout), FirstReusable(col, now, timeout, 0);
      if free.None? then (aged, None, false)
      else (aged[free.value := Touched(aged[free.value].(content := v), foeIdx, now, entries)], free, true)
  }

  // ---------------------------------------------------------------- the sweep

  datatype FoeState = Missing | Bound | Unbound | Other

  /** The sweep looks at bit b: it gates 32-bit strides on words of 64 bits. */
  predicate Examined(bits: set<nat>, b: nat, entries: nat) {
    && b in bits && b < entries && b / 32 < BITMAP_WORDS
    && exists c :: c in bits && c / LONG_BITS == b / 32
  }

  ghost predicate Kept(bits: set<nat>, foe: nat -> FoeState, entries: nat) {
    exists b: nat :: Examined(bits, b, entries) && foe(b) == Bound
  }

  function Cleared(bits: set<nat>, foe: nat -> FoeState, entries: nat): set<nat> {
    set b | b in bits && !(Examined(bits, b, entries) && foe(b) == Unbound)
  }

  ghost function SweptLine(l: Line, foe: nat -> FoeState, now: nat, timeout: nat, entries: nat): Line {
    if TimedOut(l, now, timeout) then
      l.(bits := Cleared(l.bits, foe, entries), valid := l.valid && Kept(l.bits, foe, entries))
    else l
  }

  ghost function Swept(col: Column, foe: nat -> FoeState, now: nat, timeout: nat, entries: Option<nat>): (r: Column)
    ensures |r| == |col|
    ensures forall i :: 0 <= i < |col| ==>
              r[i] == if entries.Some? then SweptLine(col[i], foe, now, timeout, entries.value) else col[i]
  {
    seq(|col|, i requires 0 <= i < |col| =>
      if entries.Some? then SweptLine(col[i], foe, now, timeout, entries.value) else col[i])
  }

  // ---------------------------------------------------------------- what a lookup returns

  /** A lookup returns the lowest match, or else the lowest invalid-or-expired slot, or else nothing. */
  lemma FindReturnsLowest(col: Column, v: seq<nat>, foeIdx: nat, now: nat, timeout: nat, entries: Option<nat>)
    ensures var (col', r, written) := Find(col, v, foeIdx, now, timeout, entries);
            && (r.None? <==> forall i :: 0 <= i < |col| ==>
                  col[i].valid && col[i].content != v && (col[i].pinned || now <= col[i].stamp + timeout))
            && (r.Some? ==> Holds(col'[r.value], v) && col'[r.value].stamp == now)
            && (r.Some? && !written ==> Holds(col[r.value], v) && forall i :: 0 <= i < r.value ==> !Holds(col[i], v))
            && (r.Some? && written ==>
                  && (forall i :: 0 <= i < |col| ==> !Holds(col[i], v))
                  && Reusable(col[r.value], now, timeout)
                  && forall i :: 0 <= i < r.value ==> !Reusable(col[i], now, timeout))
  {
    hide FirstHolding, FirstReusable;
  }

  ghost predicate Distinct(col: Column) {
    forall i, j :: 0 <= i < j < |col| && col[i].valid && col[j].valid ==> col[i].content != col[j].content
  }

  /** A lookup never creates a second valid copy of a value. */
  lemma FindKeepsDistinct(col: Column, v: seq<nat>, foeIdx: nat, now: nat, timeout: nat, entries: Option<nat>)
    ensures var (col', r, written) := Find(col, v, foeIdx, now, timeout, entries);
            && (Distinct(col) ==> Distinct(col'))
            && (written ==> forall i :: 0 <= i < |col'| && i != r.value ==> !Holds(col'[i], v))
  {
    hide FirstHolding, FirstReusable;
  }

  /** Nor does the sweep bring a slot back, or touch one that is pinned or fresh. */
  lemma SweepOnlyInvalidates(col: Column, foe: nat -> FoeState, now: nat, timeout: nat, entries: Option<nat>)
    ensures var col' := Swept(col, foe, now, timeout, entries);
            && (forall i :: 0 <= i < |col| ==>
                  col'[i].content == col[i].content && col'[i].pinned == col[i].pinned && col'[i].stamp == col[i].stamp
                  && (col'[i].valid ==> col[i].valid)
                  && (!TimedOut(col[i], now, timeout) ==> col'[i] == col[i]))
            && (Distinct(col) ==> Distinct(col'))
  {
  }

  /** An expired, unpinned slot survives the sweep exactly when some examined FOE entry is still bound. */
  lemma SweepKeepsExactly(col: Column, foe: nat -> FoeState, now: nat, timeout: nat, entries: nat, i: nat)
    requires i < |col| && col[i].valid && TimedOut(col[i], now, timeout)
    ensures Swept(col, foe, now, timeout, Some(entries))[i].valid <==>
            exists b: nat, c: nat :: b in col[i].bits && c in col[i].bits && foe(b) == Bound && b < entries
                           && b / 32 < BITMAP_WORDS && c / LONG_BITS == b / 32
  {
    var bits := col[i].bits;
    if b: nat, c: nat :| b in bits && c in bits && foe(b) == Bound && b < entries && b / 32 < BITMAP_WORDS && c / LONG_BITS == b / 32 {
      assert Examined(bits, b, entries);
    }
    if b: nat :| Examined(bits, b, entries) && foe(b) == Bound {
      var c: nat :| c in bits && c / LONG_BITS == b / 32;
    }
  }

  // ---------------------------------------------------------------- the table mirrors hardware

  /** Every valid slot's software value is what update memory holds for it. */
  ghost predicate Mirrors(s: State) {
    Shape(s) && forall sel: Select, i: nat :: i < SLOTS ==> LineMirrors(s.cols[sel][i], s.mem, sel, i)
  }

  ghost predicate LineMirrors(l: Line, mem: map<(Select, nat, nat), nat>, sel: Select, i: nat) {
    l.valid ==> IsValue(sel, l.content) && RowHolds(mem, sel, i, l.content)
  }

  ghost function Lookup(s: State, sel: Select, v: seq<nat>, foeIdx: nat, now: nat, timeout: nat,
                        entries: Option<nat>, foe: nat -> FoeState): (State, Option<nat>)
    requires Shape(s) && IsValue(sel, v)
  {
    var (col, r, written) := Find(s.cols[sel], v, foeIdx, now, timeout, entries);
    var cols := s.cols[sel := col];
    (State(map sel' | sel' in cols :: Swept(cols[sel'], foe, now, timeout, entries),
           if written then WriteRow(s.mem, sel, r.value, v, HwLines(sel)) else s.mem), r)
  }

  /** UpdateShrinkTable: pin a MAC that the caller has put in hardware. */
  function Pinned(s: State, index: nat, mac: seq<nat>): State
    requires Shape(s)
  {
    if index < SLOTS then
      s.(cols := s.cols[Smac := s.cols[Smac][index := s.cols[Smac][index].(content := mac, valid := true, pinned := true)]])
    else s
  }

  /** Writing both words of a row and then pinning it, with nothing in between. */
  function Installed(s: State, index: nat, mac: seq<nat>): State
    requires Shape(s) && IsValue(Smac, mac)
  {
    Pinned(s.(mem := WriteRow(s.mem, Smac, index, mac, HwLines(Smac))), index, mac)
  }

  lemma RowKept(mem: map<(Select, nat, nat), nat>, sel: Select, index: nat, v: seq<nat>, l: Line, sel': Select, i: nat)
    requires |v| == ContentSize(sel) && LineMirrors(l, mem, sel', i) && (sel' != sel || i != index)
    ensures LineMirrors(l, WriteRow(mem, sel, index, v, HwLines(sel)), sel', i)
  {
    WriteRowHolds(mem, sel, index, v, HwLines(sel));
    hide HwWord, WriteRow;
  }

  /** One slot after the lookup, before the sweep. */
  lemma FindKeepsLine(s: State, sel: Select, v: seq<nat>, foeIdx: nat, now: nat, timeout: nat, entries: Option<nat>,
                      sel': Select, i: nat)
    requires Shape(s) && IsValue(sel, v) && i < SLOTS && LineMirrors(s.cols[sel'][i], s.mem, sel', i)
    ensures var (col, r, written) := Find(s.cols[sel], v, foeIdx, now, timeout, entries);
            LineMirrors(s.cols[sel := col][sel'][i], if written then WriteRow(s.mem, sel, r.value, v, HwLines(sel)) else s.mem,
                        sel', i)
  {
    var (col, r, written) := Find(s.cols[sel], v, foeIdx, now, timeout, entries);
    if written {
      WriteRowHolds(s.mem, sel, r.value, v, HwLines(sel));
      if sel' != sel || i != r.value {
        RowKept(s.mem, sel, r.value, v, s.cols[sel'][i], sel', i);
        hide WriteRow, RowHolds;
      }
    }
    hide FirstHolding, FirstReusable, WriteRow, HwWord;
  }

  /** A slot that mirrors its row goes on doing so after any lookup. */
  lemma LookupKeepsLine(s: State, sel: Select, v: seq<nat>, foeIdx: nat, now: nat, timeout: nat,
                        entries: Option<nat>, foe: nat -> FoeState, sel': Select, i: nat)
    requires Shape(s) && IsValue(sel, v) && i < SLOTS && LineMirrors(s.cols[sel'][i], s.mem, sel', i)
    ensures var s' := Lookup(s, sel, v, foeIdx, now, timeout, entries, foe).0;
            Shape(s') && LineMirrors(s'.cols[sel'][i], s'.mem, sel', i)
  {
    var (col, _, _) := Find(s.cols[sel], v, foeIdx, now, timeout, entries);
    FindKeepsLine(s, sel, v, foeIdx, now, timeout, entries, sel', i);
    hide Find, RowHolds, WriteRow, IsValue;
    SweepOnlyInvalidates(s.cols[sel := col][sel'], foe, now, timeout, entries);
  }

  /** A lookup keeps the table a mirror, and the index it returns names a slot whose row is the value asked for. */
  lemma LookupKeepsMirror(s: State, sel: Select, v: seq<nat>, foeIdx: nat, now: nat, timeout: nat,
                          entries: Option<nat>, foe: nat -> FoeState)
    requires Mirrors(s) && IsValue(sel, v)
    ensures var (s', r) := Lookup(s, sel, v, foeIdx, now, timeout, entries, foe);
            && Mirrors(s')
            && (r.Some? ==> r.value < SLOTS && Holds(s'.cols[sel][r.value], v) && RowHolds(s'.mem, sel, r.value, v))
  {
    var (s', r) := Lookup(s, sel, v, foeIdx, now, timeout, entries, foe);
    var (col, _, written) := Find(s.cols[sel], v, foeIdx, now, timeout, entries);
    FindReturnsLowest(s.cols[sel], v, foeIdx, now, timeout, entries);
    hide Find, RowHolds, WriteRow, FirstHolding, FirstReusable, IsValue;
    forall sel': Select, i: nat | i < SLOTS
      ensures LineMirrors(s'.cols[sel'][i], s'.mem, sel', i)
    {
      LookupKeepsLine(s, sel, v, foeIdx, now, timeout, entries, foe, sel', i);
    }
    if r.Some? {
      SweepOnlyInvalidates(col, foe, now, timeout, entries);
      assert LineMirrors(s'.cols[sel][r.value], s'.mem, sel, r.value);
    }
  }

  /** Pinning keeps the mirror exactly when hardware holds the MAC by then. */
  lemma PinKeepsMirror(s: State, index: nat, mac: seq<nat>)
    requires Mirrors(s) && IsValue(Smac, mac) && index < SLOTS
    ensures Mirrors(Pinned(s, index, mac)) <==> RowHolds(s.mem, Smac, index, mac)
  {
    var s' := Pinned(s, index, mac);
    hide RowHolds, IsValue;
    forall sel: Select, i: nat | i < SLOTS && (sel != Smac || i != index)
      ensures LineMirrors(s'.cols[sel][i], s'.mem, sel, i)
    {
      assert LineMirrors(s.cols[sel][i], s.mem, sel, i);
    }
    assert LineMirrors(s'.cols[Smac][index], s'.mem, Smac, index) <==> RowHolds(s.mem, Smac, index, mac);
  }

  /** A MAC change that nothing comes in between keeps the mirror, for any row. */
  lemma InstallKeepsMirror(s: State, index: nat, mac: seq<nat>)
    requires Mirrors(s) && IsValue(Smac, mac) && index < SLOTS
    ensures Mirrors(Installed(s, index, mac))
    ensures Holds(Installed(s, index, mac).cols[Smac][index], mac) && Installed(s, index, mac).cols[Smac][index].pinned
  {
    WriteRowHolds(s.mem, Smac, index, mac, HwLines(Smac));
    var s' := Installed(s, index, mac);
    forall sel: Select, i: nat | i < SLOTS
      ensures LineMirrors(s'.cols[sel][i], s'.mem, sel, i)
    {
      assert LineMirrors(s.cols[sel][i], s.mem, sel, i);
      if sel != Smac || i != index {
        RowKept(s.mem, Smac, index, mac, s.cols[sel][i], sel, i);
      }
      hide RowHolds, WriteRow;
    }
  }

  // ---------------------------------------------------------------- MAC changes beside lookups

  /** A MAC change under way: `words` of the row's two are stored; armed, the next one's data write is done. */
  datatype Change = Change(mac: seq<nat>, words: nat, armed: bool)

  /** A lookup that holds shnk_tbl_lock and is writing its row. */
  datatype Writing = Writing(sel: Select, index: nat, v: seq<nat>, words: nat, armed: bool)

  /**
   Both write a word by storing it in the one data register and then naming the row in the control register, and only
   the lookup and the pin take the lock.
   */
  datatype Sys = Sys(tbl: State, data: nat, open: map<nat, Change>, busy: Option<Writing>)

  /**
   The software part of a lookup is one step, as nobody looks at it without the lock: the matching loops, the new
   content and the sweep.
   */
  datatype Op =
    | LookupOp(sel: Select, v: seq<nat>, foeIdx: nat, now: nat, timeout: nat, entries: Option<nat>, foe: nat -> FoeState)
    | LookupData
    | LookupCtrl
    | SweepOp(now: nat, timeout: nat, entries: Option<nat>, foe: nat -> FoeState)
    | FirstData(index: nat, mac: seq<nat>)
    | SecondData(index: nat)
    | ChangeCtrl(index: nat)
    | Pin(index: nat)

  ghost function SweepAll(s: State, foe: nat -> FoeState, now: nat, timeout: nat, entries: Option<nat>): State {
    s.(cols := map sel | sel in s.cols :: Swept(s.cols[sel], foe, now, timeout, entries))
  }

  /** The steps each takes in its order, one change of a row at a time. */
  predicate Possible(y: Sys, op: Op) {
    match op
    case LookupOp(sel, v, _, _, _, _, _) => y.busy.None? && IsValue(sel, v)
    case LookupData => y.busy.Some? && !y.busy.value.armed
    case LookupCtrl => y.busy.Some? && y.busy.value.armed
    case SweepOp(_, _, _, _) => y.busy.None?
    case FirstData(index, mac) => index < SLOTS && index !in y.open && IsValue(Smac, mac)
    case SecondData(index) => index in y.open && y.open[index].words == 1 && !y.open[index].armed
    case ChangeCtrl(index) => index in y.open && y.open[index].armed
    case Pin(index) => y.busy.None? && index in y.open && y.open[index].words == 2
  }

  /** What is pinned is valid, and what is valid is a value. */
  ghost function LineOk(l: Line, sel: Select): (ok: bool)
    ensures ok ==> (l.valid ==> IsValue(sel, l.content)) && (l.pinned ==> l.valid)
  {
    (l.valid ==> IsValue(sel, l.content)) && (l.pinned ==> l.valid)
  }

  ghost function TableOk(s: State): (ok: bool)
    ensures ok ==> Shape(s)
  {
    Shape(s) && forall sel: Select, i: nat :: i < SLOTS ==> LineOk(s.cols[sel][i], sel)
  }

  function ChangeOk(i: nat, c: Change): (ok: bool)
    ensures ok ==> |c.mac| == ContentSize(Smac)
  {
    i < SLOTS && IsValue(Smac, c.mac) && c.words <= 2 && (if c.armed then c.words < 2 else c.words > 0)
  }

  function BusyOk(s: State, b: Writing): (ok: bool)
    requires Shape(s)
    ensures ok ==> |b.v| == ContentSize(b.sel)
  {
    && b.index < SLOTS && IsValue(b.sel, b.v) && b.words < HwLines(b.sel)
    && Holds(s.cols[b.sel][b.index], b.v) && !s.cols[b.sel][b.index].pinned
  }

  ghost function Framed(y: Sys): (framed: bool)
    ensures framed ==> TableOk(y.tbl)
  {
    && TableOk(y.tbl)
    && (forall i :: i in y.open ==> ChangeOk(i, y.open[i]))
    && (y.busy.Some? ==> BusyOk(y.tbl, y.busy.value))
  }

  /** The row a lookup writes, if it writes one. */
  function Taken(y: Sys, op: Op): Option<nat>
    requires Shape(y.tbl) && op.LookupOp?
  {
    var found := Find(y.tbl.cols[op.sel], op.v, op.foeIdx, op.now, op.timeout, op.entries);
    if found.2 then found.1 else None
  }

  /** The lookup up to its first register write, or all of it when no row is written. */
  ghost function Begin(y: Sys, op: Op): (r: Sys)
    requires Framed(y) && op.LookupOp? && Possible(y, op)
    ensures Framed(r)
  {
    BeginFramed(y, op);
    y.(tbl := Lookup(y.tbl, op.sel, op.v, op.foeIdx, op.now, op.timeout, op.entries, op.foe).0.(mem := y.tbl.mem),
       busy := if Taken(y, op).Some? then Some(Writing(op.sel, Taken(y, op).value, op.v, 0, false)) else None)
  }

  lemma BeginFramed(y: Sys, op: Op)
    requires Framed(y) && op.LookupOp? && Possible(y, op)
    ensures var s := Lookup(y.tbl, op.sel, op.v, op.foeIdx, op.now, op.timeout, op.entries, op.foe).0.(mem := y.tbl.mem);
            && TableOk(s)
            && (Taken(y, op).Some? ==> BusyOk(s, Writing(op.sel, Taken(y, op).value, op.v, 0, false)))
  {
    hide Find, Swept, IsValue, WriteRow, LineOk, Taken;
    var s := Lookup(y.tbl, op.sel, op.v, op.foeIdx, op.now, op.timeout, op.entries, op.foe).0.(mem := y.tbl.mem);
    assert Shape(s);
    hide Lookup;
    forall sel: Select, i: nat | i < SLOTS
      ensures LineOk(s.cols[sel][i], sel)
    {
      BeginLineOk(y, op, sel, i);
    }
    if Taken(y, op).Some? {
      BeginLine(y, op, op.sel, 0);
      BeginLine(y, op, op.sel, Taken(y, op).value);
    }
  }

  lemma BeginLineOk(y: Sys, op: Op, sel: Select, i: nat)
    requires Framed(y) && op.LookupOp? && Possible(y, op) && i < SLOTS
    ensures LineOk(Lookup(y.tbl, op.sel, op.v, op.foeIdx, op.now, op.timeout, op.entries, op.foe).0.cols[sel][i], sel)
  {
    assert LineOk(y.tbl.cols[sel][i], sel);
    BeginLine(y, op, sel, i);
    hide Find, Lookup, IsValue;
  }

  /** One slot before and after a lookup. */
  lemma BeginLine(y: Sys, op: Op, sel: Select, i: nat)
    requires Framed(y) && op.LookupOp? && Possible(y, op) && i < SLOTS
    ensures var l, l' := y.tbl.cols[sel][i],
                         Lookup(y.tbl, op.sel, op.v, op.foeIdx, op.now, op.timeout, op.entries, op.foe).0.cols[sel][i];
            && l'.pinned == l.pinned
            && (Taken(y, op).Some? ==> Taken(y, op).value < SLOTS)
            && (if sel == op.sel && Taken(y, op) == Some(i) then Holds(l', op.v) && !l.pinned
                else l'.content == l.content && (l'.valid ==> l.valid) && (l.pinned ==> l'.valid))
  {
    var col := y.tbl.cols[op.sel];
    assert LineOk(y.tbl.cols[sel][i], sel);
    hide Find, Framed, IsValue, LineOk;
    var col' := Find(col, op.v, op.foeIdx, op.now, op.timeout, op.entries).0;
    FindLine(col, op.v, op.foeIdx, op.now, op.timeout, op.entries, i);
    SweepOnlyInvalidates(y.tbl.cols[op.sel := col'][sel], op.foe, op.now, op.timeout, op.entries);
    hide Swept;
  }

  lemma FindLine(col: Column, v: seq<nat>, foeIdx: nat, now: nat, timeout: nat, entries: Option<nat>, i: nat)
    requires i < |col|
    ensures var found, l := Find(col, v, foeIdx, now, timeout, entries), Find(col, v, foeIdx, now, timeout, entries).0[i];
            && l.pinned == col[i].pinned
            && (found.2 ==> found.1.Some?)
            && (if found.2 && found.1 == Some(i) then
                  Holds(l, v) && !TimedOut(l, now, timeout) && (col[i].pinned ==> !col[i].valid)
                else
                  && l.content == col[i].content && (l.valid ==> col[i].valid)
                  && (col[i].pinned && col[i].valid ==> l.valid))
  {
    hide FirstHolding, FirstReusable;
  }

  /** A control write: the data register's word goes to the row named. */
  function Store(s: State, sel: Select, index: nat, j: nat, word: nat): State
    requires j < HwLines(sel)
  {
    s.(mem := s.mem[(sel, index, Offset(sel, j)) := word])
  }

  /** An operation that is not possible changes nothing. */
  ghost function Apply(y: Sys, op: Op): (r: Sys)
    requires Framed(y)
    ensures Framed(r)
  {
    if !Possible(y, op) then y
    else
      match op
      case LookupOp(_, _, _, _, _, _, _) => Begin(y, op)
      case LookupData =>
        var b := y.busy.value;
        y.(data := HwWord(b.sel, b.v, b.words), busy := Some(b.(armed := true)))
      case LookupCtrl =>
        var b := y.busy.value;
        y.(tbl := Store(y.tbl, b.sel, b.index, b.words, y.data),
           busy := if b.words + 1 == HwLines(b.sel) then None else Some(b.(words := b.words + 1, armed := false)))
      case SweepOp(now, timeout, entries, foe) =>
        SweepFramed(y, op);
        y.(tbl := SweepAll(y.tbl, foe, now, timeout, entries))
      case FirstData(index, mac) => y.(data := HwWord(Smac, mac, 0), open := y.open[index := Change(mac, 0, true)])
      case SecondData(index) =>
        var c := y.open[index];
        y.(data := HwWord(Smac, c.mac, 1), open := y.open[index := c.(armed := true)])
      case ChangeCtrl(index) =>
        var c := y.open[index];
        y.(tbl := Store(y.tbl, Smac, index, c.words, y.data),
           open := y.open[index := c.(words := c.words + 1, armed := false)])
      case Pin(index) => y.(tbl := Pinned(y.tbl, index, y.open[index].mac), open := y.open - {index})
  }

  lemma SweepFramed(y: Sys, op: Op)
    requires Framed(y) && op.SweepOp?
    ensures TableOk(SweepAll(y.tbl, op.foe, op.now, op.timeout, op.entries))
  {
    var s := SweepAll(y.tbl, op.foe, op.now, op.timeout, op.entries);
    forall sel: Select, i: nat | i < SLOTS
      ensures LineOk(s.cols[sel][i], sel)
    {
      assert LineOk(y.tbl.cols[sel][i], sel);
      SweepOnlyInvalidates(y.tbl.cols[sel], op.foe, op.now, op.timeout, op.entries);
    }
  }

  ghost function Run(y: Sys, ops: seq<Op>): (r: Sys)
    requires Framed(y)
    ensures Framed(r)
    decreases |ops|
  {
    if |ops| == 0 then y else Apply(Run(y, ops[..|ops| - 1]), ops[|ops| - 1])
  }

  // ---------------------------------------------------------------- which words a row should hold

  /** A lookup is writing this row and has not come to this word. */
  predicate Ahead(y: Sys, sel: Select, i: nat, j: nat) {
    y.busy.Some? && y.busy.value.sel == sel && y.busy.value.index == i && y.busy.value.words <= j
  }

  /** A change of this row has stored this word. */
  predicate Changed(y: Sys, sel: Select, i: nat, j: nat) { sel == Smac && i in y.open && j < y.open[i].words }

  /** The new MAC's words as far as they are stored, else the content's, unless a lookup is still to write them. */
  ghost function Due(y: Sys, sel: Select, i: nat, j: nat): Option<nat>
    requires Framed(y) && i < SLOTS && j < HwLines(sel)
  {
    var l := y.tbl.cols[sel][i];
    assert LineOk(l, sel);
    if Changed(y, sel, i, j) then assert ChangeOk(i, y.open[i]); Some(HwWord(Smac, y.open[i].mac, j))
    else if Ahead(y, sel, i, j) || !l.valid then None
    else Some(HwWord(sel, l.content, j))
  }

  ghost predicate WordOk(y: Sys, sel: Select, i: nat, j: nat)
    requires Framed(y) && i < SLOTS && j < HwLines(sel)
  {
    var due, key := Due(y, sel, i, j), (sel, i, Offset(sel, j));
    due.Some? ==> key in y.tbl.mem && y.tbl.mem[key] == due.value
  }

  ghost function Inv(y: Sys): (inv: bool)
    ensures inv ==> Framed(y)
  {
    Framed(y) && forall sel: Select, i: nat, j: nat :: i < SLOTS && j < HwLines(sel) ==> WordOk(y, sel, i, j)
  }

  /** Every row no change or lookup is writing mirrors its slot. */
  lemma QuietRowsMirror(y: Sys, sel: Select, i: nat)
    requires Inv(y) && i < SLOTS && !(sel == Smac && i in y.open)
    requires y.busy.Some? ==> y.busy.value.sel != sel || y.busy.value.index != i
    ensures LineMirrors(y.tbl.cols[sel][i], y.tbl.mem, sel, i)
  {
    hide HwWord, IsValue;
    var l := y.tbl.cols[sel][i];
    assert LineOk(l, sel);
    if l.valid {
      forall j | 0 <= j < HwLines(sel)
        ensures (sel, i, Offset(sel, j)) in y.tbl.mem && y.tbl.mem[(sel, i, Offset(sel, j))] == HwWord(sel, l.content, j)
      {
        assert WordOk(y, sel, i, j);
      }
    }
  }

  lemma ClosedMirrors(y: Sys)
    requires Inv(y) && y.open == map[] && y.busy.None?
    ensures Mirrors(y.tbl)
  {
    forall sel: Select, i: nat | i < SLOTS
      ensures LineMirrors(y.tbl.cols[sel][i], y.tbl.mem, sel, i)
    {
      QuietRowsMirror(y, sel, i);
    }
  }

  /** Inside a window the slot mirrors its row exactly as long as its content has the words already written. */
  lemma MirrorsInWindow(y: Sys, i: nat)
    requires Inv(y) && i in y.open && i < SLOTS && y.tbl.cols[Smac][i].valid
    requires y.busy.Some? ==> y.busy.value.sel != Smac || y.busy.value.index != i
    ensures IsValue(Smac, y.tbl.cols[Smac][i].content) && IsValue(Smac, y.open[i].mac) && y.open[i].words <= 2
    ensures LineMirrors(y.tbl.cols[Smac][i], y.tbl.mem, Smac, i) <==>
            forall j :: 0 <= j < y.open[i].words ==>
              HwWord(Smac, y.tbl.cols[Smac][i].content, j) == HwWord(Smac, y.open[i].mac, j)
  {
    var l, c := y.tbl.cols[Smac][i], y.open[i];
    assert LineOk(l, Smac) && ChangeOk(i, c);
    hide IsValue, HwWord;
    forall j | 0 <= j < HwLines(Smac)
      ensures (Smac, i, Offset(Smac, j)) in y.tbl.mem
      ensures y.tbl.mem[(Smac, i, Offset(Smac, j))] == HwWord(Smac, if j < c.words then c.mac else l.content, j)
    {
      assert WordOk(y, Smac, i, j);
    }
  }

  // ---------------------------------------------------------------- the step that breaks it

  /** A writer is a change of a row, or None for the lookup; armed, its data write is done and its control write not. */
  predicate Armed(y: Sys, who: Option<nat>) {
    if who.Some? then who.value in y.open && y.open[who.value].armed else y.busy.Some? && y.busy.value.armed
  }

  /** The word it is writing. */
  ghost function Own(y: Sys, who: Option<nat>): nat
    requires Framed(y) && Armed(y, who)
  {
    if who.Some? then
      assert ChangeOk(who.value, y.open[who.value]);
      HwWord(Smac, y.open[who.value].mac, y.open[who.value].words)
    else HwWord(y.busy.value.sel, y.busy.value.v, y.busy.value.words)
  }

  /** Whose step it is, of those that write a register. */
  function Writer(op: Op): Option<nat> {
    match op
    case FirstData(index, _) => Some(index)
    case SecondData(index) => Some(index)
    case ChangeCtrl(index) => Some(index)
    case _ => None
  }

  /** A word of a row. */
  datatype Place = Place(sel: Select, row: nat, line: nat)

  /** The word a control write stores. */
  ghost function Target(y: Sys, op: Op): (t: Option<Place>)
    requires Framed(y)
    ensures t.Some? ==> t.value.row < SLOTS && t.value.line < HwLines(t.value.sel)
  {
    if !Possible(y, op) then None
    else if op.ChangeCtrl? then
      assert ChangeOk(op.index, y.open[op.index]);
      Some(Place(Smac, op.index, y.open[op.index].words))
    else if op.LookupCtrl? then Some(Place(y.busy.value.sel, y.busy.value.index, y.busy.value.words))
    else None
  }

  /** The word that should be stored: the writer's own, unless a change of the same row has already stored its word. */
  ghost function Right(y: Sys, op: Op): nat
    requires Framed(y) && Target(y, op).Some?
  {
    var t := Target(y, op).value;
    if Changed(y, t.sel, t.row, t.line) then
      assert ChangeOk(t.row, y.open[t.row]);
      HwWord(Smac, y.open[t.row].mac, t.line)
    else Own(y, Writer(op))
  }

  /** A control write that finds another word in the data register. */
  ghost predicate Misstores(y: Sys, op: Op)
    requires Framed(y)
  {
    Target(y, op).Some? && y.data != Right(y, op)
  }

  /** Every step keeps the rows in order, except exactly such a control write. */
  lemma StepKeepsInv(y: Sys, op: Op)
    requires Inv(y)
    ensures Inv(Apply(y, op)) <==> !Misstores(y, op)
  {
    var y', t := Apply(y, op), Target(y, op);
    hide Apply, Possible, WordOk, Misstores, Target;
    forall sel: Select, i: nat, j: nat | i < SLOTS && j < HwLines(sel) && t != Some(Place(sel, i, j))
      ensures WordOk(y', sel, i, j)
    {
      OtherWordsStay(y, op, sel, i, j);
    }
    if t.Some? {
      StoredWord(y, op);
      assert WordOk(y', t.value.sel, t.value.row, t.value.line) <==> !Misstores(y, op);
    } else {
      NothingStored(y, op);
    }
  }

  lemma NothingStored(y: Sys, op: Op)
    requires Framed(y) && Target(y, op).None?
    ensures !Misstores(y, op)
  {
  }

  lemma StoredWord(y: Sys, op: Op)
    requires Inv(y) && Target(y, op).Some?
    ensures var t := Target(y, op).value; WordOk(Apply(y, op), t.sel, t.row, t.line) <==> !Misstores(y, op)
  {
    var t := Target(y, op).value;
    assert LineOk(y.tbl.cols[t.sel][t.row], t.sel);
    hide HwWord, IsValue;
  }

  lemma OffsetsDiffer(sel: Select, j: nat, k: nat)
    requires j < HwLines(sel) && k < HwLines(sel) && j != k
    ensures Offset(sel, j) != Offset(sel, k)
  {
  }

  /** A word that is not stored is due to be what it was, or is no longer due. */
  lemma OtherWordsStay(y: Sys, op: Op, sel: Select, i: nat, j: nat)
    requires Inv(y) && i < SLOTS && j < HwLines(sel) && Target(y, op) != Some(Place(sel, i, j))
    ensures WordOk(Apply(y, op), sel, i, j)
  {
    assert WordOk(y, sel, i, j);
    hide Inv;
    if Possible(y, op) {
      match op
      case LookupOp(_, _, _, _, _, _, _) => BeginWord(y, op, sel, i, j);
      case LookupData =>
      case LookupCtrl => CtrlOtherWord(y, op, sel, i, j);
      case SweepOp(_, _, _, _) => SweepWord(y, op, sel, i, j);
      case FirstData(_, _) =>
      case SecondData(_) =>
      case ChangeCtrl(_) => CtrlOtherWord(y, op, sel, i, j);
      case Pin(_) => PinWord(y, op, sel, i, j);
    }
  }

  lemma BeginWord(y: Sys, op: Op, sel: Select, i: nat, j: nat)
    requires Framed(y) && i < SLOTS && j < HwLines(sel) && op.LookupOp? && Possible(y, op) && WordOk(y, sel, i, j)
    ensures WordOk(Apply(y, op), sel, i, j)
  {
    BeginLine(y, op, sel, i);
    hide Find, Lookup, HwWord, IsValue;
  }

  lemma SweepWord(y: Sys, op: Op, sel: Select, i: nat, j: nat)
    requires Framed(y) && i < SLOTS && j < HwLines(sel) && op.SweepOp? && Possible(y, op) && WordOk(y, sel, i, j)
    ensures WordOk(Apply(y, op), sel, i, j)
  {
    SweepOnlyInvalidates(y.tbl.cols[sel], op.foe, op.now, op.timeout, op.entries);
    hide Swept, HwWord, IsValue;
  }

  lemma CtrlOtherWord(y: Sys, op: Op, sel: Select, i: nat, j: nat)
    requires Framed(y) && i < SLOTS && j < HwLines(sel) && Target(y, op).Some? && Target(y, op) != Some(Place(sel, i, j))
    requires WordOk(y, sel, i, j)
    ensures WordOk(Apply(y, op), sel, i, j)
  {
    var t := Target(y, op).value;
    var s, k, n := t.sel, t.row, t.line;
    if s == sel && n != j { OffsetsDiffer(sel, j, n); }
    hide HwWord, IsValue, Offset;
    assert Apply(y, op).tbl == Store(y.tbl, s, k, n, y.data);
    assert Changed(Apply(y, op), sel, i, j) == Changed(y, sel, i, j);
    assert Ahead(Apply(y, op), sel, i, j) == Ahead(y, sel, i, j);
    assert Due(Apply(y, op), sel, i, j) == Due(y, sel, i, j);
    hide Apply, Due, Changed, Ahead, Framed;
  }

  lemma PinWord(y: Sys, op: Op, sel: Select, i: nat, j: nat)
    requires Framed(y) && i < SLOTS && j < HwLines(sel) && op.Pin? && Possible(y, op) && WordOk(y, sel, i, j)
    ensures WordOk(Apply(y, op), sel, i, j)
  {
    hide HwWord, IsValue;
  }

  lemma RunUnfolds(y: Sys, ops: seq<Op>)
    requires Framed(y)
    ensures Run(y, ops) == if |ops| == 0 then y else Apply(Run(y, ops[..|ops| - 1]), ops[|ops| - 1])
  {
  }

  /** The rows are in order all along a run exactly when none of its control writes finds another word. */
  lemma {:induction false} RowsStayInOrder(y: Sys, ops: seq<Op>)
    requires Inv(y)
    ensures (forall k :: 0 <= k <= |ops| ==> Inv(Run(y, ops[..k]))) <==>
            (forall k :: 0 <= k < |ops| ==> !Misstores(Run(y, ops[..k]), ops[k]))
    decreases |ops|
  {
    hide Inv, Apply, Misstores, Run;
    var n := |ops|;
    assert ops[..n] == ops;
    RunUnfolds(y, ops);
    if n > 0 {
      var init := ops[..n - 1];
      RowsStayInOrder(y, init);
      forall k | 0 <= k <= n - 1
        ensures init[..k] == ops[..k]
      {
      }
      if forall k :: 0 <= k <= n - 1 ==> Inv(Run(y, ops[..k])) {
        assert Inv(Run(y, ops[..n - 1]));
        StepKeepsInv(Run(y, init), ops[n - 1]);
      }
    }
  }

  // ---------------------------------------------------------------- when a control write finds another word

  /** Each writer between its two writes would find its word in the data register. */
  ghost predicate ArmedOk(y: Sys)
    requires Framed(y)
  {
    forall who: Option<nat> :: Armed(y, who) ==> y.data == Own(y, who)
  }

  predicate IsDataWrite(op: Op) { op.LookupData? || op.FirstData? || op.SecondData? }

  /** A data write of another word between the two writes of who's word. */
  ghost predicate InterposesOn(y: Sys, op: Op, who: Option<nat>)
    requires Framed(y)
  {
    Possible(y, op) && IsDataWrite(op) && who != Writer(op) && Armed(y, who) && Own(y, who) != Apply(y, op).data
  }

  ghost predicate Interposes(y: Sys, op: Op)
    requires Framed(y)
  {
    exists who: Option<nat> :: InterposesOn(y, op, who)
  }

  lemma StepKeepsArmed(y: Sys, op: Op)
    requires Framed(y) && ArmedOk(y)
    ensures ArmedOk(Apply(y, op)) <==> !Interposes(y, op)
  {
    var y' := Apply(y, op);
    forall who: Option<nat>
      ensures !InterposesOn(y, op, who) <==> (Armed(y', who) ==> y'.data == Own(y', who))
    {
      ArmedAfter(y, op, who);
    }
    hide Apply, InterposesOn, Own, Armed;
  }

  lemma ArmedAfter(y: Sys, op: Op, who: Option<nat>)
    requires Framed(y) && ArmedOk(y)
    ensures var y' := Apply(y, op);
            !InterposesOn(y, op, who) <==> (Armed(y', who) ==> y'.data == Own(y', who))
  {
    assert Armed(y, who) ==> y.data == Own(y, who);
    hide ArmedOk, HwWord, IsValue, BusyOk, TableOk;
  }

  /** And its control write then stores the other word. */
  lemma InterposedMisstores(y: Sys, op: Op, who: Option<nat>)
    requires Framed(y) && InterposesOn(y, op, who)
    requires who.None? ==> y.busy.value.sel != Smac || (y.busy.value.index !in y.open && Writer(op) != Some(y.busy.value.index))
    ensures Misstores(Apply(y, op), if who.Some? then ChangeCtrl(who.value) else LookupCtrl)
  {
    hide HwWord, IsValue, BusyOk, TableOk;
  }

  /** A lookup's word going over a different one that a change of the row has already stored. */
  ghost predicate Clobbers(y: Sys, op: Op)
    requires Framed(y)
  {
    op.LookupCtrl? && Target(y, op).Some? && Right(y, op) != Own(y, None)
  }

  /** Apart from data writes in between, a control write goes wrong only so. */
  lemma MisstoreIsClobber(y: Sys, op: Op)
    requires Framed(y) && ArmedOk(y)
    ensures Misstores(y, op) <==> Clobbers(y, op)
  {
    hide HwWord, IsValue, BusyOk, TableOk;
    if Target(y, op).Some? { assert Armed(y, Writer(op)) && y.data == Own(y, Writer(op)); }
  }

  /** The rows are in order, and each control write that is due would store its writer's word. */
  ghost predicate Safe(y: Sys)
    requires Framed(y)
  {
    Inv(y) && ArmedOk(y)
  }

  lemma StepStaysSafe(y: Sys, op: Op)
    requires Framed(y) && Safe(y)
    ensures Safe(Apply(y, op)) <==> !Interposes(y, op) && !Clobbers(y, op)
  {
    hide Apply, Clobbers, Interposes, Misstores, Inv, ArmedOk;
    MisstoreIsClobber(y, op);
    StepKeepsInv(y, op);
    StepKeepsArmed(y, op);
  }

  // ---------------------------------------------------------------- runs

  /** A run stays safe exactly when no step of it comes between the two writes of a word or goes over a changed row. */
  lemma {:induction false} RunStaysSafe(y: Sys, ops: seq<Op>)
    requires Framed(y) && Safe(y)
    ensures (forall k :: 0 <= k <= |ops| ==> Safe(Run(y, ops[..k]))) <==>
            (forall k :: 0 <= k < |ops| ==> !Interposes(Run(y, ops[..k]), ops[k]) && !Clobbers(Run(y, ops[..k]), ops[k]))
    decreases |ops|
  {
    hide Apply, Clobbers, Interposes, Safe, Run, Framed;
    var n := |ops|;
    assert ops[..n] == ops;
    RunUnfolds(y, ops);
    if n > 0 {
      var init := ops[..n - 1];
      RunStaysSafe(y, init);
      forall k | 0 <= k <= n - 1
        ensures init[..k] == ops[..k]
      {
      }
      if forall k :: 0 <= k <= n - 1 ==> Safe(Run(y, ops[..k])) {
        assert Safe(Run(y, ops[..n - 1]));
        StepStaysSafe(Run(y, init), ops[n - 1]);
      }
    }
  }

  /** Software and hardware then agree on every row that nothing is writing. */
  lemma RunKeepsMirror(y: Sys, ops: seq<Op>)
    requires Framed(y) && Safe(y)
    requires forall k :: 0 <= k < |ops| ==> !Interposes(Run(y, ops[..k]), ops[k]) && !Clobbers(Run(y, ops[..k]), ops[k])
    ensures Safe(Run(y, ops))
    ensures Run(y, ops).open == map[] && Run(y, ops).busy.None? ==> Mirrors(Run(y, ops).tbl)
  {
    hide Inv, Clobbers, Interposes, Mirrors, ArmedOk, Run, Framed;
    RunStaysSafe(y, ops);
    assert ops[..|ops|] == ops;
    assert Safe(Run(y, ops[..|ops|]));
    if Run(y, ops).open == map[] && Run(y, ops).busy.None? { ClosedMirrors(Run(y, ops)); }
  }

  /** Every row being changed is pinned. */
  predicate PinnedRows(y: Sys)
    requires Shape(y.tbl)
  {
    forall i :: i in y.open && i < SLOTS ==> y.tbl.cols[Smac][i].pinned
  }

  /** The start of a change of a row that is not pinned. */
  predicate StartsUnpinned(y: Sys, op: Op)
    requires Shape(y.tbl)
  {
    op.FirstData? && Possible(y, op) && !y.tbl.cols[Smac][op.index].pinned
  }

  /** A lookup never takes a pinned slot, so it does not go over rows that are. */
  lemma PinnedIsNotClobbered(y: Sys, op: Op)
    requires Framed(y) && PinnedRows(y)
    ensures !Clobbers(y, op)
    ensures PinnedRows(Apply(y, op)) <==> !StartsUnpinned(y, op)
  {
    var y' := Apply(y, op);
    forall i: nat | i < SLOTS
      ensures i in y.open ==> y'.tbl.cols[Smac][i].pinned
    {
      if op.LookupOp? && Possible(y, op) { BeginLine(y, op, Smac, i); }
      if op.SweepOp? { SweepOnlyInvalidates(y.tbl.cols[Smac], op.foe, op.now, op.timeout, op.entries); }
      hide Lookup, Find, Swept, IsValue, HwWord;
    }
    hide Lookup, Find, Swept, IsValue, HwWord;
    if StartsUnpinned(y, op) { assert op.index in y'.open; }
  }

  lemma {:induction false} PinnedRowsStay(y: Sys, ops: seq<Op>)
    requires Framed(y) && PinnedRows(y)
    requires forall k :: 0 <= k < |ops| ==> !StartsUnpinned(Run(y, ops[..k]), ops[k])
    ensures PinnedRows(Run(y, ops))
    ensures forall k :: 0 <= k < |ops| ==> !Clobbers(Run(y, ops[..k]), ops[k])
    decreases |ops|
  {
    hide Apply, Clobbers, StartsUnpinned, PinnedRows, Run, Framed;
    RunUnfolds(y, ops);
    if |ops| > 0 {
      var init := ops[..|ops| - 1];
      forall k | 0 <= k < |init|
        ensures init[..k] == ops[..k]
      {
      }
      PinnedRowsStay(y, init);
      PinnedIsNotClobbered(Run(y, init), ops[|ops| - 1]);
    }
  }

  /**
   So with changes of pinned rows only, a run stays safe exactly when no other word is put into the data register
   between the two writes of one; whatever else runs beside the changes, they cost no mirror then.
   */
  lemma ChangesOfPinnedRowsAreSafe(y: Sys, ops: seq<Op>)
    requires Framed(y) && Safe(y) && PinnedRows(y)
    requires forall k :: 0 <= k < |ops| ==> !StartsUnpinned(Run(y, ops[..k]), ops[k])
    ensures (forall k :: 0 <= k <= |ops| ==> Safe(Run(y, ops[..k]))) <==>
            (forall k :: 0 <= k < |ops| ==> !Interposes(Run(y, ops[..k]), ops[k]))
    ensures (forall k :: 0 <= k < |ops| ==> !Interposes(Run(y, ops[..k]), ops[k])) ==>
              Run(y, ops).open == map[] && Run(y, ops).busy.None? ==> Mirrors(Run(y, ops).tbl)
  {
    hide *;
    PinnedRowsStay(y, ops);
    RunStaysSafe(y, ops);
    if forall k :: 0 <= k < |ops| ==> !Interposes(Run(y, ops[..k]), ops[k]) {
      RunKeepsMirror(y, ops);
    }
  }

  ghost predicate PinnedWith(y: Sys, sel: Select, i: nat, v: seq<nat>)
    requires Framed(y) && i < SLOTS
  {
    Holds(y.tbl.cols[sel][i], v) && y.tbl.cols[sel][i].pinned
  }

  /** The pin of another MAC to this very slot. */
  predicate Repins(y: Sys, op: Op, sel: Select, i: nat, v: seq<nat>) {
    op.Pin? && Possible(y, op) && sel == Smac && op.index == i && y.open[i].mac != v
  }

  lemma StepKeepsPinned(y: Sys, op: Op, sel: Select, i: nat, v: seq<nat>)
    requires Framed(y) && i < SLOTS && PinnedWith(y, sel, i, v)
    ensures PinnedWith(Apply(y, op), sel, i, v) <==> !Repins(y, op, sel, i, v)
  {
    if op.LookupOp? && Possible(y, op) { BeginLine(y, op, sel, i); }
    if op.SweepOp? { SweepOnlyInvalidates(y.tbl.cols[sel], op.foe, op.now, op.timeout, op.entries); }
    hide Lookup, Find, Swept, IsValue, HwWord;
  }

  /**
   A pinned slot stays valid with the same content across any run of lookups, sweeps and MAC changes in which
   no other MAC is pinned to it; each step loses it exactly when that happens.
   */
  lemma {:induction false} PinnedSurvives(y: Sys, ops: seq<Op>, sel: Select, i: nat, v: seq<nat>)
    requires Framed(y) && i < SLOTS && PinnedWith(y, sel, i, v)
    requires forall k :: 0 <= k < |ops| ==> !Repins(Run(y, ops[..k]), ops[k], sel, i, v)
    ensures PinnedWith(Run(y, ops), sel, i, v)
    decreases |ops|
  {
    hide Apply, PinnedWith, Holds, Repins, Framed, Run;
    RunUnfolds(y, ops);
    if |ops| > 0 {
      var init := ops[..|ops| - 1];
      forall k | 0 <= k < |init|
        ensures !Repins(Run(y, init[..k]), init[k], sel, i, v)
      {
        assert init[..k] == ops[..k];
      }
      PinnedSurvives(y, init, sel, i, v);
      StepKeepsPinned(Run(y, init), ops[|ops| - 1], sel, i, v);
    }
  }

  // ---------------------------------------------------------------- alone, each is what its caller expects

  lemma RunThen(y: Sys, ops: seq<Op>, op: Op)
    requires Framed(y)
    ensures Run(y, ops + [op]) == Apply(Run(y, ops), op)
  {
    assert (ops + [op])[..|ops|] == ops;
  }

  lemma {:induction false} RunJoins(y: Sys, a: seq<Op>, b: seq<Op>)
    requires Framed(y)
    ensures Run(y, a + b) == Run(Run(y, a), b)
    decreases |b|
  {
    hide Apply, Framed;
    if |b| > 0 {
      var init := b[..|b| - 1];
      assert (a + b)[..|a + b| - 1] == a + init && (a + b)[|a + b| - 1] == b[|b| - 1];
      RunJoins(y, a, init);
    } else {
      assert a + b == a;
    }
  }

  /** airoha_pon_ppe_init_upd_mem, or airoha_ppe_init_upd_mem with a port's id. */
  function Writes(index: nat, mac: seq<nat>): seq<Op> {
    [FirstData(index, mac)] + [ChangeCtrl(index)] + [SecondData(index)] + [ChangeCtrl(index)]
  }

  lemma WritesAlone(y: Sys, index: nat, mac: seq<nat>)
    requires Framed(y) && index < SLOTS && index !in y.open && IsValue(Smac, mac)
    ensures Run(y, Writes(index, mac)) ==
            y.(tbl := y.tbl.(mem := WriteRow(y.tbl.mem, Smac, index, mac, 2)), data := HwWord(Smac, mac, 1),
               open := y.open[index := Change(mac, 2, false)])
  {
    hide HwWord, IsValue, Framed;
    var a, b, c := FirstData(index, mac), ChangeCtrl(index), SecondData(index);
    RunEmpty(y);
    RunThen(y, [], a);
    assert [] + [a] == [a];
    RunThen(y, [a], b);
    RunThen(y, [a] + [b], c);
    RunThen(y, [a] + [b] + [c], b);
    hide Run;
    var m1 := y.tbl.mem[(Smac, index, 0) := HwWord(Smac, mac, 0)];
    assert WriteRow(y.tbl.mem, Smac, index, mac, 0) == y.tbl.mem;
    assert WriteRow(y.tbl.mem, Smac, index, mac, 1) == m1;
    assert WriteRow(y.tbl.mem, Smac, index, mac, 2) == m1[(Smac, index, 1) := HwWord(Smac, mac, 1)];
    assert Run(y, [a] + [b] + [c] + [b]).open == y.open[index := Change(mac, 2, false)];
  }

  lemma RunEmpty(y: Sys)
    requires Framed(y)
    ensures Run(y, []) == y
  {
  }

  /** The steps of a change with nothing in between are the whole change. */
  lemma ChangeAloneInstalls(y: Sys, index: nat, mac: seq<nat>)
    requires Framed(y) && index < SLOTS && index !in y.open && IsValue(Smac, mac) && y.busy.None?
    ensures Run(y, Writes(index, mac) + [Pin(index)]) == y.(tbl := Installed(y.tbl, index, mac), data := HwWord(Smac, mac, 1))
  {
    hide HwWord, IsValue, Framed, Writes, WriteRow, Run;
    WritesAlone(y, index, mac);
    RunThen(y, Writes(index, mac), Pin(index));
    assert y.open[index := Change(mac, 2, false)] - {index} == y.open;
  }

  /** The register writes of n words. */
  function Words(n: nat): seq<Op> { if n == 0 then [] else Words(n - 1) + [LookupData] + [LookupCtrl] }

  /** A lookup after n words. */
  ghost function Written(y: Sys, op: Op, n: nat): Sys
    requires Framed(y) && op.LookupOp? && Possible(y, op) && n <= HwLines(op.sel)
  {
    var s, r := Begin(y, op), Taken(y, op);
    if r.None? then s
    else
      s.(tbl := s.tbl.(mem := WriteRow(y.tbl.mem, op.sel, r.value, op.v, n)),
         data := if n == 0 then y.data else HwWord(op.sel, op.v, n - 1),
         busy := if n == HwLines(op.sel) then None else Some(Writing(op.sel, r.value, op.v, n, false)))
  }

  lemma WordStored(y: Sys, op: Op, n: nat)
    requires Framed(y) && op.LookupOp? && Possible(y, op) && 0 < n <= HwLines(op.sel) && Framed(Written(y, op, n - 1))
    ensures Apply(Apply(Written(y, op, n - 1), LookupData), LookupCtrl) == Written(y, op, n)
  {
    hide Find, Lookup, HwWord, IsValue, Framed;
    assert Taken(y, op).None? ==> Begin(y, op).busy.None?;
    hide Begin, Taken;
  }

  lemma {:induction false} WordsAlone(y: Sys, op: Op, n: nat)
    requires Framed(y) && op.LookupOp? && Possible(y, op) && n <= HwLines(op.sel)
    ensures Run(y, [op] + Words(n)) == Written(y, op, n)
  {
    hide Find, Lookup, HwWord, IsValue, Run, Framed;
    if n == 0 {
      RunEmpty(y);
      RunThen(y, [], op);
      assert [op] + Words(0) == [] + [op];
    } else {
      hide Apply, Written, Possible, HwLines;
      WordsAlone(y, op, n - 1);
      RunThen(y, [op] + Words(n - 1), LookupData);
      RunThen(y, [op] + Words(n - 1) + [LookupData], LookupCtrl);
      assert [op] + Words(n) == [op] + Words(n - 1) + [LookupData] + [LookupCtrl];
      WordStored(y, op, n);
    }
  }

  /** The steps of a lookup with nothing in between are the whole lookup. */
  lemma LookupAloneIsLookup(y: Sys, op: Op)
    requires Framed(y) && op.LookupOp? && Possible(y, op)
    ensures var z := Run(y, [op] + Words(HwLines(op.sel)));
            && z.tbl == Lookup(y.tbl, op.sel, op.v, op.foeIdx, op.now, op.timeout, op.entries, op.foe).0
            && z.open == y.open && z.busy.None?
            && (Find(y.tbl.cols[op.sel], op.v, op.foeIdx, op.now, op.timeout, op.entries).2 ==>
                  z.data == HwWord(op.sel, op.v, HwLines(op.sel) - 1))
  {
    WordsAlone(y, op, HwLines(op.sel));
    hide Find, HwWord, IsValue, Run, Words, WriteRow, Framed;
  }

  // ---------------------------------------------------------------- runs that lose

  /** The table after InitShrinkTable, with empty update memory. */
  function Fresh(): (y: Sys)
    ensures y.open == map[] && y.tbl.mem == map[] && y.busy.None? && TableOk(y.tbl)
    ensures forall sel: Select, i: nat :: i < SLOTS ==> y.tbl.cols[sel][i] == EMPTY
  {
    var s := State(map[Smac := seq(SLOTS, _ => EMPTY), Ipv6 := seq(SLOTS, _ => EMPTY), Ipv4 := seq(SLOTS, _ => EMPTY)],
                   map[]);
    AllSelects(s);
    Sys(s, 0, map[], None)
  }

  const OLD_MAC: seq<nat> := [2, 0, 0, 0, 0, 1]
  const NEW_MAC: seq<nat> := [2, 0, 0, 0, 0, 2]
  const OTHER_MAC: seq<nat> := [6, 0, 0, 0, 0, 3]

  lemma MacWords()
    ensures IsValue(Smac, OLD_MAC) && IsValue(Smac, NEW_MAC) && IsValue(Smac, OTHER_MAC)
    ensures HwWord(Smac, OLD_MAC, 0) == 1 && HwWord(Smac, OLD_MAC, 1) == 0x200
    ensures HwWord(Smac, NEW_MAC, 0) == 2 && HwWord(Smac, NEW_MAC, 1) == 0x200
    ensures HwWord(Smac, OTHER_MAC, 0) == 3 && HwWord(Smac, OTHER_MAC, 1) == 0x600
  {
  }

  /** The PON slot pinned to the old MAC. */
  ghost function Started(): (y: Sys)
    ensures Framed(y)
  {
    assert Framed(Fresh());
    Run(Fresh(), Writes(PON_SLOT, OLD_MAC) + [Pin(PON_SLOT)])
  }

  lemma StartedIs()
    ensures var y := Started();
            && Inv(y) && ArmedOk(y) && y.open == map[] && y.busy.None? && Mirrors(y.tbl) && PinnedWith(y, Smac, PON_SLOT, OLD_MAC)
            && forall i: nat :: i < SLOTS && i != PON_SLOT ==> y.tbl.cols[Smac][i] == EMPTY
  {
    MacWords();
    hide Run, HwWord, IsValue, Writes, WriteRow;
    ChangeAloneInstalls(Fresh(), PON_SLOT, OLD_MAC);
    InstallKeepsMirror(Fresh().tbl, PON_SLOT, OLD_MAC);
    MirrorsAlone(Started());
  }

  lemma MirrorsAlone(y: Sys)
    requires Framed(y) && y.open == map[] && y.busy.None? && Mirrors(y.tbl)
    ensures Inv(y) && ArmedOk(y)
  {
    hide IsValue, HwWord;
    forall sel: Select, i: nat, j: nat | i < SLOTS && j < HwLines(sel)
      ensures WordOk(y, sel, i, j)
    {
      assert LineMirrors(y.tbl.cols[sel][i], y.tbl.mem, sel, i);
    }
  }

  /**
   Inside the window of the PON slot: its old MAC is still found there, and the slot's index returned, when the row
   already has a word of the new one.
   */
  lemma StaleHitInWindow(foe: nat -> FoeState)
    ensures var y := Run(Started(), [FirstData(PON_SLOT, NEW_MAC)] + [ChangeCtrl(PON_SLOT)]);
            && Inv(y) && ArmedOk(y) && PinnedWith(y, Smac, PON_SLOT, OLD_MAC) && IsValue(Smac, OLD_MAC)
            && Lookup(y.tbl, Smac, OLD_MAC, 0, 0, 0, None, foe).1 == Some(PON_SLOT)
            && !RowHolds(y.tbl.mem, Smac, PON_SLOT, OLD_MAC)
  {
    StartedIs();
    MacWords();
    hide IsValue, HwWord, Started, Run, Mirrors, Inv, ArmedOk;
    var a, b := FirstData(PON_SLOT, NEW_MAC), ChangeCtrl(PON_SLOT);
    var y0 := Started();
    RunEmpty(y0);
    RunThen(y0, [], a);
    assert [] + [a] == [a];
    RunThen(y0, [a], b);
    StepKeepsInv(y0, a);
    StepKeepsArmed(y0, a);
    var y1 := Apply(y0, a);
    StepKeepsInv(y1, b);
    StepKeepsArmed(y1, b);
    var y := Apply(y1, b);
    assert y.tbl.mem[(Smac, PON_SLOT, Offset(Smac, 0))] == 2;
    hide FirstReusable;
    var hit := FirstHolding(y.tbl.cols[Smac], OLD_MAC, 0);
    assert Holds(y.tbl.cols[Smac][PON_SLOT], OLD_MAC);
  }

  /** With nobody holding the value and slot 0 empty, slot 0 is taken. */
  lemma FirstSlotTaken(col: Column, v: seq<nat>, foeIdx: nat, now: nat, timeout: nat, entries: Option<nat>)
    requires |col| == SLOTS && col[0] == EMPTY && forall i :: 0 <= i < SLOTS ==> !Holds(col[i], v)
    ensures Find(col, v, foeIdx, now, timeout, entries).1 == Some(0) && Find(col, v, foeIdx, now, timeout, entries).2
  {
    hide FirstHolding;
  }
  /** A lookup of another MAC. */
  function OtherLookup(foe: nat -> FoeState): Op { LookupOp(Smac, OTHER_MAC, 0, 0, 0, None, foe) }

  /** The lookup writes its row between the two writes of the change's first word. */
  function LookupInside(foe: nat -> FoeState): seq<Op> {
    [FirstData(PON_SLOT, NEW_MAC), OtherLookup(foe), LookupData, LookupCtrl, LookupData, LookupCtrl,
     ChangeCtrl(PON_SLOT), SecondData(PON_SLOT), ChangeCtrl(PON_SLOT), Pin(PON_SLOT)]
  }

  /** The change writes its first word between the two writes of the lookup's. */
  function ChangeInside(foe: nat -> FoeState): seq<Op> {
    [OtherLookup(foe), LookupData, FirstData(PON_SLOT, NEW_MAC), ChangeCtrl(PON_SLOT), LookupCtrl, LookupData, LookupCtrl,
     SecondData(PON_SLOT), ChangeCtrl(PON_SLOT), Pin(PON_SLOT)]
  }

  lemma StepStaysPinned(y: Sys, op: Op, i: nat)
    requires Framed(y) && i < SLOTS && y.tbl.cols[Smac][i].pinned
    ensures Apply(y, op).tbl.cols[Smac][i].pinned
  {
    if op.LookupOp? && Possible(y, op) { BeginLine(y, op, Smac, i); }
    if op.SweepOp? { SweepOnlyInvalidates(y.tbl.cols[Smac], op.foe, op.now, op.timeout, op.entries); }
    hide Lookup, Find, Swept, IsValue, HwWord;
  }

  lemma {:induction false} StaysPinned(y: Sys, ops: seq<Op>, i: nat)
    requires Framed(y) && i < SLOTS && y.tbl.cols[Smac][i].pinned
    ensures Run(y, ops).tbl.cols[Smac][i].pinned
    decreases |ops|
  {
    hide Apply, Framed, Run;
    RunUnfolds(y, ops);
    if |ops| > 0 {
      StaysPinned(y, ops[..|ops| - 1], i);
      StepStaysPinned(Run(y, ops[..|ops| - 1]), ops[|ops| - 1], i);
    }
  }

  /** When only the pinned PON row is changed nothing is clobbered, so a mirror that is lost is lost to a data write in between. */
  lemma OnlyInterposed(ops: seq<Op>)
    requires forall k :: 0 <= k < |ops| && ops[k].FirstData? ==> ops[k].index == PON_SLOT
    requires var z := Run(Started(), ops); z.open == map[] && z.busy.None? && !Mirrors(z.tbl)
    ensures forall k :: 0 <= k < |ops| ==> !Clobbers(Run(Started(), ops[..k]), ops[k])
    ensures exists k :: 0 <= k < |ops| && Interposes(Run(Started(), ops[..k]), ops[k])
  {
    StartedIs();
    hide Started, Mirrors, Inv, ArmedOk, Apply, Clobbers, Interposes, Run;
    forall k | 0 <= k < |ops|
      ensures !StartsUnpinned(Run(Started(), ops[..k]), ops[k])
    {
      StaysPinned(Started(), ops[..k], PON_SLOT);
    }
    PinnedRowsStay(Started(), ops);
    ChangesOfPinnedRowsAreSafe(Started(), ops);
  }

  /** Slot 0 is free and taken by the lookup, at once in software. */
  lemma OtherTakesSlot(y: Sys, foe: nat -> FoeState)
    requires Framed(y) && y.busy.None? && y.tbl.cols[Smac][0] == EMPTY
    requires forall i: nat :: i < SLOTS ==> !Holds(y.tbl.cols[Smac][i], OTHER_MAC)
    ensures var y', op := Apply(y, OtherLookup(foe)), OtherLookup(foe);
            && Possible(y, op) && Find(y.tbl.cols[Smac], OTHER_MAC, 0, 0, 0, None).2
            && Find(y.tbl.cols[Smac], OTHER_MAC, 0, 0, 0, None).1 == Some(0)
            && y'.busy == Some(Writing(Smac, 0, OTHER_MAC, 0, false)) && y'.open == y.open && y'.tbl.mem == y.tbl.mem
            && Holds(y'.tbl.cols[Smac][0], OTHER_MAC)
  {
    MacWords();
    FirstSlotTaken(y.tbl.cols[Smac], OTHER_MAC, 0, 0, 0, None);
    var op := OtherLookup(foe);
    BeginLine(y, op, Smac, 0);
    hide Find, Lookup, IsValue, HwWord;
  }

  /** From the first control write of a change on, with nothing in between. */
  function Rest(i: nat): seq<Op> { [ChangeCtrl(i)] + [SecondData(i)] + [ChangeCtrl(i)] + [Pin(i)] }

  lemma RestAlone(y: Sys, i: nat)
    requires Framed(y) && i < SLOTS && y.open == map[i := Change(NEW_MAC, 0, true)] && y.busy.None?
    ensures var z := Run(y, Rest(i));
            && z.open == map[] && z.busy.None? && PinnedWith(z, Smac, i, NEW_MAC)
            && z.tbl.mem == y.tbl.mem[(Smac, i, 0) := y.data][(Smac, i, 1) := 0x200]
            && forall k: nat :: k < SLOTS && k != i ==> z.tbl.cols[Smac][k] == y.tbl.cols[Smac][k]
  {
    MacWords();
    hide IsValue, HwWord, Run, Framed;
    RunEmpty(y);
    RunThen(y, [], ChangeCtrl(i));
    assert [] + [ChangeCtrl(i)] == [ChangeCtrl(i)];
    RunThen(y, [ChangeCtrl(i)], SecondData(i));
    RunThen(y, [ChangeCtrl(i)] + [SecondData(i)], ChangeCtrl(i));
    RunThen(y, [ChangeCtrl(i)] + [SecondData(i)] + [ChangeCtrl(i)], Pin(i));
    var y3 := Run(y, [ChangeCtrl(i)] + [SecondData(i)] + [ChangeCtrl(i)]);
    assert y3.open == map[i := Change(NEW_MAC, 2, false)];
    assert y3.open - {i} == map[];
  }

  lemma WrongWord(z: Sys, i: nat, v: seq<nat>)
    requires Framed(z) && i < SLOTS && Holds(z.tbl.cols[Smac][i], v) && IsValue(Smac, v)
    requires (Smac, i, 0) in z.tbl.mem && z.tbl.mem[(Smac, i, 0)] != HwWord(Smac, v, 0)
    ensures !RowHolds(z.tbl.mem, Smac, i, v) && !Mirrors(z.tbl)
  {
    hide HwWord, IsValue;
    assert (Smac, i, Offset(Smac, 0)) == (Smac, i, 0);
    assert !LineMirrors(z.tbl.cols[Smac][i], z.tbl.mem, Smac, i);
  }

  /** Then the change's own row is left wrong, its slot pinned to the new MAC. */
  lemma LookupInsideSpoilsChange(foe: nat -> FoeState)
    ensures var ops := LookupInside(foe);
            var z := Run(Started(), ops);
            && z.open == map[] && z.busy.None? && PinnedWith(z, Smac, PON_SLOT, NEW_MAC)
            && IsValue(Smac, NEW_MAC) && !RowHolds(z.tbl.mem, Smac, PON_SLOT, NEW_MAC) && !Mirrors(z.tbl)
            && (forall k :: 0 <= k < |ops| ==> !Clobbers(Run(Started(), ops[..k]), ops[k]))
            && (exists k :: 0 <= k < |ops| && Interposes(Run(Started(), ops[..k]), ops[k]))
  {
    hide Started, Run, Mirrors, Inv, ArmedOk, RowHolds, Framed, Clobbers, Interposes, Apply, HwWord, IsValue;
    var y0, a, l := Started(), FirstData(PON_SLOT, NEW_MAC), OtherLookup(foe);
    FirstDataAlone();
    var y1 := Run(y0, [a]);
    LookupAfterData(y1, foe);
    var y2 := Run(y1, [l] + Words(2));
    RunJoins(y0, [a], [l] + Words(2));
    RestAlone(y2, PON_SLOT);
    RunJoins(y0, [a] + ([l] + Words(2)), Rest(PON_SLOT));
    InsideSplits(foe);
    MacWords();
    var z := Run(y0, LookupInside(foe));
    WrongWord(z, PON_SLOT, NEW_MAC);
    OnlyInterposed(LookupInside(foe));
  }

  lemma FirstDataAlone()
    ensures var y := Run(Started(), [FirstData(PON_SLOT, NEW_MAC)]);
            && y.tbl == Started().tbl && y.open == map[PON_SLOT := Change(NEW_MAC, 0, true)] && y.busy.None?
            && y.tbl.cols[Smac][0] == EMPTY && forall i: nat :: i < SLOTS ==> !Holds(y.tbl.cols[Smac][i], OTHER_MAC)
  {
    StartedIs();
    MacWords();
    hide IsValue, HwWord, Started, Run, Mirrors, Inv, ArmedOk, Framed;
    var y0, a := Started(), FirstData(PON_SLOT, NEW_MAC);
    RunEmpty(y0);
    RunThen(y0, [], a);
    assert [] + [a] == [a];
  }

  lemma LookupAfterData(y: Sys, foe: nat -> FoeState)
    requires Framed(y) && y.busy.None? && y.tbl.cols[Smac][0] == EMPTY
    requires forall i: nat :: i < SLOTS ==> !Holds(y.tbl.cols[Smac][i], OTHER_MAC)
    ensures var z := Run(y, [OtherLookup(foe)] + Words(2));
            z.open == y.open && z.busy.None? && z.data == 0x600
  {
    hide HwWord, Run, Framed, Apply, Lookup, Find, Words, IsValue;
    MacWords();
    OtherTakesSlot(y, foe);
    LookupAloneIsLookup(y, OtherLookup(foe));
  }

  lemma InsideSplits(foe: nat -> FoeState)
    ensures LookupInside(foe) == [FirstData(PON_SLOT, NEW_MAC)] + ([OtherLookup(foe)] + Words(2)) + Rest(PON_SLOT)
  {
    assert Words(1) == [LookupData, LookupCtrl];
    assert Words(2) == [LookupData, LookupCtrl, LookupData, LookupCtrl];
  }
  /** The steps of ChangeInside between the lookup's software part and the end of its row. */
  function Between(): seq<Op> {
    [LookupData] + [FirstData(PON_SLOT, NEW_MAC)] + [ChangeCtrl(PON_SLOT)] + [LookupCtrl] + [LookupData] + [LookupCtrl]
  }

  lemma BetweenStores(y: Sys)
    requires Framed(y) && y.open == map[] && y.busy == Some(Writing(Smac, 0, OTHER_MAC, 0, false))
    ensures var z := Run(y, Between());
            && z.tbl.cols == y.tbl.cols && z.busy.None? && z.open == map[PON_SLOT := Change(NEW_MAC, 1, false)]
            && z.tbl.mem == y.tbl.mem[(Smac, PON_SLOT, 0) := 2][(Smac, 0, 0) := 2][(Smac, 0, 1) := 0x600]
  {
    MacWords();
    hide IsValue, HwWord, Run, Framed;
    var a, b := FirstData(PON_SLOT, NEW_MAC), ChangeCtrl(PON_SLOT);
    RunEmpty(y);
    RunThen(y, [], LookupData);
    assert [] + [LookupData] == [LookupData];
    RunThen(y, [LookupData], a);
    RunThen(y, [LookupData] + [a], b);
    RunThen(y, [LookupData] + [a] + [b], LookupCtrl);
    RunThen(y, [LookupData] + [a] + [b] + [LookupCtrl], LookupData);
    RunThen(y, [LookupData] + [a] + [b] + [LookupCtrl] + [LookupData], LookupCtrl);
    assert Run(y, [LookupData] + [a]).open == map[PON_SLOT := Change(NEW_MAC, 0, true)];
    assert Run(y, [LookupData] + [a] + [b]).open == map[PON_SLOT := Change(NEW_MAC, 1, false)];
  }

  /** The end of a change whose first word is stored. */
  lemma LastWordAndPin(y: Sys, i: nat)
    requires Framed(y) && i < SLOTS && y.open == map[i := Change(NEW_MAC, 1, false)] && y.busy.None?
    ensures var z := Run(y, [SecondData(i)] + [ChangeCtrl(i)] + [Pin(i)]);
            && z.open == map[] && z.busy.None? && PinnedWith(z, Smac, i, NEW_MAC)
            && z.tbl.mem == y.tbl.mem[(Smac, i, 1) := 0x200]
            && forall k: nat :: k < SLOTS && k != i ==> z.tbl.cols[Smac][k] == y.tbl.cols[Smac][k]
  {
    MacWords();
    hide IsValue, HwWord, Run, Framed;
    RunEmpty(y);
    RunThen(y, [], SecondData(i));
    assert [] + [SecondData(i)] == [SecondData(i)];
    RunThen(y, [SecondData(i)], ChangeCtrl(i));
    RunThen(y, [SecondData(i)] + [ChangeCtrl(i)], Pin(i));
    var y2 := Run(y, [SecondData(i)] + [ChangeCtrl(i)]);
    assert y2.open == map[i := Change(NEW_MAC, 2, false)];
    assert y2.open - {i} == map[];
  }

  /** Then the lookup's row is left wrong, under a slot that holds what was looked up. */
  lemma ChangeInsideSpoilsLookup(foe: nat -> FoeState)
    ensures var ops := ChangeInside(foe);
            var z := Run(Started(), ops);
            && z.open == map[] && z.busy.None? && PinnedWith(z, Smac, PON_SLOT, NEW_MAC)
            && Holds(z.tbl.cols[Smac][0], OTHER_MAC) && IsValue(Smac, OTHER_MAC)
            && !RowHolds(z.tbl.mem, Smac, 0, OTHER_MAC) && !Mirrors(z.tbl)
            && (forall k :: 0 <= k < |ops| ==> !Clobbers(Run(Started(), ops[..k]), ops[k]))
            && (exists k :: 0 <= k < |ops| && Interposes(Run(Started(), ops[..k]), ops[k]))
  {
    StartedIs();
    MacWords();
    hide IsValue, HwWord, Started, Run, Mirrors, Inv, ArmedOk, RowHolds, Framed, Clobbers, Interposes;
    var y0, l := Started(), OtherLookup(foe);
    RunEmpty(y0);
    RunThen(y0, [], l);
    assert [] + [l] == [l];
    OtherTakesSlot(y0, foe);
    hide Apply, Find;
    var y1 := Run(y0, [l]);
    BetweenStores(y1);
    RunJoins(y0, [l], Between());
    var y7 := Run(y0, [l] + Between());
    LastWordAndPin(y7, PON_SLOT);
    RunJoins(y0, [l] + Between(), [SecondData(PON_SLOT)] + [ChangeCtrl(PON_SLOT)] + [Pin(PON_SLOT)]);
    assert ChangeInside(foe) == [l] + Between() + ([SecondData(PON_SLOT)] + [ChangeCtrl(PON_SLOT)] + [Pin(PON_SLOT)]);
    var z := Run(y0, ChangeInside(foe));
    WrongWord(z, 0, OTHER_MAC);
    OnlyInterposed(ChangeInside(foe));
  }

  /**
   The first change of a row whose slot is not pinned yet: a lookup in between takes the slot for another MAC, and the
   pin then leaves slot and row apart for good.
   */
  lemma ReusedRowIsLost(foe: nat -> FoeState)
    ensures var l := OtherLookup(foe);
            var y := Run(Fresh(), Writes(0, NEW_MAC) + ([l] + [LookupData]));
            var z := Run(Fresh(), Writes(0, NEW_MAC) + ([l] + Words(2)) + [Pin(0)]);
            && Framed(Fresh()) && Clobbers(y, LookupCtrl)
            && z.open == map[] && z.busy.None? && PinnedWith(z, Smac, 0, NEW_MAC)
            && IsValue(Smac, NEW_MAC) && !RowHolds(z.tbl.mem, Smac, 0, NEW_MAC) && !Mirrors(z.tbl)
  {
    assert Framed(Fresh());
    MacWords();
    var l, ops := OtherLookup(foe), Writes(0, NEW_MAC);
    WritesAlone(Fresh(), 0, NEW_MAC);
    var y := Run(Fresh(), ops);
    OtherTakesSlot(y, foe);
    hide IsValue, HwWord, Run, Mirrors, RowHolds, Framed, Writes, Words;
    FirstWordClobbers(y, foe);
    RunJoins(Fresh(), ops, [l] + [LookupData]);
    LookupAloneIsLookup(y, l);
    RunJoins(Fresh(), ops, [l] + Words(2));
    RunThen(Fresh(), ops + ([l] + Words(2)), Pin(0));
    var w := Run(Fresh(), ops + ([l] + Words(2)));
    RowTaken(y, foe);
    hide Lookup, Find, Clobbers, Apply;
    PinnedApart(w);
  }

  /** The pin of a MAC that its row has lost. */
  lemma PinnedApart(y: Sys)
    requires Framed(y) && y.busy.None? && y.open == map[0 := Change(NEW_MAC, 2, false)] && IsValue(Smac, NEW_MAC)
    requires (Smac, 0, 0) in y.tbl.mem && y.tbl.mem[(Smac, 0, 0)] == 3
    ensures var z := Apply(y, Pin(0));
            && z.open == map[] && z.busy.None? && PinnedWith(z, Smac, 0, NEW_MAC)
            && !RowHolds(z.tbl.mem, Smac, 0, NEW_MAC) && !Mirrors(z.tbl)
  {
    MacWords();
    hide IsValue, HwWord, Mirrors, RowHolds;
    assert y.open - {0} == map[];
    WrongWord(Apply(y, Pin(0)), 0, NEW_MAC);
  }

  lemma FirstWordClobbers(y: Sys, foe: nat -> FoeState)
    requires Framed(y) && y.busy.None? && y.open == map[0 := Change(NEW_MAC, 2, false)]
    requires Possible(y, OtherLookup(foe)) && Apply(y, OtherLookup(foe)).busy == Some(Writing(Smac, 0, OTHER_MAC, 0, false))
    requires Apply(y, OtherLookup(foe)).open == y.open
    ensures Clobbers(Run(y, [OtherLookup(foe)] + [LookupData]), LookupCtrl)
  {
    MacWords();
    var l := OtherLookup(foe);
    RunEmpty(y);
    RunThen(y, [], l);
    assert [] + [l] == [l];
    RunThen(y, [l], LookupData);
    hide IsValue, HwWord, Run, Framed, Begin, OtherLookup;
  }

  lemma RowTaken(y: Sys, foe: nat -> FoeState)
    requires Framed(y) && Find(y.tbl.cols[Smac], OTHER_MAC, 0, 0, 0, None).2 && Possible(y, OtherLookup(foe))
    requires Find(y.tbl.cols[Smac], OTHER_MAC, 0, 0, 0, None).1 == Some(0)
    ensures var s := Lookup(y.tbl, Smac, OTHER_MAC, 0, 0, 0, None, foe).0;
            (Smac, 0, 0) in s.mem && s.mem[(Smac, 0, 0)] == 3
  {
    MacWords();
    WriteRowHolds(y.tbl.mem, Smac, 0, OTHER_MAC, 2);
    hide WriteRow, Find, HwWord, IsValue;
    assert (Smac, 0, Offset(Smac, 0)) == (Smac, 0, 0);
  }

  /** A slot with a bound user can be swept: FOE entry 32 alone is recorded in a word nobody strides into. */
  lemma BoundUserMayBeSwept()
    ensures var foe := (b: nat) => if b == 32 then Bound else Missing;
            var lookup := LookupOp(Ipv4, [1, 2], 32, 0, 3000, Some(16384), foe);
            var y := Run(Fresh(), [lookup] + Words(2));
            var z := Run(Fresh(), [lookup] + Words(2) + [SweepOp(3001, 3000, Some(16384), foe)]);
            && foe(32) == Bound && Holds(y.tbl.cols[Ipv4][0], [1, 2]) && 32 in y.tbl.cols[Ipv4][0].bits
            && y.busy.None? && !z.tbl.cols[Ipv4][0].valid
  {
    var foe := (b: nat) => if b == 32 then Bound else Missing;
    var lookup, sweep := LookupOp(Ipv4, [1, 2], 32, 0, 3000, Some(16384), foe), SweepOp(3001, 3000, Some(16384), foe);
    assert Framed(Fresh());
    LookupAloneIsLookup(Fresh(), lookup);
    RunThen(Fresh(), [lookup] + Words(2), sweep);
    var col := Fresh().tbl.cols[Ipv4];
    var y := Run(Fresh(), [lookup] + Words(2));
    hide Run, FirstHolding, Framed, Words;
    FirstSlotTaken(col, [1, 2], 32, 0, 3000, Some(16384));
    var (col', r, _) := Find(col, [1, 2], 32, 0, 3000, Some(16384));
    assert r == Some(0) && col'[0] == Line([1, 2], true, false, 0, {32});
    hide Find, FirstReusable, SweptLine, WriteRow;
    SweepOnlyInvalidates(col', foe, 0, 3000, Some(16384));
    assert y.tbl.cols[Ipv4][0] == col'[0];
    SweepKeepsExactly(y.tbl.cols[Ipv4], foe, 3001, 3000, 16384, 0);
  }

  // ---------------------------------------------------------------- the table in memory

  class Table {
    const smac: array<Line>
    const ipv6: array<Line>
    const ipv4: array<Line>
    var mem: map<(Select, nat, nat), nat>

    ghost predicate Valid()
      reads this
    {
      && smac.Length == ipv6.Length == ipv4.Length == SLOTS
      && smac != ipv6 && smac != ipv4 && ipv6 != ipv4
    }

    ghost function Contents(): (s: State)
      reads this, smac, ipv6, ipv4
      requires Valid()
      ensures Shape(s)
    {
      var s := State(map[Smac := smac[..], Ipv6 := ipv6[..], Ipv4 := ipv4[..]], mem);
      AllSelects(s);
      s
    }

    function Column(sel: Select): array<Line> {
      match sel case Smac => smac case Ipv6 => ipv6 case Ipv4 => ipv4
    }

    /** InitShrinkTable, with whatever update memory holds. */
    constructor (mem: map<(Select, nat, nat), nat>)
      ensures Valid() && fresh(smac) && fresh(ipv6) && fresh(ipv4)
      ensures Mirrors(Contents()) && this.mem == mem
    {
      smac := new Line[SLOTS](_ => EMPTY);
      ipv6 := new Line[SLOTS](_ => EMPTY);
      ipv4 := new Line[SLOTS](_ => EMPTY);
      this.mem := mem;
    }

    /** ppeSetShrinkField */
    method SetShrinkField(sel: Select, index: nat, v: seq<nat>)
      requires |v| == ContentSize(sel)
      modifies this
      ensures mem == WriteRow(old(mem), sel, index, v, HwLines(sel))
    {
      for i := 0 to HwLines(sel)
        invariant mem == WriteRow(old(mem), sel, index, v, i)
      {
        var data := if !sel.Smac? then v[i]
                    else if i == 0 then v[2] * 0x100_0000 + v[3] * 0x1_0000 + v[4] * 0x100 + v[5]
                    else v[0] * 0x100 + v[1];
        var offset := if sel.Ipv6? then (if i <= 3 then 3 - i else 11 - i) else i;
        mem := mem[(sel, index, offset) := data];
      }
    }

    /** UpdateShrinkTable */
    method UpdateShrinkTable(index: nat, mac: seq<nat>)
      requires Valid()
      modifies smac
      ensures Contents() == Pinned(old(Contents()), index, mac)
    {
      if index < SLOTS {
        smac[index] := smac[index].(content := mac);
        smac[index] := smac[index].(valid := true);
        smac[index] := smac[index].(pinned := true);
        assert smac[..] == old(smac[..])[index := smac[index]];
      }
    }

    /** airoha_ppe_init_upd_mem with a port's id, and airoha_pon_ppe_init_upd_mem with PON_SLOT. */
    method InitUpdMem(index: nat, mac: seq<nat>)
      requires Valid() && IsValue(Smac, mac)
      modifies this, smac
      ensures Contents() == Installed(old(Contents()), index, mac)
    {
      mem := mem[(Smac, index, 0) := mac[2] * 0x100_0000 + mac[3] * 0x1_0000 + mac[4] * 0x100 + mac[5]];
      mem := mem[(Smac, index, 1) := mac[0] * 0x100 + mac[1]];
      assert mem == WriteRow(old(mem), Smac, index, mac, 2) by {
        assert WriteRow(old(mem), Smac, index, mac, 1) == old(mem)[(Smac, index, 0) := HwWord(Smac, mac, 0)];
      }
      UpdateShrinkTable(index, mac);
    }

    /** The body of reuse_shrink_table for one expired slot: scan its bitmap, drop stale bits. */
    method ScanBitmap(bits0: set<nat>, foe: nat -> FoeState, entries: nat) returns (needReuse: bool, bits: set<nat>)
      ensures needReuse == !Kept(bits0, foe, entries)
      ensures bits == Cleared(bits0, foe, entries)
    {
      needReuse, bits := true, bits0;
      ScanStarts(bits0, foe, entries);
      hide Examined;
      for i := 0 to BITMAP_WORDS
        invariant needReuse == !BoundBelow(bits0, foe, entries, 32 * i)
        invariant bits == bits0 - Dropped(bits0, foe, entries, 32 * i)
      {
        WordAhead(bits0, bits, foe, entries, i);
        if !HasWord(bits, i) {
          StrideSkipped(bits0, foe, entries, 32 * i, 32 * i + 32);
          continue;
        }
        for j := 0 to 32
          invariant needReuse == !BoundBelow(bits0, foe, entries, 32 * i + j)
          invariant bits == bits0 - Dropped(bits0, foe, entries, 32 * i + j)
        {
          var idx := i * 32 + j;
          if idx >= entries {
            StrideSkipped(bits0, foe, entries, 32 * i + j, 32 * i + 32);
            break;
          }
          BitScanned(bits0, foe, entries, i, idx);
          if idx in bits {
            if foe(idx) == Bound {
              needReuse := false;
            } else if foe(idx) == Unbound {
              bits := bits - {idx};
            }
          }
        }
      }
      ScanEnds(bits0, foe, entries);
    }

    /** reuse_shrink_table */
    method ReuseShrinkTable(foe: nat -> FoeState, now: nat, timeout: nat, entries: Option<nat>)
      requires Valid()
      modifies smac, ipv6, ipv4
      ensures Contents() == SweepAll(old(Contents()), foe, now, timeout, entries)
    {
      if entries.None? {
        SweepNothing(Contents(), foe, now, timeout);
        return;
      }
      ghost var a, b, c := smac[..], ipv6[..], ipv4[..];
      hide SweptLine;
      for index := 0 to SLOTS
        invariant SweptTo(smac[..], a, index, foe, now, timeout, entries.value)
        invariant SweptTo(ipv6[..], b, index, foe, now, timeout, entries.value)
        invariant SweptTo(ipv4[..], c, index, foe, now, timeout, entries.value)
      {
        SweepSlot(smac, index, foe, now, timeout, entries.value);
        SweepSlot(ipv6, index, foe, now, timeout, entries.value);
        SweepSlot(ipv4, index, foe, now, timeout, entries.value);
      }
      assert smac[..] == Swept(a, foe, now, timeout, entries);
      assert ipv6[..] == Swept(b, foe, now, timeout, entries);
      assert ipv4[..] == Swept(c, foe, now, timeout, entries);
      assert forall sel: Select :: sel.Smac? || sel.Ipv6? || sel.Ipv4?;
      assert Contents().cols == SweepAll(old(Contents()), foe, now, timeout, entries).cols;
    }

    method SweepSlot(col: array<Line>, index: nat, foe: nat -> FoeState, now: nat, timeout: nat, entries: nat)
      requires index < col.Length
      modifies col
      ensures col[..] == old(col[..])[index := SweptLine(old(col[index]), foe, now, timeout, entries)]
    {
      if !col[index].pinned && now > col[index].stamp + timeout {
        var needReuse, bits := ScanBitmap(col[index].bits, foe, entries);
        col[index] := col[index].(bits := bits);
        if needReuse { col[index] := col[index].(valid := false); }
      }
      assert col[..] == old(col[..])[index := col[index]];
    }

    /** find_and_update_shrink_table */
    method FindAndUpdate(sel: Select, v: seq<nat>, foeIdx: nat, now: nat, timeout: nat, entries: Option<nat>, foe: nat -> FoeState)
      returns (found: Option<nat>)
      requires Valid() && IsValue(sel, v)
      modifies this, smac, ipv6, ipv4
      ensures Valid()
      ensures (Contents(), found) == Lookup(old(Contents()), sel, v, foeIdx, now, timeout, entries, foe)
    {
      hide WriteRow, Swept, SweptLine, Aged, Touched, HwWord;
      var written;
      found, written := Match(Column(sel), v, foeIdx, now, timeout, entries);
      if written { SetShrinkField(sel, found.value, v); }
      ghost var (col, r, w) := Find(old(Contents()).cols[sel], v, foeIdx, now, timeout, entries);
      hide Find, WriteRow, IsValue, Swept, Shape;
      ghost var was := old(Contents()).cols;
      assert Contents().cols == was[sel := col] by {
        match sel case Smac => case Ipv6 => case Ipv4 =>
      }
      ReuseShrinkTable(foe, now, timeout, entries);
    }

    /** The matching loop and the update of the slot it settles on (lines 731-803). */
    method Match(col: array<Line>, v: seq<nat>, foeIdx: nat, now: nat, timeout: nat, entries: Option<nat>)
      returns (found: Option<nat>, written: bool)
      requires col.Length == SLOTS
      modifies col
      ensures (col[..], found, written) == Find(old(col[..]), v, foeIdx, now, timeout, entries)
      ensures written ==> found.Some?
    {
      ghost var was := col[..];
      var free := SLOTS;
      hide Aged, Touched;
      for index := 0 to SLOTS
        invariant col[..] == AgedBelow(was, index, now, timeout)
        invariant FirstHolding(was, v, 0) == FirstHolding(was, v, index)
        invariant free == SLOTS || free < index
        invariant FirstReusable(was, now, timeout, 0) == if free == SLOTS then FirstReusable(was, now, timeout, index) else Some(free)
      {
        AgedAt(was, index, now, timeout);
        if col[index].valid {
          if col[index].content == v {
            Touch(col, index, foeIdx, now, entries);
            return Some(index), false;
          }
          if !col[index].pinned && now > col[index].stamp + timeout {
            col[index] := col[index].(valid := false);
          }
        }
        assert col[..] == AgedBelow(was, index + 1, now, timeout);
        if !col[index].valid && index < free { free := index; }
      }
      if free == SLOTS { return None, false; }
      assert AgedBelow(was, SLOTS, now, timeout) == AgedBelow(was, |was|, now, timeout);
      col[free] := col[free].(content := v);
      assert col[..] == AgedBelow(was, |was|, now, timeout)[free := col[free]];
      ghost var aged, filled := AgedBelow(was, |was|, now, timeout), col[free];
      Touch(col, free, foeIdx, now, entries);
      assert aged[free := filled][free := Touched(filled, foeIdx, now, entries)] == aged[free := Touched(filled, foeIdx, now, entries)];
      return Some(free), true;
    }

    /** Lines 797-803. */
    method Touch(col: array<Line>, index: nat, foeIdx: nat, now: nat, entries: Option<nat>)
      requires index < col.Length
      modifies col
      ensures col[..] == old(col[..])[index := Touched(old(col[index]), foeIdx, now, entries)]
    {
      col[index] := col[index].(valid := true);
      if entries.Some? {
        if 0 < foeIdx && foeIdx < entries.value {
          col[index] := col[index].(bits := col[index].bits + {foeIdx});
        }
      }
      col[index] := col[index].(stamp := now);
      assert col[..] == old(col[..])[index := col[index]];
    }
  }

  lemma AgedAt(was: Column, index: nat, now: nat, timeout: nat)
    requires index < |was|
    ensures AgedBelow(was, index, now, timeout)[index] == was[index]
    ensures AgedBelow(was, index, now, timeout)[index := Aged(was[index], now, timeout)] == AgedBelow(was, index + 1, now, timeout)
    ensures Aged(was[index], now, timeout) ==
            if was[index].valid && !was[index].pinned && now > was[index].stamp + timeout then was[index].(valid := false)
            else was[index]
  {
    hide Aged;
    assert AgedBelow(was, index, now, timeout)[index := Aged(was[index], now, timeout)] == AgedBelow(was, index + 1, now, timeout);
    AgedIs(was[index], now, timeout);
  }

  lemma AgedIs(l: Line, now: nat, timeout: nat)
    ensures Aged(l, now, timeout) == if l.valid && !l.pinned && now > l.stamp + timeout then l.(valid := false) else l
  {
  }

  ghost predicate SweptTo(col: Column, was: Column, n: nat, foe: nat -> FoeState, now: nat, timeout: nat, entries: nat) {
    && |col| == |was| == SLOTS
    && forall i :: 0 <= i < SLOTS ==> col[i] == if i < n then SweptLine(was[i], foe, now, timeout, entries) else was[i]
  }

  lemma SweepNothing(s: State, foe: nat -> FoeState, now: nat, timeout: nat)
    requires Shape(s)
    ensures SweepAll(s, foe, now, timeout, None) == s
  {
    forall sel | sel in s.cols
      ensures Swept(s.cols[sel], foe, now, timeout, None) == s.cols[sel]
    {
    }
    assert SweepAll(s, foe, now, timeout, None).cols == s.cols;
  }

  // ---------------------------------------------------------------- the bitmap scan

  predicate HasWord(bits: set<nat>, i: nat) { exists c :: c in bits && c / LONG_BITS == i }

  ghost predicate BoundBelow(bits: set<nat>, foe: nat -> FoeState, entries: nat, n: nat) {
    exists b: nat :: b < n && Examined(bits, b, entries) && foe(b) == Bound
  }

  ghost function Dropped(bits: set<nat>, foe: nat -> FoeState, entries: nat, n: nat): set<nat> {
    set b | b in bits && b < n && Examined(bits, b, entries) && foe(b) == Unbound
  }

  lemma ScanStarts(bits: set<nat>, foe: nat -> FoeState, entries: nat)
    ensures !BoundBelow(bits, foe, entries, 0) && Dropped(bits, foe, entries, 0) == {}
  {
  }

  /** Bits dropped so far lie in words already tested. */
  lemma WordAhead(bits0: set<nat>, bits: set<nat>, foe: nat -> FoeState, entries: nat, i: nat)
    requires bits == bits0 - Dropped(bits0, foe, entries, 32 * i)
    ensures HasWord(bits, i) == HasWord(bits0, i)
  {
    if c: nat :| c in bits0 && c / LONG_BITS == i {
      assert c >= 32 * i;
      assert c in bits;
    }
  }

  /** Nothing is examined in a stride that is skipped. */
  lemma StrideSkipped(bits: set<nat>, foe: nat -> FoeState, entries: nat, lo: nat, hi: nat)
    requires lo <= hi <= lo / 32 * 32 + 32
    requires !HasWord(bits, lo / 32) || lo >= entries
    ensures BoundBelow(bits, foe, entries, hi) == BoundBelow(bits, foe, entries, lo)
    ensures Dropped(bits, foe, entries, hi) == Dropped(bits, foe, entries, lo)
  {
    forall b: nat | lo <= b < hi
      ensures !Examined(bits, b, entries)
    {
      assert b / 32 == lo / 32;
    }
    hide Examined;
  }

  lemma BitScanned(bits: set<nat>, foe: nat -> FoeState, entries: nat, i: nat, idx: nat)
    requires i < BITMAP_WORDS && idx / 32 == i && idx < entries && HasWord(bits, i)
    ensures idx !in Dropped(bits, foe, entries, idx)
    ensures BoundBelow(bits, foe, entries, idx + 1) == (BoundBelow(bits, foe, entries, idx) || (idx in bits && foe(idx) == Bound))
    ensures Dropped(bits, foe, entries, idx + 1) ==
            Dropped(bits, foe, entries, idx) + if idx in bits && foe(idx) == Unbound then {idx} else {}
  {
    assert Examined(bits, idx, entries) == (idx in bits);
    hide Examined;
  }

  lemma ScanEnds(bits: set<nat>, foe: nat -> FoeState, entries: nat)
    ensures BoundBelow(bits, foe, entries, 32 * BITMAP_WORDS) == Kept(bits, foe, entries)
    ensures bits - Dropped(bits, foe, entries, 32 * BITMAP_WORDS) == Cleared(bits, foe, entries)
  {
    assert forall b: nat :: Examined(bits, b, entries) ==> b < 32 * BITMAP_WORDS;
    hide Examined;
  }
}
