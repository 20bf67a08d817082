/**
 The L2B ether-type table of arht_ppe.c (lines 3864-4126): 16 entries packed into one enable register
 (enable bits 0-15, PPPoE bits 16-31) and eight registers of two ether types each.
 */
module L2bEtherType {
  import opened Wrappers
  import opened Digits

  const MAX_INDEX: nat := 16 // L2B_ETYPE_MAX_INDEX
  const HALF: nat := 0x1_0000

  datatype Errno = ENODEV | EINVAL | ENOSPC

  /** The register image: REG_PPE_L2B_ETYPE_EN and REG_PPE_L2B_ETYPE_N. */
  datatype Regs = Regs(en: nat, et: seq<nat>)

  datatype Entry = Entry(enable: bool, pppoe: bool, etype: nat)

  const CLEAR: Entry := Entry(false, false, 0)

  type Key = (nat, bool)

  predicate Shape(r: Regs) { |r.et| == MAX_INDEX / 2 }

  predicate IsEntry(e: Entry) { e.etype < HALF }

  function Bit(b: bool): nat { if b then 1 else 0 }

  // ---------------------------------------------------------------- one entry

  predicate Enabled(r: Regs, i: nat) { Digit(r.en, i, 2) == 1 }
  predicate Pppoe(r: Regs, i: nat) { Digit(r.en, i + 16, 2) == 1 }
  function Etype(r: Regs, i: nat): nat
    requires Shape(r) && i < MAX_INDEX
  {
    Digit(r.et[i / 2], i % 2, HALF)
  }

  function Get(r: Regs, i: nat): Entry
    requires Shape(r) && i < MAX_INDEX
  {
    Entry(Enabled(r, i), Pppoe(r, i), Etype(r, i))
  }

  /** Entry i is bit i, bit i + 16, and the low or high half of word i / 2. */
  lemma EntryIsFields(r: Regs, i: nat)
    requires Shape(r) && i < 16
    ensures var e := Get(r, i);
            && (e.enable <==> r.en / Power(2, i) % 2 == 1)
            && (e.pppoe <==> r.en / Power(2, i + 16) % 2 == 1)
            && e.etype == (if i % 2 == 0 then r.et[i / 2] % 0x1_0000 else r.et[i / 2] / 0x1_0000 % 0x1_0000)
  {
    DigitIsField(r.en, i, 2);
    DigitIsField(r.en, i + 16, 2);
    DigitIsField(r.et[i / 2], i % 2, HALF);
    assert Power(HALF, 0) == 1 && Power(HALF, 1) == HALF;
    hide Digit, Power;
  }

  /** ppe_set_l2b_ether_type; a disabled entry gets both bits cleared. */
  function Put(r: Regs, i: nat, e: Entry): (r': Regs)
    requires Shape(r) && i < MAX_INDEX && IsEntry(e)
    ensures Shape(r')
  {
    Regs(SetDigit(SetDigit(r.en, i, 2, Bit(e.enable)), i + 16, 2, Bit(e.enable && e.pppoe)),
         r.et[i / 2 := SetDigit(r.et[i / 2], i % 2, HALF, e.etype)])
  }

  /** An entry as Put leaves it. */
  function Normal(e: Entry): Entry { e.(pppoe := e.enable && e.pppoe) }

  lemma GetPut(r: Regs, i: nat, e: Entry, j: nat)
    requires Shape(r) && i < MAX_INDEX && j < MAX_INDEX && IsEntry(e)
    ensures Get(Put(r, i, e), j) == if i == j then Normal(e) else Get(r, j)
  {
    hide Digit, SetDigit;
    var a := SetDigit(r.en, i, 2, Bit(e.enable));
    forall k: nat
      ensures Digit(Put(r, i, e).en, k, 2) ==
              if k == i + 16 then Bit(e.enable && e.pppoe) else if k == i then Bit(e.enable) else Digit(r.en, k, 2)
    {
      DigitOfSet(r.en, i, 2, Bit(e.enable), k);
      DigitOfSet(a, i + 16, 2, Bit(e.enable && e.pppoe), k);
    }
    if i / 2 == j / 2 {
      DigitOfSet(r.et[i / 2], i % 2, HALF, e.etype, j % 2);
      assert i == i / 2 * 2 + i % 2 && j == j / 2 * 2 + j % 2;
    }
  }

  lemma PutTwice(r: Regs, i: nat, e: Entry, e': Entry)
    requires Shape(r) && i < MAX_INDEX && IsEntry(e) && IsEntry(e')
    ensures Put(Put(r, i, e), i, e') == Put(r, i, e')
  {
    hide Digit, SetDigit;
    var a, p, a', p' := Bit(e.enable), Bit(e.enable && e.pppoe), Bit(e'.enable), Bit(e'.enable && e'.pppoe);
    SetCommutes(SetDigit(r.en, i, 2, a), i, a', i + 16, p, 2);
    SetTwice(r.en, i, 2, a, a');
    SetTwice(SetDigit(r.en, i, 2, a'), i + 16, 2, p, p');
    SetTwice(r.et[i / 2], i % 2, HALF, e.etype, e'.etype);
  }

  /** Writing back what an entry holds changes nothing, for an entry in normal form. */
  lemma PutSame(r: Regs, i: nat)
    requires Shape(r) && i < MAX_INDEX && Get(r, i) == Normal(Get(r, i))
    ensures IsEntry(Get(r, i)) && Put(r, i, Get(r, i)) == r
  {
    hide Digit, SetDigit;
    SetSame(r.en, i, 2);
    SetSame(r.en, i + 16, 2);
    SetSame(r.et[i / 2], i % 2, HALF);
    assert r.et[i / 2 := r.et[i / 2]] == r.et;
  }

  lemma PutCommutes(r: Regs, i: nat, e: Entry, j: nat, e': Entry)
    requires Shape(r) && i < MAX_INDEX && j < MAX_INDEX && i != j && IsEntry(e) && IsEntry(e')
    ensures Put(Put(r, i, e), j, e') == Put(Put(r, j, e'), i, e)
  {
    if i < j { PutCommutesOrdered(r, i, e, j, e'); } else { PutCommutesOrdered(r, j, e', i, e); }
  }

  lemma BitsCommute(n: nat, i: nat, a: nat, p: nat, j: nat, b: nat, q: nat)
    requires i < j < MAX_INDEX && a < 2 && p < 2 && b < 2 && q < 2
    ensures SetDigit(SetDigit(SetDigit(SetDigit(n, i, 2, a), i + 16, 2, p), j, 2, b), j + 16, 2, q)
         == SetDigit(SetDigit(SetDigit(SetDigit(n, j, 2, b), j + 16, 2, q), i, 2, a), i + 16, 2, p)
  {
    hide SetDigit;
    var m := SetDigit(n, i, 2, a);
    SetCommutes(m, j, b, i + 16, p, 2);
    SetCommutes(n, i, a, j, b, 2);
    var k := SetDigit(n, j, 2, b);
    SetCommutes(SetDigit(k, i, 2, a), i + 16, p, j + 16, q, 2);
    SetCommutes(k, i, a, j + 16, q, 2);
  }

  lemma PutCommutesOrdered(r: Regs, i: nat, e: Entry, j: nat, e': Entry)
    requires Shape(r) && i < j < MAX_INDEX && IsEntry(e) && IsEntry(e')
    ensures Put(Put(r, i, e), j, e') == Put(Put(r, j, e'), i, e)
  {
    BitsCommute(r.en, i, Bit(e.enable), Bit(e.enable && e.pppoe), j, Bit(e'.enable), Bit(e'.enable && e'.pppoe));
    hide Digit, SetDigit;
    if i / 2 == j / 2 {
      SetCommutes(r.et[i / 2], i % 2, e.etype, j % 2, e'.etype, HALF);
    }
  }

  // ---------------------------------------------------------------- the table as a set

  predicate Matches(e: Entry, key: Key) { e.enable && e.etype == key.0 && e.pppoe == key.1 }

  predicate Free(e: Entry) { !e.enable && e.etype == 0 }

  /** ppe_find_l2b_ether_type_index */
  function FindKey(r: Regs, key: Key, i: nat): (f: Option<nat>)
    requires Shape(r) && i <= MAX_INDEX
    ensures f.Some? ==> i <= f.value < MAX_INDEX && Matches(Get(r, f.value), key)
    ensures forall j :: i <= j < (if f.Some? then f.value else MAX_INDEX) ==> !Matches(Get(r, j), key)
    decreases MAX_INDEX - i
  {
    if i == MAX_INDEX then None else if Matches(Get(r, i), key) then Some(i) else FindKey(r, key, i + 1)
  }

  /** ppe_find_free_l2b_ether_type_index */
  function FindFree(r: Regs, i: nat): (f: Option<nat>)
    requires Shape(r) && i <= MAX_INDEX
    ensures f.Some? ==> i <= f.value < MAX_INDEX && Free(Get(r, f.value))
    ensures forall j :: i <= j < (if f.Some? then f.value else MAX_INDEX) ==> !Free(Get(r, j))
    decreases MAX_INDEX - i
  {
    if i == MAX_INDEX then None else if Free(Get(r, i)) then Some(i) else FindFree(r, i + 1)
  }

  function KeyEntry(key: Key): Entry { Entry(true, key.1, key.0) }

  predicate IsKey(key: Key) { key.0 < HALF }

  /** Index used, and whether the entry was there already. */
  type SetResult = Result<(nat, bool), Errno>

  /** ppe_set_l2b_ether_type_auto on a present device */
  function SetAuto(r: Regs, key: Key): (Regs, SetResult)
    requires Shape(r) && IsKey(key)
  {
    var found, free := FindKey(r, key, 0), FindFree(r, 0);
    if found.Some? then (r, Ok((found.value, true)))
    else if free.None? then (r, Err(ENOSPC))
    else (Put(r, free.value, KeyEntry(key)), Ok((free.value, false)))
  }

  /** ppe_clear_l2b_ether_type_auto on a present device */
  function ClearAuto(r: Regs, key: Key): (r': Regs)
    requires Shape(r)
    ensures Shape(r')
  {
    var found := FindKey(r, key, 0);
    if found.None? then r else Put(r, found.value, CLEAR)
  }

  /** The keys the hardware acts on. */
  ghost predicate Has(r: Regs, key: Key)
    requires Shape(r)
  {
    exists i :: 0 <= i < MAX_INDEX && Get(r, i) == Entry(true, key.1, key.0)
  }

  /** Enabled keys are unique, and a disabled entry has a clear PPPoE bit. */
  ghost predicate Good(r: Regs): (good: bool)
    ensures good ==> Shape(r)
  {
    && Shape(r)
    && (forall i :: 0 <= i < MAX_INDEX ==> Get(r, i) == Normal(Get(r, i)))
    && (forall i, j :: 0 <= i < j < MAX_INDEX && Get(r, i).enable && Get(r, j).enable ==> Get(r, i) != Get(r, j))
  }

  /** Adding a key inserts it into the set; it fails exactly when it is absent and no entry is free. */
  lemma SetAutoInserts(r: Regs, key: Key)
    requires Good(r) && IsKey(key)
    ensures var (r', result) := SetAuto(r, key);
            && (result.Err? <==> !Has(r, key) && forall i :: 0 <= i < MAX_INDEX ==> !Free(Get(r, i)))
            && (result.Err? ==> r' == r)
            && (result.Ok? ==>
                  && Good(r')
                  && (forall k :: Has(r', k) <==> Has(r, k) || k == key)
                  && result.value.0 < MAX_INDEX && Matches(Get(r', result.value.0), key)
                  && (result.value.1 <==> Has(r, key)) && (result.value.1 ==> r' == r))
  {
    hide FindKey, FindFree, Get, Put;
    var (r', result) := SetAuto(r, key);
    if result.Ok? && !result.value.1 {
      var i := result.value.0;
      forall j | 0 <= j < MAX_INDEX
        ensures Get(r', j) == if i == j then KeyEntry(key) else Get(r, j)
      {
        GetPut(r, i, KeyEntry(key), j);
      }
      forall k
        ensures Has(r', k) <==> Has(r, k) || k == key
      {
        if Has(r, k) {
          var j :| 0 <= j < MAX_INDEX && Get(r, j) == Entry(true, k.1, k.0);
          assert Get(r', j) == Entry(true, k.1, k.0);
        }
      }
    }
  }

  /** Clearing a key removes it from the set, and is harmless when it is absent. */
  lemma ClearAutoRemoves(r: Regs, key: Key)
    requires Good(r)
    ensures var r' := ClearAuto(r, key);
            && Good(r')
            && (forall k :: Has(r', k) <==> Has(r, k) && k != key)
            && (!Has(r, key) ==> r' == r)
  {
    hide FindKey, Get, Put;
    var r' := ClearAuto(r, key);
    var found := FindKey(r, key, 0);
    if found.Some? {
      var i := found.value;
      forall j | 0 <= j < MAX_INDEX
        ensures Get(r', j) == if i == j then CLEAR else Get(r, j)
      {
        GetPut(r, i, CLEAR, j);
      }
      forall k
        ensures Has(r', k) <==> Has(r, k) && k != key
      {
        if Has(r, k) && k != key {
          var j :| 0 <= j < MAX_INDEX && Get(r, j) == Entry(true, k.1, k.0);
          assert Get(r', j) == Entry(true, k.1, k.0);
        }
        if Has(r', k) {
          var j :| 0 <= j < MAX_INDEX && Get(r', j) == Entry(true, k.1, k.0);
          assert j != i && Get(r, j) == Entry(true, k.1, k.0);
        }
      }
    }
  }

  /** Clearing finds the entry just put, so it undoes adding an absent key, register for register. */
  lemma ClearUndoesSet(r: Regs, key: Key)
    requires Good(r) && IsKey(key) && SetAuto(r, key).1.Ok? && !SetAuto(r, key).1.value.1
    ensures ClearAuto(SetAuto(r, key).0, key) == r
  {
    var (r', result) := SetAuto(r, key);
    var i := result.value.0;
    SetAutoInserts(r, key);
    hide FindKey, FindFree, Put, Has;
    FoundIsUnique(r', key, i);
    FreeIsClear(r, i);
    PutTwice(r, i, KeyEntry(key), CLEAR);
    PutSame(r, i);
  }

  lemma FoundIsUnique(r: Regs, key: Key, i: nat)
    requires Good(r) && i < MAX_INDEX && Matches(Get(r, i), key)
    ensures FindKey(r, key, 0) == Some(i)
  {
    hide FindKey, Get;
    assert Matches(Get(r, FindKey(r, key, 0).value), key);
  }

  lemma FreeIsClear(r: Regs, i: nat)
    requires Good(r) && i < MAX_INDEX && Free(Get(r, i))
    ensures Get(r, i) == CLEAR
  {
    hide Digit;
  }

  /** Clearing two different keys leaves the same registers in either order. */
  lemma ClearsCommute(r: Regs, a: Key, b: Key)
    requires Good(r) && a != b
    ensures ClearAuto(ClearAuto(r, a), b) == ClearAuto(ClearAuto(r, b), a)
  {
    var i, j := FindKey(r, a, 0), FindKey(r, b, 0);
    hide FindKey, Put, Get, Has;
    FoundAfterClear(r, a, b);
    FoundAfterClear(r, b, a);
    if i.Some? && j.Some? {
      PutCommutes(r, i.value, CLEAR, j.value, CLEAR);
    }
  }

  lemma FoundAfterClear(r: Regs, a: Key, b: Key)
    requires Good(r) && a != b
    ensures FindKey(ClearAuto(r, a), b, 0) == FindKey(r, b, 0)
  {
    var i, j := FindKey(r, a, 0), FindKey(r, b, 0);
    var r' := ClearAuto(r, a);
    ClearAutoRemoves(r, a);
    hide FindKey, Put, Get;
    if j.Some? {
      if i.Some? { GetPut(r, i.value, CLEAR, j.value); }
      FoundIsUnique(r', b, j.value);
    } else {
      assert !Has(r', b);
    }
  }

  // ---------------------------------------------------------------- room left

  /** How many of the first n entries are free. */
  function FreeBelow(r: Regs, n: nat): nat
    requires Shape(r) && n <= MAX_INDEX
  {
    if n == 0 then 0 else FreeBelow(r, n - 1) + if Free(Get(r, n - 1)) then 1 else 0
  }

  function FreeCount(r: Regs): nat
    requires Shape(r)
  {
    FreeBelow(r, MAX_INDEX)
  }

  lemma {:induction false} FreeBelowAfterPut(r: Regs, i: nat, key: Key, n: nat)
    requires Shape(r) && i < MAX_INDEX && n <= MAX_INDEX && IsKey(key) && Free(Get(r, i))
    ensures FreeBelow(r, n) == FreeBelow(Put(r, i, KeyEntry(key)), n) + if i < n then 1 else 0
  {
    hide Get, Put;
    if n > 0 {
      GetPut(r, i, KeyEntry(key), n - 1);
      FreeBelowAfterPut(r, i, key, n - 1);
    }
  }

  lemma {:induction false} NoneFreeBelow(r: Regs, n: nat)
    requires Shape(r) && n <= MAX_INDEX
    ensures FreeBelow(r, n) == 0 <==> forall i :: 0 <= i < n ==> !Free(Get(r, i))
  {
    hide Get;
    if n > 0 { NoneFreeBelow(r, n - 1); }
  }

  /** Adding an absent key takes one free entry, and fails exactly when there is none. */
  lemma SetAutoTakesOneEntry(r: Regs, key: Key)
    requires Good(r) && IsKey(key) && !Has(r, key)
    ensures SetAuto(r, key).1.Err? <==> FreeCount(r) == 0
    ensures SetAuto(r, key).1.Ok? ==> FreeCount(SetAuto(r, key).0) + 1 == FreeCount(r)
  {
    SetAutoInserts(r, key);
    NoneFreeBelow(r, MAX_INDEX);
    hide FindKey, FindFree, Put, Get;
    var (_, result) := SetAuto(r, key);
    if result.Ok? { FreeBelowAfterPut(r, result.value.0, key, MAX_INDEX); }
  }

  // ---------------------------------------------------------------- the registers

  class Ppe {
    var en: nat
    const et: array<nat>
    var en2: nat // the second PPE, written through on a 7581
    const et2: array<nat>
    const is7581: bool
    const present: bool // glb_eth is set

    ghost predicate Valid()
      reads this, et, et2
    {
      && et != et2 && et.Length == et2.Length == MAX_INDEX / 2
      && (is7581 ==> en2 == en && et2[..] == et[..])
    }

    ghost function Image(): (r: Regs)
      requires Valid()
      reads this, et, et2
      ensures Shape(r)
    {
      Regs(en, et[..])
    }

    constructor (en0: nat, et0: seq<nat>, is7581: bool, present: bool)
      requires |et0| == MAX_INDEX / 2
      ensures Valid() && fresh(et) && fresh(et2) && Image() == Regs(en0, et0)
      ensures this.is7581 == is7581 && this.present == present
    {
      en := en0;
      en2 := en0;
      et := new nat[MAX_INDEX / 2](i requires 0 <= i < MAX_INDEX / 2 => et0[i]);
      et2 := new nat[MAX_INDEX / 2](i requires 0 <= i < MAX_INDEX / 2 => et0[i]);
      this.is7581 := is7581;
      this.present := present;
      new;
      assert et[..] == et0 && et2[..] == et0;
    }

    /** ppe_set_l2b_ether_type */
    method Set(index: nat, enable: bool, pppoe: bool, value: nat) returns (error: Option<Errno>)
      requires Valid()
      modifies this, et, et2
      ensures Valid()
      ensures error == if !present then Some(ENODEV) else if index >= MAX_INDEX then Some(EINVAL) else None
      ensures Image() == if error.Some? then old(Image())
                         else Put(old(Image()), index, Entry(enable, pppoe, value % HALF))
      ensures !is7581 ==> en2 == old(en2) && et2[..] == old(et2[..])
    {
      hide SetDigit;
      if !present { return Some(ENODEV); }
      if index > 15 { return Some(EINVAL); }
      var val := en;
      if enable {
        val := SetDigit(val, index, 2, 1);
        if pppoe { val := SetDigit(val, index + 16, 2, 1); } else { val := SetDigit(val, index + 16, 2, 0); }
      } else {
        val := SetDigit(val, index, 2, 0);
        val := SetDigit(val, index + 16, 2, 0);
      }
      en := val;
      if is7581 { en2 := val; }
      var typ := SetDigit(et[index / 2], index % 2, HALF, value % HALF);
      et[index / 2] := typ;
      if is7581 { et2[index / 2] := typ; }
      assert et[..] == old(et[..])[index / 2 := typ];
      assert is7581 ==> et2[..] == old(et2[..])[index / 2 := typ];
      return None;
    }

    /** ppe_find_l2b_ether_type_index */
    method FindIndex(key: Key) returns (found: Option<nat>)
      requires Valid()
      ensures found == FindKey(Image(), key, 0)
    {
      for i := 0 to MAX_INDEX
        invariant FindKey(Image(), key, 0) == FindKey(Image(), key, i)
      {
        if Digit(en, i, 2) == 1 && Digit(et[i / 2], i % 2, HALF) == key.0 && (Digit(en, i + 16, 2) == 1) == key.1 {
          return Some(i);
        }
      }
      return None;
    }

    /** ppe_find_free_l2b_ether_type_index */
    method FindFreeIndex() returns (found: Option<nat>)
      requires Valid()
      ensures found == FindFree(Image(), 0)
    {
      for i := 0 to MAX_INDEX
        invariant FindFree(Image(), 0) == FindFree(Image(), i)
      {
        if Digit(en, i, 2) != 1 && Digit(et[i / 2], i % 2, HALF) == 0 { return Some(i); }
      }
      return None;
    }

    /** ppe_set_l2b_ether_type_auto */
    method SetTypeAuto(key: Key) returns (result: SetResult)
      requires Valid() && IsKey(key)
      modifies this, et, et2
      ensures Valid()
      ensures (Image(), result) == if present then SetAuto(old(Image()), key) else (old(Image()), Err(ENODEV))
      ensures !is7581 ==> en2 == old(en2) && et2[..] == old(et2[..])
    {
      hide FindKey, FindFree, Get, Put, Ppe.Image;
      if !present { return Err(ENODEV); }
      var idx := FindIndex(key);
      if idx.Some? { return Ok((idx.value, true)); }
      idx := FindFreeIndex();
      if idx.None? { return Err(ENOSPC); }
      var _ := Set(idx.value, true, key.1, key.0);
      return Ok((idx.value, false));
    }

    /** ppe_clear_l2b_ether_type_auto */
    method ClearTypeAuto(key: Key) returns (error: Option<Errno>)
      requires Valid()
      modifies this, et, et2
      ensures Valid()
      ensures error == if present then None else Some(ENODEV)
      ensures Image() == if present then ClearAuto(old(Image()), key) else old(Image())
      ensures !is7581 ==> en2 == old(en2) && et2[..] == old(et2[..])
    {
      if !present { return Some(ENODEV); }
      var idx := FindIndex(key);
      if idx.None? { return None; }
      error := Set(idx.value, false, false, 0);
    }
  }
}
