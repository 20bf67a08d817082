/**
 The binary searches for a bucket-size shift: biSearchGetBucketSizeShift (arht_qdma.c 61-91) and the XSI
 limiter's get_bucketsize_shift (arht_hsgmii.c 2895-2921).
 */
module BucketShift {
  const UINT: nat := 0x1_0000_0000

  const EINVAL: nat := 22

  /** unit << n, unbounded. */
  function Scaled(unit: nat, n: nat): nat { if n == 0 then unit else 2 * Scaled(unit, n - 1) }

  lemma {:induction false} ScaledGrows(unit: nat, m: nat, n: nat)
    requires m <= n
    ensures unit <= Scaled(unit, m) <= Scaled(unit, n)
    ensures m < n ==> 2 * Scaled(unit, m) <= Scaled(unit, n)
    decreases n
  {
    if n > 0 { ScaledGrows(unit, if m < n then m else n - 1, n - 1); }
  }

  /** unit << n on an unsigned int. */
  function Shl(unit: nat, n: nat): nat { Scaled(unit, n) % UINT }

  // ---------------------------------------------------------------- the searches

  /** biSearchGetBucketSizeShift; the failure return is -EINVAL. */
  function Search(value: nat, lo: nat, hi: nat, unit: nat): int
    decreases hi - lo
  {
    if lo > hi then 0 - EINVAL
    else if 0 < value < unit then 0
    else
      var mid := (lo + hi) / 2;
      if Shl(unit, mid) == value then mid
      else if Shl(unit, lo) == value then lo
      else if Shl(unit, hi) == value then hi
      else if Shl(unit, mid) > value then
        if mid - lo <= 1 then mid else Search(value, lo, mid, unit)
      else if hi - mid <= 1 then hi
      else Search(value, mid, hi, unit)
  }

  /** get_bucketsize_shift of the XSI rate limiter: the same without the two tests of the bounds. */
  function XsiSearch(value: nat, lo: nat, hi: nat, unit: nat): int
    decreases hi - lo
  {
    if lo > hi then 0 - EINVAL
    else if 0 < value < unit then 0
    else
      var mid := (lo + hi) / 2;
      if Shl(unit, mid) == value then mid
      else if Shl(unit, mid) > value then
        if mid - lo <= 1 then mid else XsiSearch(value, lo, mid, unit)
      else if hi - mid <= 1 then hi
      else XsiSearch(value, mid, hi, unit)
  }

  /** What both look for, by linear scan: the least shift from s on that makes the bucket large enough, or hi. */
  function LeastShift(value: nat, s: nat, hi: nat, unit: nat): (r: nat)
    requires s <= hi
    ensures s <= r <= hi && (r < hi ==> Scaled(unit, r) >= value)
    ensures forall j :: s <= j < r ==> Scaled(unit, j) < value
    decreases hi - s
  {
    if s == hi || Scaled(unit, s) >= value then s else LeastShift(value, s + 1, hi, unit)
  }

  /** No shift up to hi leaves 32 bits. */
  predicate Fits(unit: nat, hi: nat) { unit > 0 && Scaled(unit, hi) < UINT }

  lemma ShlExact(unit: nat, n: nat, hi: nat)
    requires Fits(unit, hi) && n <= hi
    ensures Shl(unit, n) == Scaled(unit, n) && unit <= Scaled(unit, n) <= Scaled(unit, hi)
  {
    ScaledGrows(unit, n, hi);
  }

  /** The least shift is the only one that suffices while the one below it does not. */
  lemma LeastIs(value: nat, hi: nat, unit: nat, r: nat)
    requires Fits(unit, hi) && r <= hi && (r < hi ==> Scaled(unit, r) >= value)
    requires r > 0 ==> Scaled(unit, r - 1) < value
    ensures LeastShift(value, 0, hi, unit) == r
  {
    var least := LeastShift(value, 0, hi, unit);
    if least < r { ScaledGrows(unit, least, r - 1); }
  }

  lemma ExactLeast(value: nat, hi: nat, unit: nat, r: nat)
    requires Fits(unit, hi) && r <= hi && Scaled(unit, r) == value
    ensures LeastShift(value, 0, hi, unit) == r
  {
    if r > 0 { ScaledGrows(unit, r - 1, r); }
    LeastIs(value, hi, unit, r);
  }

  /** What every recursive call of either search is given: the value strictly above the low end. */
  predicate Bracketed(value: nat, lo: nat, hi: nat, unit: nat, top: nat) {
    lo < hi <= top && Fits(unit, top) && Scaled(unit, lo) < value && (hi < top ==> value <= Scaled(unit, hi))
  }

  lemma {:induction false} SearchFinds(value: nat, lo: nat, hi: nat, unit: nat, top: nat)
    requires Bracketed(value, lo, hi, unit, top)
    ensures Search(value, lo, hi, unit) == XsiSearch(value, lo, hi, unit) == LeastShift(value, 0, top, unit)
    decreases hi - lo
  {
    var mid := (lo + hi) / 2;
    ShlExact(unit, lo, top);
    ShlExact(unit, mid, top);
    ShlExact(unit, hi, top);
    Pivot(value, lo, hi, unit, top);
    hide Shl, Scaled, LeastShift, Fits;
    if Scaled(unit, mid) != value {
      if Scaled(unit, mid) > value {
        if mid - lo > 1 { SearchFinds(value, lo, mid, unit, top); }
      } else if hi - mid > 1 {
        SearchFinds(value, mid, hi, unit, top);
      }
    }
  }

  /** Where the searches stop, they stop at the least shift. */
  lemma Pivot(value: nat, lo: nat, hi: nat, unit: nat, top: nat)
    requires Bracketed(value, lo, hi, unit, top)
    ensures var mid, least := (lo + hi) / 2, LeastShift(value, 0, top, unit);
            && (Scaled(unit, mid) == value ==> least == mid)
            && (Scaled(unit, hi) == value ==> least == hi)
            && (Scaled(unit, mid) > value && mid - lo <= 1 ==> least == mid)
            && (Scaled(unit, mid) < value && hi - mid <= 1 ==> least == hi)
  {
    var mid := (lo + hi) / 2;
    if Scaled(unit, mid) == value { ExactLeast(value, top, unit, mid); }
    if Scaled(unit, hi) == value { ExactLeast(value, top, unit, hi); }
    if Scaled(unit, mid) > value && mid - lo <= 1 { LeastIs(value, top, unit, mid); }
    if Scaled(unit, mid) < value && hi - mid <= 1 { LeastIs(value, top, unit, hi); }
  }

  /** The search is the linear scan, for every positive value. */
  lemma SearchIsLeastShift(value: nat, hi: nat, unit: nat)
    requires value > 0 && Fits(unit, hi)
    ensures Search(value, 0, hi, unit) == LeastShift(value, 0, hi, unit)
  {
    ShlExact(unit, 0, hi);
    ShlExact(unit, hi / 2, hi);
    ScaledGrows(unit, 0, hi / 2);
    if value <= unit { LeastIs(value, hi, unit, 0); }
    if unit < value && hi > 0 { SearchFinds(value, 0, hi, unit, hi); }
  }

  /** The XSI search is the same scan except when the value is the unit itself: then it answers 1. */
  lemma XsiSearchIsLeastShift(value: nat, hi: nat, unit: nat)
    requires value > 0 && Fits(unit, hi) && hi >= 2
    ensures XsiSearch(value, 0, hi, unit) == if value == unit then 1 else LeastShift(value, 0, hi, unit)
    ensures LeastShift(unit, 0, hi, unit) == 0
  {
    ShlExact(unit, 0, hi);
    LeastIs(unit, hi, unit, 0);
    if value < unit { LeastIs(value, hi, unit, 0); }
    if unit < value { SearchFinds(value, 0, hi, unit, hi); }
    if value == unit { XsiAtUnit(hi, unit, hi); }
  }

  lemma {:induction false} XsiAtUnit(hi: nat, unit: nat, top: nat)
    requires 2 <= hi <= top && Fits(unit, top)
    ensures XsiSearch(unit, 0, hi, unit) == 1
    decreases hi
  {
    ShlExact(unit, hi / 2, top);
    ScaledGrows(unit, 0, hi / 2);
    if hi / 2 > 1 { XsiAtUnit(hi / 2, unit, top); }
  }

  /** A value of 0 gets shift 1 from both. */
  lemma ZeroGetsOne(hi: nat, unit: nat, top: nat)
    requires 2 <= hi <= top && Fits(unit, top)
    ensures Search(0, 0, hi, unit) == XsiSearch(0, 0, hi, unit) == 1
    decreases hi
  {
    ShlExact(unit, 0, top);
    ShlExact(unit, hi / 2, top);
    ShlExact(unit, hi, top);
    if hi / 2 > 1 { ZeroGetsOne(hi / 2, unit, top); }
  }

  /**
   The bucket is never too small when the largest one is large enough, and less than twice the request when the
   request is more than one unit.
   */
  lemma BucketFits(value: nat, hi: nat, unit: nat)
    requires value > 0 && Fits(unit, hi)
    ensures var s := Search(value, 0, hi, unit);
            && 0 <= s <= hi && (s < hi ==> Scaled(unit, s) >= value)
            && (Scaled(unit, s) >= value <==> Scaled(unit, hi) >= value)
            && (value > unit ==> Scaled(unit, s) < 2 * value)
  {
    SearchIsLeastShift(value, hi, unit);
    var s := LeastShift(value, 0, hi, unit);
    ShlExact(unit, s, hi);
  }
}
