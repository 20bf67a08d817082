/**
 The fixed-point token rate of arht_qdma.c: encoding (1194-1258) and reading back (1103-1147), and the bucket
 programmed with it.
 */
module TokenRate {
  import opened Wrappers
  import BucketShift

  const EINVAL: nat := 22
  const INTEGER_MAX: nat := 0x3_FFFF
  const USHORT: nat := 0x1_0000
  const UINT: nat := 0x1_0000_0000

  /** rateLimitUnit, held in an unsigned short: the kbit/s or packets/s that one token per tick makes. */
  function Unit(tick: nat, byteMode: bool): nat
    requires tick > 0
  {
    (if byteMode then 8000 / tick else 1_000_000 / tick) % USHORT
  }

  predicate Usable(tick: int, byteMode: bool) { tick > 0 && Unit(tick, byteMode) > 0 }

  function Times(a: nat, b: nat): nat { a * b }

  function Whole(rate: nat, unit: nat): nat
    requires unit > 0
  {
    rate / unit
  }

  function Fraction(rate: nat, unit: nat): nat
    requires unit > 0
  {
    rate % unit * 64 / unit
  }

  /** generalSetRatelimitTokenRate up to the register word. */
  function Encode(rate: nat, tick: int, byteMode: bool): Result<nat, nat> {
    if !Usable(tick, byteMode) then Err(EINVAL)
    else
      var unit := Unit(tick, byteMode);
      var integer, fraction := Whole(rate, unit), Fraction(rate, unit) % USHORT;
      if integer > INTEGER_MAX || fraction > 0x3F then Err(EINVAL) else Ok(integer * 64 + fraction)
  }

  /** airoha_generalGetTrtcmTokenRate of the register word, in unsigned 32-bit arithmetic. */
  function Decode(word: nat, tick: int, byteMode: bool): Result<nat, nat> {
    if !Usable(tick, byteMode) then Err(EINVAL)
    else
      var unit := Unit(tick, byteMode);
      Ok((Times(word / 64 % (INTEGER_MAX + 1), unit) + Times(word % 64, unit) / 64) % UINT)
  }

  // ---------------------------------------------------------------- division

  lemma MulMonotone(a: nat, b: nat, c: nat)
    requires b <= c
    ensures b * a <= c * a
  {}

  lemma CancelLess(a: nat, b: nat, d: nat)
    requires a * d < b * d
    ensures a < b
  {
    if b <= a { MulMonotone(d, b, a); }
  }

  lemma QuotientIs(n: nat, d: nat, q: nat)
    requires d > 0 && q * d <= n < q * d + d
    ensures n / d == q
  {
    Quotient(n, d);
    Between(n, d, n / d, q);
  }

  lemma Between(n: nat, d: nat, p: nat, q: nat)
    requires p * d <= n < p * d + d && q * d <= n < q * d + d
    ensures p == q
  {
    OneMore(p, d);
    OneMore(q, d);
    CancelLess(p, q + 1, d);
    CancelLess(q, p + 1, d);
  }

  lemma OneMore(p: nat, d: nat)
    ensures (p + 1) * d == p * d + d
  {}

  lemma Associate(a: nat, b: nat, c: nat)
    ensures a * b * c == a * (b * c)
  {}

  lemma ScaleLess(a: nat, b: nat, t: nat)
    requires a < b && t > 0
    ensures a * t < b * t
  {
    MulMonotone(t, a + 1, b);
    OneMore(a, t);
  }

  lemma Quotient(n: nat, d: nat)
    requires d > 0
    ensures n / d * d + n % d == n
    ensures n / d * d <= n < n / d * d + d
  {}

  /** Whole and fraction together are 64 times the rate, divided once. */
  lemma WholeFraction(rate: nat, unit: nat)
    requires unit > 0
    ensures Fraction(rate, unit) <= 63
    ensures Times(Whole(rate, unit), unit) <= rate
    ensures Times(Fraction(rate, unit), unit) <= 64 * (rate - Times(Whole(rate, unit), unit))
                                              < Times(Fraction(rate, unit), unit) + unit
  {
    var r := rate % unit;
    Quotient(rate, unit);
    Quotient(r * 64, unit);
    CancelLess(r * 64 / unit, 64, unit);
  }

  lemma WordIsQuotient(rate: nat, unit: nat)
    requires unit > 0
    ensures Whole(rate, unit) * 64 + Fraction(rate, unit) == 64 * rate / unit
  {
    WholeFraction(rate, unit);
    hide Whole, Fraction;
    var i, f := Whole(rate, unit), Fraction(rate, unit);
    Distribute(i, f, unit);
    QuotientIs(64 * rate, unit, i * 64 + f);
  }

  lemma Distribute(i: nat, f: nat, unit: nat)
    ensures (i * 64 + f) * unit == 64 * (i * unit) + f * unit
  {}

  lemma DivMonotone(a: nat, b: nat, d: nat)
    requires a <= b && d > 0
    ensures a / d <= b / d
  {
    Quotient(a, d);
    Quotient(b, d);
    assert (b / d + 1) * d == b / d * d + d;
    CancelLess(a / d, b / d + 1, d);
  }

  // ---------------------------------------------------------------- encoding

  /** Encoding fails exactly when the tick gives no unit or the rate is too many units; else the word is 64 rate / unit. */
  lemma EncodeAccepts(rate: nat, tick: int, byteMode: bool)
    ensures Encode(rate, tick, byteMode).Ok? <==>
            Usable(tick, byteMode) && rate / Unit(tick, byteMode) <= 0x3_FFFF
    ensures Encode(rate, tick, byteMode).Ok? ==> Encode(rate, tick, byteMode).value == 64 * rate / Unit(tick, byteMode)
    ensures Encode(rate, tick, byteMode).Ok? ==> Encode(rate, tick, byteMode).value / 64 == rate / Unit(tick, byteMode)
  {
    EncodeIs(rate, tick, byteMode);
    if Usable(tick, byteMode) { WordIsQuotient(rate, Unit(tick, byteMode)); }
    hide Encode, Unit, Fraction;
  }

  lemma EncodeIs(rate: nat, tick: int, byteMode: bool)
    ensures var ok := Usable(tick, byteMode) && Whole(rate, Unit(tick, byteMode)) <= INTEGER_MAX;
            && (Encode(rate, tick, byteMode).Ok? <==> ok)
            && (ok ==> var unit := Unit(tick, byteMode);
                       && Encode(rate, tick, byteMode).value == Whole(rate, unit) * 64 + Fraction(rate, unit)
                       && Fraction(rate, unit) <= 63)
  {
    if Usable(tick, byteMode) { WholeFraction(rate, Unit(tick, byteMode)); }
    hide Unit, Whole, Fraction, Times;
  }

  /**
   What the register word means, in tokens: a 64th of a token for each unit, gained once per tick of `tick`
   microseconds. In byte mode a token is 8 bits, so a rate in kbit/s is rate * tick / 8000 of them a tick; in packet
   mode, rate * tick / 1000000. What is programmed is below neither by as much as a 64th, and not above it when the
   tick divides; only ticks longer than a whole unit are refused. In packet mode this is so from 16 microseconds on.
   */
  lemma WordIsRatePerTick(rate: nat, tick: nat, byteMode: bool)
    requires tick >= if byteMode then 1 else 16
    ensures var word, all := Encode(rate, tick, byteMode), if byteMode then 8000 else 1_000_000;
            && (word.Ok? <==> tick <= all && rate / (all / tick) <= 0x3_FFFF)
            && (word.Ok? ==> 64 * (rate * tick) < all * (word.value + 1))
            && (word.Ok? && all % tick == 0 ==> all * word.value <= 64 * (rate * tick))
  {
    var all := if byteMode then 8000 else 1_000_000;
    UnitExact(tick, byteMode);
    EncodeAccepts(rate, tick, byteMode);
    if Encode(rate, tick, byteMode).Ok? {
      var word, unit := Encode(rate, tick, byteMode).value, Unit(tick, byteMode);
      hide Encode, Unit;
      Quotient(64 * rate, unit);
      Quotient(all, tick);
      Tokens(rate, tick, unit, word, all);
    }
  }

  lemma UnitExact(tick: nat, byteMode: bool)
    requires tick >= if byteMode then 1 else 16
    ensures var all := if byteMode then 8000 else 1_000_000;
            Unit(tick, byteMode) == all / tick && (all / tick > 0 <==> tick <= all)
  {
    var all := if byteMode then 8000 else 1_000_000;
    Quotient(all, tick);
    if all / tick > 0 { MulMonotone(tick, 1, all / tick); }
    if !byteMode { DivMonotoneBelow(all, 16, tick); }
  }

  lemma DivMonotoneBelow(n: nat, a: nat, b: nat)
    requires 0 < a <= b
    ensures n / b <= n / a
  {
    Quotient(n, a);
    Quotient(n, b);
    MulMonotone(n / b, a, b);
    CancelLess(n / b, n / a + 1, a);
  }

  lemma Tokens(rate: nat, tick: nat, unit: nat, word: nat, all: nat)
    requires word * unit <= 64 * rate < (word + 1) * unit
    requires tick > 0 && unit * tick <= all && (all % tick == 0 ==> unit * tick == all)
    ensures 64 * (rate * tick) < all * (word + 1)
    ensures all % tick == 0 ==> all * word <= 64 * (rate * tick)
  {
    ScaleLess(64 * rate, (word + 1) * unit, tick);
    MulMonotone(tick, word * unit, 64 * rate);
    Associate(64, rate, tick);
    Associate(word + 1, unit, tick);
    Associate(word, unit, tick);
    MulMonotone(word + 1, unit * tick, all);
  }

  /** The packet rate's unit is what the division gives if and only if the tick is 16 microseconds or more. */
  lemma PacketUnitFits(tick: nat)
    requires tick > 0
    ensures Unit(tick, false) == 1_000_000 / tick <==> tick >= 16
  {
    if tick >= 16 {
      UnitExact(tick, false);
    } else {
      DivMonotoneBelow(1_000_000, tick, 15);
    }
  }

  /** Below 16 microseconds the packet rate's unit leaves its 16 bits: at 15, one packet per tick is taken for 59. */
  lemma ShortTickWraps()
    ensures Encode(66_666, 15, false) == Ok(64 * 58 + 63) && 66_666 * 15 < 1_000_000
  {
    assert Unit(15, false) == 1130;
    hide Unit;
    assert Whole(66_666, 1130) == 58 && Fraction(66_666, 1130) == 63;
    hide Whole, Fraction;
  }

  /** Reading back gives the rate rounded down by no more than a 64th of the unit, rounded up. */
  lemma DecodeEncode(rate: nat, tick: int, byteMode: bool)
    requires rate < UINT && Encode(rate, tick, byteMode).Ok?
    ensures var back := Decode(Encode(rate, tick, byteMode).value, tick, byteMode);
            back.Ok? && Usable(tick, byteMode) && 0 <= rate - back.value <= (Unit(tick, byteMode) + 63) / 64
  {
    EncodeIs(rate, tick, byteMode);
    hide Unit, Whole, Fraction, Decode, Encode, Times;
    var unit := Unit(tick, byteMode);
    WholeFraction(rate, unit);
    var i, f := Whole(rate, unit), Fraction(rate, unit);
    Unpack(i, f, tick, byteMode);
    Rounding(rate, unit, Times(i, unit), Times(f, unit));
  }

  lemma Unpack(i: nat, f: nat, tick: int, byteMode: bool)
    requires i <= INTEGER_MAX && f <= 63 && Usable(tick, byteMode)
    ensures var unit := Unit(tick, byteMode);
            Decode(i * 64 + f, tick, byteMode) == Ok((Times(i, unit) + Times(f, unit) / 64) % UINT)
  {
    hide Unit, Times;
    var word := i * 64 + f;
    assert word / 64 == i && word % 64 == f;
  }

  lemma Rounding(rate: nat, unit: nat, whole: nat, part: nat)
    requires whole <= rate && part <= 64 * (rate - whole) < part + unit
    ensures 0 <= rate - (whole + part / 64) <= (unit + 63) / 64
  {}

  /** A larger rate never gets a smaller word. */
  lemma EncodeIsMonotone(a: nat, b: nat, tick: int, byteMode: bool)
    requires a <= b && Encode(b, tick, byteMode).Ok?
    ensures Encode(a, tick, byteMode).Ok? && Encode(a, tick, byteMode).value <= Encode(b, tick, byteMode).value
  {
    EncodeAccepts(a, tick, byteMode);
    EncodeAccepts(b, tick, byteMode);
    var unit := Unit(tick, byteMode);
    hide Unit, Encode;
    DivMonotone(a, b, unit);
    DivMonotone(64 * a, 64 * b, unit);
  }

  // ---------------------------------------------------------------- the bucket

  datatype Meter = Ingress | Sla | Egress | Glb

  /** trtcmBucketByteUnit and trtcmBucketPacketUnit, as qdma_init_trtcm sets them. */
  function BucketUnit(meter: Meter, byteMode: bool): nat {
    if meter.Glb? then 256 else if byteMode then 1024 else 16
  }

  const METER_1K: nat := 1000
  const METER_1M: nat := 1_024_000 // METER_1K << 10

  /** generalGetBucketSizeByRate */
  function BucketSizeByRate(rate: nat): nat {
    if rate <= 4 * METER_1K then 64 * 1024
    else if rate <= 8 * METER_1K then 512 * 1024
    else if rate <= 16 * METER_1K then METER_1M
    else if rate <= 128 * METER_1K then 8 * METER_1M
    else if rate <= 256 * METER_1K then 24 * METER_1M
    else 64 * METER_1M
  }

  /** The bucket size generalSetRatelimitTokenRate returns with the word; RATELIMIT_PKT_MODE_BUCKET_SHIFT is 0. */
  function BucketSize(meter: Meter, byteMode: bool, rate: nat, word: nat): nat {
    if meter.Ingress? then (if byteMode then BucketSizeByRate(rate) else rate)
    else if word / 64 + 1 < 4096 then 4096
    else word / 64 + 1
  }

  /**
   For every accepted rate whose bucket size is accepted too, the bucket programmed holds what one tick adds, and
   is under twice the size asked for when that is over one unit. Only an ingress packet rate can ask for too much.
   */
  lemma BucketHoldsATick(meter: Meter, rate: nat, tick: int, byteMode: bool)
    requires Encode(rate, tick, byteMode).Ok?
    ensures var word := Encode(rate, tick, byteMode).value;
            var unit := if meter.Glb? then 256 else if byteMode then 1024 else 16;
            var size := BucketSize(meter, byteMode, rate, word);
            var shift := BucketShift.Search(size, 0, 17, unit);
            && (size > 0x800_0000 ==> meter.Ingress? && !byteMode)
            && 0 <= shift <= 17 && word <= 64 * BucketShift.Scaled(unit, shift)
            && (unit < size ==> BucketShift.Scaled(unit, shift) < 2 * size)
  {
    hide Encode, Unit, BucketSizeByRate, BucketShift.Search;
    var word, unit := Encode(rate, tick, byteMode).value, BucketUnit(meter, byteMode);
    var size := BucketSize(meter, byteMode, rate, word);
    Largest(unit);
    WordBelowSize(meter, rate, tick, byteMode);
    HoldsATick(word, size, unit);
  }

  lemma HoldsATick(word: nat, size: nat, unit: nat)
    requires unit == 1024 || unit == 256 || unit == 16
    requires BucketShift.Scaled(unit, 17) == 0x2_0000 * unit
    requires word <= 64 * size && word <= 64 * INTEGER_MAX + 63
    ensures var shift := BucketShift.Search(size, 0, 17, unit);
            && 0 <= shift <= 17 && word <= 64 * BucketShift.Scaled(unit, shift)
            && (unit < size ==> BucketShift.Scaled(unit, shift) < 2 * size)
  {
    hide BucketShift.Scaled, BucketShift.Search;
    if size > 0 { BucketShift.BucketFits(size, 17, unit); } else { BucketShift.ZeroGetsOne(17, unit, 17); }
  }

  /**
   The bucket size asked for: half a second and more of an ingress byte rate over 4 Mbit/s and up to 1 Gbit/s (an
   eighth of a second of a smaller one), a second of an ingress packet rate, and elsewhere one token more than a tick
   brings, or 4096 so that a whole packet fits.
   */
  lemma BucketSizes(meter: Meter, byteMode: bool, rate: nat, word: nat)
    ensures var size := BucketSize(meter, byteMode, rate, word);
            && (meter.Ingress? && byteMode ==>
                  && (rate <= 1_024_000 ==> 8 * size >= (if rate <= 4000 then 128 else 512) * rate)
                  && 0x1_0000 <= size <= 65_536_000)
            && (meter.Ingress? && !byteMode ==> size == rate)
            && (!meter.Ingress? ==> size >= 4096 && 64 * size > word && (size > 4096 ==> 64 * (size - 1) <= word))
  {
    assert word == word / 64 * 64 + word % 64;
  }

  /** A larger ingress rate never gets a smaller bucket, and these are the steps. */
  lemma BucketSizeSteps(a: nat, b: nat)
    requires a <= b
    ensures BucketSizeByRate(a) <= BucketSizeByRate(b)
    ensures BucketSizeByRate(0) == BucketSizeByRate(4000) == 0x1_0000
    ensures BucketSizeByRate(4001) == BucketSizeByRate(8000) == 0x8_0000
    ensures BucketSizeByRate(8001) == BucketSizeByRate(16_000) == 1_024_000
    ensures BucketSizeByRate(16_001) == BucketSizeByRate(128_000) == 8_192_000
    ensures BucketSizeByRate(128_001) == BucketSizeByRate(256_000) == 24_576_000
    ensures b > 256_000 ==> BucketSizeByRate(b) == 65_536_000
  {
  }

  /** A tick adds at most as many tokens as the size asked for, or as the largest bucket holds. */
  lemma WordBelowSize(meter: Meter, rate: nat, tick: int, byteMode: bool)
    requires Encode(rate, tick, byteMode).Ok?
    ensures var word := Encode(rate, tick, byteMode).value;
            var size := BucketSize(meter, byteMode, rate, word);
            && word <= 64 * size && word <= 64 * INTEGER_MAX + 63
            && (size > 0x800_0000 ==> meter.Ingress? && !byteMode)
  {
    EncodeAccepts(rate, tick, byteMode);
    var word, unit := Encode(rate, tick, byteMode).value, Unit(tick, byteMode);
    Quotient(64 * rate, unit);
    MulMonotone(word, 1, unit);
    hide Encode, Unit;
    assert word <= 64 * rate;
  }

  /** The largest bucket of each unit: 128 MiB, 32 MiB, or 2 Mi packets. */
  lemma Largest(unit: nat)
    requires unit == 1024 || unit == 256 || unit == 16
    ensures BucketShift.Scaled(unit, 17) == 0x2_0000 * unit
  {
    assert BucketShift.Scaled(1024, 3) == 0x2000 && BucketShift.Scaled(256, 3) == 0x800 && BucketShift.Scaled(16, 3) == 0x80;
    assert BucketShift.Scaled(1024, 6) == 0x1_0000 && BucketShift.Scaled(256, 6) == 0x4000 && BucketShift.Scaled(16, 6) == 0x400;
    assert BucketShift.Scaled(1024, 9) == 0x8_0000 && BucketShift.Scaled(256, 9) == 0x2_0000 && BucketShift.Scaled(16, 9) == 0x2000;
    assert BucketShift.Scaled(1024, 12) == 0x40_0000 && BucketShift.Scaled(256, 12) == 0x10_0000 && BucketShift.Scaled(16, 12) == 0x1_0000;
    assert BucketShift.Scaled(1024, 15) == 0x200_0000 && BucketShift.Scaled(256, 15) == 0x80_0000 && BucketShift.Scaled(16, 15) == 0x8_0000;
  }
}
