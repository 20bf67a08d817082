/**
 Upstream transmit scheduling of one QDMA (arht_qdma.c 295-394 and 396-488): per channel a mode, eight queue
 weights, and a bitmap of closed queues that is kept in shadow words because the register cannot be read.
 A weight of 0 is written as weight 1 on a closed queue.
 */
module TxQos {
  import opened Wrappers
  import opened Digits

  const CHANNELS: nat := 32 // CONFIG_QDMA_CHANNEL
  const QUEUES: nat := 8 // CONFIG_QDMA_QUEUE
  const TYPES: nat := 8 // QDMA_TXQOS_TYPE_NUMS
  const WORDS: nat := 8 // TXQ_DIS_CFG_REG_NUM

  datatype Errno = EINVAL | ETIME | EFAULT

  /**
   How the weight register answers the eight commands of one call: it acknowledges the first `acks`, and takes
   `late` to say whether the first one it does not acknowledge in time took effect all the same.
   */
  datatype Acks = Acks(acks: nat, late: bool)

  /** How many queues, from 0 up, are weighted; the others have strict priority. */
  function WeightNum(qosType: nat): (n: nat)
    requires qosType < TYPES
    ensures n <= QUEUES
  {
    if qosType == 0 then 8 else if qosType == 1 then 0 else 9 - qosType
  }

  /** The shadow words, the channel mode words, and the weight table behind QDMA_CSR_TXWRR_WEIGHT_CFG. */
  datatype Qos = Qos(dis: seq<nat>, mode: seq<nat>, weight: seq<nat>)

  predicate Shaped(s: Qos) { |s.dis| == WORDS && |s.mode| == CHANNELS / 8 && |s.weight| == CHANNELS * QUEUES }

  // ---------------------------------------------------------------- closed queues

  /** TXQ_DIS_CHANNEL_QUEUE_OFFSET: the bit of a queue in its channel's word. */
  function BitOf(channel: nat, queue: nat): nat { queue + channel % 4 * 8 }

  predicate IsClosed(s: Qos, channel: nat, queue: nat)
    requires Shaped(s) && channel < CHANNELS && queue < QUEUES
  {
    Digit(s.dis[channel / 4], BitOf(channel, queue), 2) == 1
  }

  /** qdmaSetQueueClose_sw and qdmaSetQueueOpen_sw */
  function SetClosed(s: Qos, channel: nat, queue: nat, closed: bool): (s': Qos)
    requires Shaped(s) && channel < CHANNELS && queue < QUEUES
    ensures Shaped(s') && s'.mode == s.mode && s'.weight == s.weight
  {
    s.(dis := s.dis[channel / 4 := SetDigit(s.dis[channel / 4], BitOf(channel, queue), 2, if closed then 1 else 0)])
  }

  /** The (channel, queue) pairs that are closed. */
  ghost function Closed(s: Qos): set<(nat, nat)>
    requires Shaped(s)
  {
    set c: nat, q: nat | c < CHANNELS && q < QUEUES && IsClosed(s, c, q) :: (c, q)
  }

  lemma ClosedAfter(s: Qos, channel: nat, queue: nat, closed: bool, c: nat, q: nat)
    requires Shaped(s) && channel < CHANNELS && queue < QUEUES && c < CHANNELS && q < QUEUES
    ensures IsClosed(SetClosed(s, channel, queue, closed), c, q)
            <==> if c == channel && q == queue then closed else IsClosed(s, c, q)
  {
    if c / 4 == channel / 4 {
      DigitOfSet(s.dis[c / 4], BitOf(channel, queue), 2, if closed then 1 else 0, BitOf(c, q));
      assert BitOf(c, q) == BitOf(channel, queue) ==> c == channel && q == queue;
    }
  }

  /** On the set of closed queues, closing is insertion and opening is removal. */
  lemma CloseInsertsOpenRemoves(s: Qos, channel: nat, queue: nat)
    requires Shaped(s) && channel < CHANNELS && queue < QUEUES
    ensures Closed(SetClosed(s, channel, queue, true)) == Closed(s) + {(channel, queue)}
    ensures Closed(SetClosed(s, channel, queue, false)) == Closed(s) - {(channel, queue)}
  {
    hide IsClosed, SetClosed;
    forall c: nat, q: nat | c < CHANNELS && q < QUEUES
      ensures IsClosed(SetClosed(s, channel, queue, true), c, q) <==> (c == channel && q == queue) || IsClosed(s, c, q)
      ensures IsClosed(SetClosed(s, channel, queue, false), c, q) <==> !(c == channel && q == queue) && IsClosed(s, c, q)
    {
      ClosedAfter(s, channel, queue, true, c, q);
      ClosedAfter(s, channel, queue, false, c, q);
    }
  }

  /** Queue q of channel c is bit q of byte c mod 4 of word c / 4, and closing changes no other bit. */
  lemma ClosedIsBit(s: Qos, channel: nat, queue: nat, closed: bool, k: nat)
    requires Shaped(s) && channel < 32 && queue < 8
    ensures IsClosed(s, channel, queue) <==> s.dis[channel / 4] / Power(2, channel % 4 * 8 + queue) % 2 == 1
    ensures var s' := SetClosed(s, channel, queue, closed);
            && (forall i :: 0 <= i < 8 && i != channel / 4 ==> s'.dis[i] == s.dis[i])
            && s'.dis[channel / 4] / Power(2, k) % 2
               == if k == channel % 4 * 8 + queue then (if closed then 1 else 0) else s.dis[channel / 4] / Power(2, k) % 2
  {
    var w, bit := s.dis[channel / 4], channel % 4 * 8 + queue;
    DigitIsField(w, bit, 2);
    DigitIsField(w, k, 2);
    DigitIsField(SetDigit(w, bit, 2, if closed then 1 else 0), k, 2);
    DigitOfSet(w, bit, 2, if closed then 1 else 0, k);
    hide Digit, SetDigit;
  }

  // ---------------------------------------------------------------- setting

  /** What the first loop decides for a queue. */
  predicate Closes(qosType: nat, weight: nat, queue: nat)
    requires qosType < TYPES
  {
    queue < WeightNum(qosType) && weight == 0
  }

  /**
   Mode 0 is weighted round robin on all eight queues, mode 1 strict priority on all, and mode m from 2 to 7 weights
   the lowest 9 - m queues: 7, 6, 5, 4, 3 and 2 of them.
   */
  lemma WeightedQueues(qosType: nat, weight: nat, queue: nat)
    requires qosType < 8 && queue < 8
    ensures Closes(qosType, weight, queue) <==>
            weight == 0 && (qosType == 0 || (qosType >= 2 && queue + qosType < 9))
  {
  }

  /** The first loop, for the queues below n. */
  function CloseBelow(s: Qos, channel: nat, qosType: nat, w: seq<nat>, n: nat): (s': Qos)
    requires Shaped(s) && channel < CHANNELS && qosType < TYPES && |w| == QUEUES && n <= QUEUES
    ensures Shaped(s') && s'.mode == s.mode && s'.weight == s.weight
  {
    if n == 0 then s
    else SetClosed(CloseBelow(s, channel, qosType, w, n - 1), channel, n - 1, Closes(qosType, w[n - 1], n - 1))
  }

  /** The second loop: no weight of 0 is written. */
  function AtLeastOne(w: seq<nat>): (r: seq<nat>)
    ensures |r| == |w| && forall i :: 0 <= i < |w| ==> r[i] == if w[i] == 0 then 1 else w[i]
  {
    seq(|w|, i requires 0 <= i < |w| => if w[i] == 0 then 1 else w[i])
  }

  /** The weight writes of qdmaSetTxQosSchedulerUpstream below n; the register field is 8 bits wide. */
  function WeighBelow(s: Qos, channel: nat, w: seq<nat>, n: nat): (s': Qos)
    requires Shaped(s) && channel < CHANNELS && |w| == QUEUES && n <= QUEUES
    ensures Shaped(s') && s'.dis == s.dis && s'.mode == s.mode
  {
    if n == 0 then s
    else
      var s1 := WeighBelow(s, channel, w, n - 1);
      s1.(weight := s1.weight[channel * QUEUES + n - 1 := w[n - 1] % 256])
  }

  /** qdmaSetPerChnlQosMode: three bits of the channel's nibble. */
  function SetMode(s: Qos, channel: nat, mode: nat): (s': Qos)
    requires Shaped(s) && channel < CHANNELS && mode < TYPES
    ensures Shaped(s') && s'.dis == s.dis && s'.weight == s.weight
  {
    var nibble := Digit(s.mode[channel / 8], channel % 8, 16);
    s.(mode := s.mode[channel / 8 := SetDigit(s.mode[channel / 8], channel % 8, 16, nibble / 8 * 8 + mode)])
  }

  function GetMode(s: Qos, channel: nat): nat
    requires Shaped(s) && channel < CHANNELS
  {
    Digit(s.mode[channel / 8], channel % 8, 16) % 8
  }

  /** qdmaSetTxQosSchedulerUpstream: a command that is not acknowledged ends it, before the mode is written. */
  function Schedule(s: Qos, channel: nat, qosType: nat, w: seq<nat>, a: Acks): (r: (Qos, Option<Errno>))
    requires Shaped(s) && channel < CHANNELS && qosType < TYPES && |w| == QUEUES
    ensures Shaped(r.0) && r.0.dis == s.dis
  {
    if a.acks >= QUEUES then (SetMode(WeighBelow(s, channel, w, QUEUES), channel, qosType), None)
    else (WeighBelow(s, channel, w, if a.late then a.acks + 1 else a.acks), Some(ETIME))
  }

  /** qdma_set_tx_qos_upstream; the second result is the caller's weights, which it changes. */
  function Set(s: Qos, channel: nat, qosType: nat, w: seq<nat>, a: Acks): (Qos, seq<nat>, Option<Errno>)
    requires Shaped(s) && |w| == QUEUES
  {
    if channel >= CHANNELS || qosType >= TYPES then (s, w, Some(EINVAL))
    else
      var (s', error) := Schedule(CloseBelow(s, channel, qosType, w, QUEUES), channel, qosType, AtLeastOne(w), a);
      (s', AtLeastOne(w), error)
  }

  /** The weight reported for a queue. */
  function Reported(s: Qos, channel: nat, queue: nat): nat
    requires Shaped(s) && channel < CHANNELS && queue < QUEUES
  {
    var w := s.weight[channel * QUEUES + queue];
    if w == 1 && IsClosed(s, channel, queue) then 0 else w
  }

  /** qdma_get_tx_qos_upstream */
  function Get(s: Qos, channel: nat, a: Acks): Result<(nat, seq<nat>), Errno>
    requires Shaped(s)
  {
    if channel >= CHANNELS then Err(EINVAL)
    else if a.acks < QUEUES then Err(EFAULT)
    else Ok((GetMode(s, channel), seq(QUEUES, i requires 0 <= i < QUEUES => Reported(s, channel, i))))
  }

  // ---------------------------------------------------------------- set, then get

  lemma {:induction false} ClosedBelow(s: Qos, channel: nat, qosType: nat, w: seq<nat>, n: nat, c: nat, q: nat)
    requires Shaped(s) && channel < CHANNELS && qosType < TYPES && |w| == QUEUES && n <= QUEUES
    requires c < CHANNELS && q < QUEUES
    ensures IsClosed(CloseBelow(s, channel, qosType, w, n), c, q)
            <==> if c == channel && q < n then Closes(qosType, w[q], q) else IsClosed(s, c, q)
  {
    hide IsClosed, SetClosed;
    if n > 0 {
      ClosedBelow(s, channel, qosType, w, n - 1, c, q);
      ClosedAfter(CloseBelow(s, channel, qosType, w, n - 1), channel, n - 1, Closes(qosType, w[n - 1], n - 1), c, q);
    }
  }

  lemma {:induction false} WeighedBelow(s: Qos, channel: nat, w: seq<nat>, n: nat, c: nat, q: nat)
    requires Shaped(s) && channel < CHANNELS && |w| == QUEUES && n <= QUEUES && c < CHANNELS && q < QUEUES
    ensures WeighBelow(s, channel, w, n).weight[c * QUEUES + q]
            == if c == channel && q < n then w[q] % 256 else s.weight[c * QUEUES + q]
  {
    if n > 0 { WeighedBelow(s, channel, w, n - 1, c, q); }
  }

  lemma ModeAfter(s: Qos, channel: nat, mode: nat, c: nat)
    requires Shaped(s) && channel < CHANNELS && mode < TYPES && c < CHANNELS
    ensures GetMode(SetMode(s, channel, mode), c) == if c == channel then mode else GetMode(s, c)
  {
    var word := s.mode[channel / 8];
    var v := Digit(word, channel % 8, 16) / 8 * 8 + mode;
    hide Digit, SetDigit;
    if c / 8 == channel / 8 { DigitOfSet(word, channel % 8, 16, v, c % 8); }
  }

  lemma NibbleAfter(w: nat, c: nat, mode: nat, k: nat)
    requires mode < 8
    ensures var was, now := Digit(w, k, 16), Digit(SetDigit(w, c, 16, Digit(w, c, 16) / 8 * 8 + mode), k, 16);
            now == if k == c then (if was >= 8 then 8 + mode else mode) else was
  {
    DigitOfSet(w, c, 16, Digit(w, c, 16) / 8 * 8 + mode, k);
    hide Digit, SetDigit;
  }

  /** The mode of channel c is the low three bits of nibble c mod 8 of word c / 8; setting it changes no other bit. */
  lemma ModeIsField(s: Qos, channel: nat, mode: nat, k: nat)
    requires Shaped(s) && channel < 32 && mode < 8
    ensures GetMode(s, channel) == s.mode[channel / 8] / Power(16, channel % 8) % 16 % 8
    ensures var s' := SetMode(s, channel, mode);
            var was, now := s.mode[channel / 8] / Power(16, k) % 16, s'.mode[channel / 8] / Power(16, k) % 16;
            && (forall i :: 0 <= i < 4 && i != channel / 8 ==> s'.mode[i] == s.mode[i])
            && now == if k == channel % 8 then (if was >= 8 then 8 + mode else mode) else was
  {
    hide Digit, SetDigit, Power;
    NibbleAfter(s.mode[channel / 8], channel % 8, mode, k);
    DigitIsField(s.mode[channel / 8], channel % 8, 16);
    DigitIsField(s.mode[channel / 8], k, 16);
    DigitIsField(SetMode(s, channel, mode).mode[channel / 8], k, 16);
  }

  /** How many of a call's weights reach the table. */
  function Written(a: Acks): nat { if a.acks >= QUEUES then QUEUES else if a.late then a.acks + 1 else a.acks }

  /** A queue after a set: what is read, and whether it is closed; the mode is written only after every weight. */
  lemma QueueAfterSet(s: Qos, channel: nat, qosType: nat, w: seq<nat>, a: Acks, c: nat, q: nat)
    requires Shaped(s) && |w| == QUEUES && channel < CHANNELS && qosType < TYPES && c < CHANNELS && q < QUEUES
    ensures var (s', _, error) := Set(s, channel, qosType, w, a);
            && Shaped(s') && error == (if a.acks >= QUEUES then None else Some(ETIME))
            && (IsClosed(s', c, q) <==>
                  if c == channel then w[q] == 0 && (qosType == 0 || (qosType >= 2 && q + qosType < 9)) else IsClosed(s, c, q))
            && GetMode(s', c) == (if c == channel && error.None? then qosType else GetMode(s, c))
            && s'.weight[c * QUEUES + q]
               == (if c != channel || q >= Written(a) then s.weight[c * QUEUES + q]
                   else if w[q] == 0 then 1 else w[q] % 256)
  {
    var s1 := CloseBelow(s, channel, qosType, w, QUEUES);
    var s2 := WeighBelow(s1, channel, AtLeastOne(w), Written(a));
    ClosedBelow(s, channel, qosType, w, QUEUES, c, q);
    WeighedBelow(s1, channel, AtLeastOne(w), Written(a), c, q);
    ModeAfter(s2, channel, qosType, c);
    WeightedQueues(qosType, w[q], q);
    hide CloseBelow, WeighBelow, GetMode, Closes;
  }

  /**
   Reading back a channel that was set without a timeout gives its mode; its weights too, of a weighted queue, and
   at least 1 of a strict-priority queue, exactly for the weights that fit the 8-bit field.
   */
  lemma SetThenGet(s: Qos, channel: nat, qosType: nat, w: seq<nat>, a: Acks, b: Acks, q: nat)
    requires Shaped(s) && |w| == QUEUES && channel < CHANNELS && qosType < TYPES && q < QUEUES
    requires a.acks >= QUEUES && b.acks >= QUEUES
    ensures var s' := Set(s, channel, qosType, w, a).0;
            && Shaped(s') && Get(s', channel, b).Ok? && Get(s', channel, b).value.0 == qosType
            && (Get(s', channel, b).value.1[q] ==
                  (if qosType == 0 || (qosType >= 2 && q + qosType < 9) then w[q] else if w[q] == 0 then 1 else w[q])
                <==> w[q] <= 255)
  {
    QueueAfterSet(s, channel, qosType, w, a, channel, q);
    hide Set, IsClosed, GetMode;
  }

  /**
   A channel or mode out of range is refused with nothing changed; else the caller's zeros come back as ones. A get is
   refused in its own way.
   */
  lemma SetReturns(s: Qos, channel: nat, qosType: nat, w: seq<nat>, a: Acks)
    requires Shaped(s) && |w| == 8
    ensures var (s', w', error) := Set(s, channel, qosType, w, a);
            if channel >= 32 || qosType >= 8 then s' == s && w' == w && error == Some(EINVAL)
            else
              && |w'| == 8 && (forall i :: 0 <= i < 8 ==> w'[i] == if w[i] == 0 then 1 else w[i])
              && (a.acks >= 8 ==> error == None) && (a.acks < 8 ==> error == Some(ETIME))
    ensures channel >= 32 ==> Get(s, channel, a) == Err(EINVAL)
    ensures channel < 32 && a.acks < 8 ==> Get(s, channel, a) == Err(EFAULT)
  {
  }

  /** A queue closed or opened by itself: what is read changes for that queue only, and only when its weight is 1. */
  lemma ReadAfterToggle(s: Qos, channel: nat, queue: nat, closed: bool, b: Acks, c: nat, q: nat)
    requires Shaped(s) && channel < 32 && queue < 8 && c < 32 && q < 8 && b.acks >= 8
    ensures var before, after := Get(s, c, b), Get(SetClosed(s, channel, queue, closed), c, b);
            && before.Ok? && after.Ok? && after.value.0 == before.value.0
            && after.value.1[q] == (if c == channel && q == queue && s.weight[c * 8 + q] == 1 then (if closed then 0 else 1)
                                    else before.value.1[q])
            && (s.weight[c * 8 + q] != 1 ==> after.value.1[q] == s.weight[c * 8 + q])
  {
    ClosedAfter(s, channel, queue, closed, c, q);
    hide IsClosed, SetClosed;
  }

  /** A weight of 256 is read back as 0, though the queue is open. */
  lemma Weight256ReadsZero(s: Qos, a: Acks, b: Acks)
    requires Shaped(s) && a.acks >= QUEUES && b.acks >= QUEUES
    ensures var s' := Set(s, 0, 0, [256, 256, 256, 256, 256, 256, 256, 256], a).0;
            Shaped(s') && Get(s', 0, b) == Ok((0, [0, 0, 0, 0, 0, 0, 0, 0])) && !IsClosed(s', 0, 0)
  {
    var w := [256, 256, 256, 256, 256, 256, 256, 256];
    var s' := Set(s, 0, 0, w, a).0;
    forall q: nat | q < QUEUES
      ensures Shaped(s') && GetMode(s', 0) == 0 && Reported(s', 0, q) == 0 && !IsClosed(s', 0, q)
    {
      QueueAfterSet(s, 0, 0, w, a, 0, q);
      hide Set, IsClosed, GetMode;
    }
    hide Set, IsClosed, GetMode, Reported;
    assert GetMode(s', 0) == 0 && Reported(s', 0, 0) == 0;
    assert Get(s', 0, b).value.1 == [0, 0, 0, 0, 0, 0, 0, 0];
  }

  /** Setting one channel, timeout or not, changes nothing that is read, or closed, on another. */
  lemma SetKeepsOthers(s: Qos, channel: nat, qosType: nat, w: seq<nat>, a: Acks, b: Acks, c: nat)
    requires Shaped(s) && |w| == QUEUES && c < CHANNELS && c != channel
    ensures var s' := Set(s, channel, qosType, w, a).0;
            && Shaped(s') && Get(s', c, b) == Get(s, c, b)
            && (forall q: nat :: q < QUEUES ==> ((c, q) in Closed(s') <==> (c, q) in Closed(s)))
  {
    if channel < CHANNELS && qosType < TYPES {
      var s' := Set(s, channel, qosType, w, a).0;
      QueueAfterSet(s, channel, qosType, w, a, c, 0);
      forall q: nat | q < QUEUES
        ensures Reported(s', c, q) == Reported(s, c, q) && ((c, q) in Closed(s') <==> (c, q) in Closed(s))
      {
        QueueAfterSet(s, channel, qosType, w, a, c, q);
        hide Set, IsClosed;
      }
      hide Set, Reported, GetMode;
      assert b.acks >= QUEUES ==> Get(s', c, b).value.1 == Get(s, c, b).value.1;
    }
  }

  // ---------------------------------------------------------------- the driver's variables

  class Qdma {
    const dis: array<nat> // TXQ_DIS_CFG_VALUE
    const disReg: array<nat> // the write-only registers it shadows
    const mode: array<nat>
    const weight: array<nat>

    ghost predicate Valid()
      reads this, dis, disReg, mode, weight
    {
      && dis != disReg && dis != mode && dis != weight && disReg != mode && disReg != weight && mode != weight
      && Shaped(State()) && disReg[..] == dis[..]
    }

    ghost function State(): Qos
      reads this, dis, mode, weight
    {
      Qos(dis[..], mode[..], weight[..])
    }

    constructor ()
      ensures Valid() && fresh(dis) && fresh(disReg) && fresh(mode) && fresh(weight)
      ensures Closed(State()) == {}
    {
      dis := new nat[WORDS](_ => 0);
      disReg := new nat[WORDS](_ => 0);
      mode := new nat[CHANNELS / 8](_ => 0);
      weight := new nat[CHANNELS * QUEUES](_ => 0);
      new;
      assert disReg[..] == dis[..];
      forall c: nat, q: nat | c < CHANNELS && q < QUEUES
        ensures !IsClosed(State(), c, q)
      {
        ZeroDigit(BitOf(c, q));
      }
    }

    /** qdmaSetQueueClose_sw and qdmaSetQueueOpen_sw; false for a channel beyond the words. */
    method SetQueue(channel: nat, queue: nat, close: bool) returns (ok: bool)
      requires Valid() && queue < QUEUES
      modifies dis, disReg
      ensures Valid() && ok == (channel < CHANNELS)
      ensures State() == if ok then SetClosed(old(State()), channel, queue, close) else old(State())
    {
      if channel / 4 >= WORDS { return false; }
      dis[channel / 4] := SetDigit(dis[channel / 4], BitOf(channel, queue), 2, if close then 1 else 0);
      disReg[channel / 4] := dis[channel / 4];
      assert dis[..] == old(dis[..])[channel / 4 := dis[channel / 4]];
      return true;
    }

    /** qdma_set_tx_qos_upstream */
    method SetTxQos(channel: nat, qosType: nat, w: array<nat>, a: Acks) returns (error: Option<Errno>)
      requires Valid() && w.Length == QUEUES && w != dis && w != disReg && w != mode && w != weight
      modifies dis, disReg, mode, weight, w
      ensures Valid() && (State(), w[..], error) == Set(old(State()), channel, qosType, old(w[..]), a)
    {
      if channel >= CHANNELS || qosType >= TYPES { return Some(EINVAL); }
      CloseZeros(channel, qosType, w);
      LiftZeros(w);
      hide CloseBelow, Schedule;
      error := SetScheduler(channel, qosType, w, a);
    }

    /** The first loop: open the strict-priority queues, close the weighted ones of weight 0, open the others. */
    method CloseZeros(channel: nat, qosType: nat, w: array<nat>)
      requires Valid() && w.Length == QUEUES && w != dis && w != disReg && channel < CHANNELS && qosType < TYPES
      modifies dis, disReg
      ensures Valid() && State() == CloseBelow(old(State()), channel, qosType, w[..], QUEUES)
    {
      hide SetClosed;
      ghost var s := State();
      for i := 0 to QUEUES
        invariant Valid() && State() == CloseBelow(s, channel, qosType, w[..], i)
      {
        var _ := SetQueue(channel, i, i < WeightNum(qosType) && w[i] == 0);
      }
    }

    /** The second loop, on the caller's weights. */
    static method LiftZeros(w: array<nat>)
      modifies w
      ensures w[..] == AtLeastOne(old(w[..]))
    {
      for i := 0 to w.Length
        invariant forall j :: 0 <= j < w.Length ==> w[j] == if j < i && old(w[j]) == 0 then 1 else old(w[j])
      {
        if w[i] == 0 { w[i] := 1; }
      }
    }

    /** qdmaSetTxQosSchedulerUpstream */
    method SetScheduler(channel: nat, qosType: nat, w: array<nat>, a: Acks) returns (error: Option<Errno>)
      requires Valid() && w.Length == QUEUES && w != mode && w != weight && channel < CHANNELS && qosType < TYPES
      modifies mode, weight
      ensures Valid() && (State(), error) == Schedule(old(State()), channel, qosType, w[..], a)
    {
      hide Digit, SetDigit;
      ghost var s := State();
      for i := 0 to QUEUES
        invariant Valid() && State() == WeighBelow(s, channel, w[..], i) && i <= a.acks
      {
        if i < a.acks || a.late {
          weight[channel * QUEUES + i] := w[i] % 256;
          assert weight[..] == WeighBelow(s, channel, w[..], i).weight[channel * QUEUES + i := w[i] % 256];
        }
        if i == a.acks { return Some(ETIME); }
      }
      var nibble := Digit(mode[channel / 8], channel % 8, 16);
      mode[channel / 8] := SetDigit(mode[channel / 8], channel % 8, 16, nibble / 8 * 8 + qosType);
      assert mode[..] == s.mode[channel / 8 := mode[channel / 8]];
      return None;
    }

    /** qdma_get_tx_qos_upstream */
    method GetTxQos(channel: nat, a: Acks) returns (result: Result<(nat, seq<nat>), Errno>)
      requires Valid()
      ensures result == Get(State(), channel, a)
    {
      if channel >= CHANNELS { return Err(EINVAL); }
      var qosType := Digit(mode[channel / 8], channel % 8, 16) % 8;
      var w := new nat[QUEUES];
      for i := 0 to QUEUES
        invariant i <= a.acks && forall j :: 0 <= j < i ==> w[j] == weight[channel * QUEUES + j]
      {
        if i == a.acks { return Err(EFAULT); }
        w[i] := weight[channel * QUEUES + i];
      }
      for i := 0 to QUEUES
        invariant forall j :: i <= j < QUEUES ==> w[j] == weight[channel * QUEUES + j]
        invariant forall j :: 0 <= j < i ==> w[j] == Reported(State(), channel, j)
      {
        if w[i] == 1 && Digit(dis[channel / 4], BitOf(channel, i), 2) > 0 { w[i] := 0; }
      }
      assert w[..] == Get(State(), channel, a).value.1;
      return Ok((qosType, w[..]));
    }
  }

  lemma {:induction false} ZeroDigit(k: nat)
    ensures Digit(0, k, 2) == 0
  {
    if k > 0 { ZeroDigit(k - 1); }
  }
}
