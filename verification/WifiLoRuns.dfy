/**
 Runs of arht_wifi_lo.c: every interleaving of transmitters that add sessions, timers that end them,
 LOCAL_IN hooks and RX readers under rcu_read_lock, RCU callbacks and the static-key worker. Each atomic access
 outside wifi_lo_lock is one step, and so is each body run with it held: the timer's takes effect where it takes
 lo->dev (line 518), the add's where it clears it (line 867).
 */
module WifiLoRuns {
  import opened Wrappers
  import opened Tally
  import opened WifiLoTable

  /**
   Code of one context between its steps, with the references it carries. inside keeps, for the statements only, which
   readers were within rcu_read_lock when the session ended; no step of the code looks at it.
   */
  datatype Thread =
    | AddHeld(lport: nat, rport: nat, sk: Option<nat>, dst: Option<nat>) // references taken, lock not yet
    | AddDone                                                            // slot live, counter not yet
    | Expired(sk: Option<nat>, dst: Option<nat>, inside: set<nat>)       // slot dead, counter not yet
    | MustSync(sk: Option<nat>, dst: Option<nat>, inside: set<nat>)      // about to schedule_work
    | Dropping(sk: Option<nat>, dst: Option<nat>, inside: set<nat>)      // about to release
    | PuttingDev(dev: nat)                                               // RCU callback about to dev_put
    | Finished

  /** Code inside rcu_read_lock: the LOCAL_IN hook up to its publish, and wifi_lo_prepare_gro. */
  datatype Reader =
    | Entered
    | Seen(slot: nat)               // LOCAL_IN found the session by port
    | Found(slot: nat)              // prepare_gro found it by hash
    | SkLoaded(slot: nat, sk: nat)  // lo->sk read, flag not yet tested
    | Touching(slot: nat, sk: nat)  // about to write sk->sk_mark
    | Marked(slot: nat)
    | Loaded(slot: nat, dev: nat)   // lo->dev read, not yet held
    | Holding(held: Option<nat>)
    | Outside(dev: nat)
    | Gone

  predicate Active(r: Reader) { !r.Outside? && !r.Gone? }

  function SlotOf(r: Reader): Option<nat> {
    if r.Seen? || r.Found? || r.SkLoaded? || r.Touching? || r.Marked? || r.Loaded? then Some(r.slot) else None
  }

  datatype Worker = Idle | Started | ReadCount(want: bool) | ReadBoth(want: bool, have: bool)

  /**
   queued[i] is slot i's rcu_head: when queued, the readers that were inside rcu_read_lock at call_rcu.
   leaked lists the devices whose reference was overwritten when their slot was taken again, late counts
   the publishes onto a slot no longer live, staleMark records a mark written to a socket without a reference.
   fault records what must never happen: the WARN branch, a release without a reference, a hold on a
   device nobody holds, a list node or rcu_head queued twice, or another reference overwritten.
   */
  datatype Sys = Sys(tbl: Table, queued: seq<Option<set<nat>>>, readers: seq<Reader>, threads: seq<Thread>,
                     socks: multiset<nat>, dsts: multiset<nat>, devs: multiset<nat>,
                     active: int, key: bool, syncPending: bool, worker: Worker,
                     leaked: seq<nat>, late: nat, staleMark: bool, fault: bool)

  datatype Step =
    | AddStart(lport: nat, rport: nat, sk: Option<nat>, dst: Option<nat>)
    | AddLock(t: nat, now: nat)
    | ActiveInc(t: nat)
    | TimerFire(i: nat, now: nat)
    | ActiveDec(t: nat)
    | Schedule(t: nat)
    | DropRefs(t: nat)
    | TxUse(lport: nat, rport: nat)
    | TxTouch(lport: nat, rport: nat, now: nat)
    | LocalLookup(r: nat, lport: nat, rport: nat)
    | LocalPublish(r: nat, dev: nat, bridge: bool, wifiOnly: bool, wifi: bool)
    | HashPublish(i: nat, hash: nat)
    | ReaderEnter
    | ReaderLookup(r: nat, hash: nat)
    | ReaderLoadSk(r: nat)
    | ReaderMissesSk(r: nat) // lo->sk read as cleared by a timer that has not taken lo->dev yet
    | ReaderTestSet(r: nat)
    | ReaderWriteMark(r: nat)
    | ReaderLoad(r: nat)
    | ReaderHold(r: nat)
    | ReaderExit(r: nat)
    | ReaderPut(r: nat)
    | CallbackRun(i: nat)
    | CallbackPut(t: nat)
    | WorkStart
    | WorkReadCount
    | WorkReadKey
    | WorkFlip

  function Init(): Sys {
    Sys(Table(seq(MAX_NUM, _ => FREE_SLOT), seq(BUCKETS, _ => []), seq(BUCKETS, _ => [])),
        seq(MAX_NUM, _ => None), [], [], multiset{}, multiset{}, multiset{}, 0, false, false, Idle,
        [], 0, false, false)
  }

  // ---------------------------------------------------------------- steps

  function ActiveReaders(readers: seq<Reader>): set<nat> {
    set r: nat | r < |readers| && Active(readers[r])
  }

  predicate Shape(s: Sys) {
    && |s.tbl.slots| == MAX_NUM && |s.queued| == MAX_NUM
    && |s.tbl.ports| == BUCKETS && |s.tbl.hashes| == BUCKETS
  }

  function SetThread(s: Sys, t: nat, th: Thread): Sys
    requires t < |s.threads|
  {
    s.(threads := s.threads[t := th])
  }

  function SetReader(s: Sys, r: nat, rd: Reader): (s': Sys)
    requires r < |s.readers|
    ensures s'.socks == s.socks && s'.late == s.late && s'.leaked == s.leaked && s'.staleMark == s.staleMark
  {
    s.(readers := s.readers[r := rd])
  }

  /** A grace period has passed: every reader that was inside at call_rcu has left. */
  predicate GraceOver(readers: seq<Reader>, waited: set<nat>) {
    forall r :: r in waited ==> r < |readers| && !Active(readers[r])
  }

  function Overwriting(leaked: seq<nat>, dev: Option<nat>): seq<nat> {
    if dev.Some? then leaked + [dev.value] else leaked
  }

  function DoAddLock(s: Sys, t: nat, now: nat): (s': Sys)
    requires Shape(s) && t < |s.threads| && s.threads[t].AddHeld?
    ensures s'.late == s.late && s.leaked <= s'.leaked && s'.devs == s.devs
    ensures s'.readers == s.readers && s'.socks == s.socks && s'.staleMark == s.staleMark
  {
    var th := s.threads[t];
    match FreeFrom(s.tbl.slots, 0)
    case None => SetThread(s, t, Dropping(th.sk, th.dst, {}))
    case Some(i) =>
      var prev := s.tbl.slots[i];
      SetThread(s, t, AddDone).(
        tbl := Install(s.tbl, i, th.lport, th.rport, th.sk, th.dst, now),
        leaked := Overwriting(s.leaked, prev.dev),
        fault := s.fault || Linked(s.tbl.ports, i) || Linked(s.tbl.hashes, i) || s.queued[i].Some?
                 || prev.sk.Some? || prev.txDst.Some? || prev.pending.Some?)
  }

  function DoExpire(s: Sys, i: nat): (s': Sys)
    requires Shape(s) && i < MAX_NUM
    ensures s'.late == s.late && s'.leaked == s.leaked
    ensures s'.readers == s.readers && s'.socks == s.socks && s'.staleMark == s.staleMark
  {
    var prev := s.tbl.slots[i];
    var s' := s.(tbl := Expire(s.tbl, i), threads := s.threads + [Expired(prev.sk, prev.txDst, ActiveReaders(s.readers))]);
    match Freeing(prev).1
    case NoDevice => s'
    case Queued => s'.(queued := s.queued[i := Some(ActiveReaders(s.readers))], fault := s.fault || s.queued[i].Some?)
    case PutInline(d) => s'.(devs := Drop(s.devs, Some(d)), fault := true)
  }

  function Next(s: Sys, step: Step): Option<Sys>
    requires Shape(s)
  {
    match step
    case AddStart(l, r, sk, dst) =>
      Some(s.(threads := s.threads + [AddHeld(l, r, sk, dst)], socks := Take(s.socks, sk), dsts := Take(s.dsts, dst)))
    case AddLock(t, now) =>
      if t < |s.threads| && s.threads[t].AddHeld? then Some(DoAddLock(s, t, now)) else None
    case ActiveInc(t) =>
      if t < |s.threads| && s.threads[t].AddDone? then
        Some(SetThread(s, t, if s.active + 1 == 1 then MustSync(None, None, {}) else Finished).(active := s.active + 1))
      else None
    case TimerFire(i, now) =>
      if i < MAX_NUM && s.tbl.slots[i].valid then
        if now < s.tbl.slots[i].lastTx + EXPIRE_TIME then Some(s) else Some(DoExpire(s, i))
      else None
    case ActiveDec(t) =>
      if t < |s.threads| && s.threads[t].Expired? then
        var th := s.threads[t];
        Some(SetThread(s, t, if s.active - 1 == 0 then MustSync(th.sk, th.dst, th.inside) else Dropping(th.sk, th.dst, th.inside))
             .(active := s.active - 1))
      else None
    case Schedule(t) =>
      if t < |s.threads| && s.threads[t].MustSync? then
        Some(SetThread(s, t, Dropping(s.threads[t].sk, s.threads[t].dst, s.threads[t].inside)).(syncPending := true))
      else None
    case DropRefs(t) =>
      if t < |s.threads| && s.threads[t].Dropping? then
        var th := s.threads[t];
        Some(SetThread(s, t, Finished).(
             socks := Drop(s.socks, th.sk), dsts := Drop(s.dsts, th.dst),
             fault := s.fault || !CanDrop(s.socks, th.sk) || !CanDrop(s.dsts, th.dst)))
      else None
    case TxUse(l, r) =>
      var found := PortLookup(s.tbl, l, r);
      if found.Some? && s.tbl.slots[found.value].txDst.Some? then
        var dst := s.tbl.slots[found.value].txDst;
        Some(s.(threads := s.threads + [Dropping(None, dst, {})], dsts := Take(s.dsts, dst),
                fault := s.fault || !CanDrop(s.dsts, dst)))
      else Some(s)
    case TxTouch(l, r, now) =>
      var found := PortLookup(s.tbl, l, r);
      if found.Some? && (now < s.tbl.slots[found.value].lastTx
                         || now - s.tbl.slots[found.value].lastTx >= LAST_TX_MIN_INTERVAL) then
        var i := found.value;
        Some(s.(tbl := s.tbl.(slots := s.tbl.slots[i := s.tbl.slots[i].(lastTx := now)])))
      else Some(s)
    case LocalLookup(r, lport, rport) =>
      if r < |s.readers| && s.readers[r].Entered? then
        var found := PortLookup(s.tbl, lport, rport);
        Some(SetReader(s, r, if found.Some? then Seen(found.value) else Gone))
      else None
    case LocalPublish(r, dev, bridge, wifiOnly, wifi) =>
      if r < |s.readers| && s.readers[r].Seen? && s.readers[r].slot < MAX_NUM then
        var i := s.readers[r].slot;
        var s' := SetReader(s, r, Holding(None));
        if CanPublish(s.tbl.slots[i], bridge, wifiOnly, wifi) then
          Some(s'.(tbl := PublishDev(s.tbl, i, dev, wifi), devs := Take(s.devs, Some(dev)),
                   late := if s.tbl.slots[i].valid then s.late else s.late + 1))
        else Some(s')
      else None
    case HashPublish(i, hash) =>
      if i < MAX_NUM && hash != 0 then
        Some(s.(tbl := Stamp(s.tbl, i, hash),
                fault := s.fault || (CanStamp(s.tbl.slots[i]) && Linked(s.tbl.hashes, i))))
      else None
    case ReaderEnter => Some(s.(readers := s.readers + [Entered]))
    case ReaderLookup(r, hash) =>
      if r < |s.readers| && s.readers[r].Entered? then
        var found := HashLookup(s.tbl, hash);
        Some(SetReader(s, r, if found.Some? then Found(found.value) else Gone))
      else None
    case ReaderLoadSk(r) =>
      if r < |s.readers| && s.readers[r].Found? && s.readers[r].slot < MAX_NUM then
        var i := s.readers[r].slot;
        var sk := s.tbl.slots[i].sk;
        Some(SetReader(s, r, if sk.Some? then SkLoaded(i, sk.value) else Marked(i)))
      else None
    case ReaderMissesSk(r) =>
      if r < |s.readers| && s.readers[r].Found? then Some(SetReader(s, r, Marked(s.readers[r].slot))) else None
    case ReaderTestSet(r) =>
      if r < |s.readers| && s.readers[r].SkLoaded? && s.readers[r].slot < MAX_NUM then
        var i := s.readers[r].slot;
        if s.tbl.slots[i].skipCopy then Some(SetReader(s, r, Marked(i)))
        else
          Some(SetReader(s, r, Touching(i, s.readers[r].sk)).(
               tbl := s.tbl.(slots := s.tbl.slots[i := s.tbl.slots[i].(skipCopy := true)])))
      else None
    case ReaderWriteMark(r) =>
      if r < |s.readers| && s.readers[r].Touching? then
        Some(SetReader(s, r, Marked(s.readers[r].slot)).(staleMark := s.staleMark || s.readers[r].sk !in s.socks))
      else None
    case ReaderLoad(r) =>
      if r < |s.readers| && s.readers[r].Marked? && s.readers[r].slot < MAX_NUM then
        var dev := s.tbl.slots[s.readers[r].slot].dev;
        Some(SetReader(s, r, if dev.Some? then Loaded(s.readers[r].slot, dev.value) else Holding(None)))
      else None
    case ReaderHold(r) =>
      if r < |s.readers| && s.readers[r].Loaded? then
        var d := s.readers[r].dev;
        Some(SetReader(s, r, Holding(Some(d))).(devs := Take(s.devs, Some(d)), fault := s.fault || d !in s.devs))
      else None
    case ReaderExit(r) =>
      if r < |s.readers| && s.readers[r].Holding? then
        Some(SetReader(s, r, if s.readers[r].held.Some? then Outside(s.readers[r].held.value) else Gone))
      else None
    case ReaderPut(r) =>
      if r < |s.readers| && s.readers[r].Outside? then
        var d := s.readers[r].dev;
        Some(SetReader(s, r, Gone).(devs := Drop(s.devs, Some(d)), fault := s.fault || d !in s.devs))
      else None
    case CallbackRun(i) =>
      if i < MAX_NUM && s.queued[i].Some? && GraceOver(s.readers, s.queued[i].value) then
        var prev := s.tbl.slots[i];
        Some(s.(tbl := s.tbl.(slots := s.tbl.slots[i := prev.(pending := None, releasing := false)]),
                queued := s.queued[i := None],
                threads := s.threads + [if prev.pending.Some? then PuttingDev(prev.pending.value) else Finished]))
      else None
    case CallbackPut(t) =>
      if t < |s.threads| && s.threads[t].PuttingDev? then
        var d := s.threads[t].dev;
        Some(SetThread(s, t, Finished).(devs := Drop(s.devs, Some(d)), fault := s.fault || d !in s.devs))
      else None
    case WorkStart =>
      if s.syncPending && s.worker.Idle? then Some(s.(syncPending := false, worker := Started)) else None
    case WorkReadCount =>
      if s.worker.Started? then Some(s.(worker := ReadCount(s.active > 0))) else None
    case WorkReadKey =>
      if s.worker.ReadCount? then Some(s.(worker := ReadBoth(s.worker.want, s.key))) else None
    case WorkFlip =>
      if s.worker.ReadBoth? then
        var want, have := s.worker.want, s.worker.have;
        Some(s.(worker := Idle, key := if want && !have then true else if !want && have then false else s.key))
      else None
  }

  // ---------------------------------------------------------------- invariant

  function SlotSk(s: Slot): Option<nat> { s.sk }
  function SlotDst(s: Slot): Option<nat> { s.txDst }
  function SlotDev(s: Slot): Option<nat> { s.dev }
  function SlotPending(s: Slot): Option<nat> { s.pending }
  function ThreadSk(t: Thread): Option<nat> {
    if t.AddHeld? || t.Expired? || t.MustSync? || t.Dropping? then t.sk else None
  }
  function ThreadDst(t: Thread): Option<nat> {
    if t.AddHeld? || t.Expired? || t.MustSync? || t.Dropping? then t.dst else None
  }
  function ThreadDev(t: Thread): Option<nat> { if t.PuttingDev? then Some(t.dev) else None }
  function ReaderDev(r: Reader): Option<nat> {
    if r.Holding? then r.held else if r.Outside? then Some(r.dev) else None
  }
  function Itself(d: nat): Option<nat> { Some(d) }
  function IsLive(s: Slot): bool { s.valid }
  /** Published on after the session ended. */
  function IsStranded(s: Slot): bool { !s.valid && s.dev.Some? }
  function IsAddDone(t: Thread): bool { t.AddDone? }
  function IsExpired(t: Thread): bool { t.Expired? }
  function IsMustSync(t: Thread): bool { t.MustSync? }

  /** Flags, device and callback of one slot. */
  predicate SlotOk(s: Slot, queued: bool) {
    && (s.releasing <==> queued) && (s.pending.Some? <==> queued)
    && (s.valid ==> !s.releasing)
    && (!s.valid ==> s.sk.None? && s.txDst.None?)
  }

  ghost predicate SlotsOk(slots: seq<Slot>, queued: seq<Option<set<nat>>>) {
    && |slots| == MAX_NUM && |queued| == MAX_NUM
    && forall i :: 0 <= i < MAX_NUM ==> SlotOk(slots[i], queued[i].Some?)
  }

  /** The module's own reference on d, seen from reader r that loaded it from a slot. */
  predicate StillOwned(s: Slot, queued: Option<set<nat>>, leaked: seq<nat>, d: nat, r: nat) {
    s.dev == Some(d) || (s.pending == Some(d) && queued.Some? && r in queued.value) || d in leaked
  }

  ghost predicate ReadersOk(readers: seq<Reader>, slots: seq<Slot>, queued: seq<Option<set<nat>>>, leaked: seq<nat>)
    requires |slots| == MAX_NUM && |queued| == MAX_NUM
  {
    && (forall r :: 0 <= r < |readers| && readers[r].Loaded? ==>
          readers[r].slot < MAX_NUM
          && StillOwned(slots[readers[r].slot], queued[readers[r].slot], leaked, readers[r].dev, r))
    && (forall r :: 0 <= r < |readers| && SlotOf(readers[r]).Some? ==> SlotOf(readers[r]).value < MAX_NUM)
    && (forall i, r :: 0 <= i < MAX_NUM && queued[i].Some? && r in queued[i].value ==> r < |readers|)
  }

  ghost predicate SocksOk(socks: multiset<nat>, slots: seq<Slot>, threads: seq<Thread>) {
    forall v: nat :: socks[v] == Refs(slots, SlotSk, v) + Refs(threads, ThreadSk, v)
  }

  ghost predicate DstsOk(dsts: multiset<nat>, slots: seq<Slot>, threads: seq<Thread>) {
    forall v: nat :: dsts[v] == Refs(slots, SlotDst, v) + Refs(threads, ThreadDst, v)
  }

  ghost predicate DevsOk(devs: multiset<nat>, slots: seq<Slot>, threads: seq<Thread>, readers: seq<Reader>,
                         leaked: seq<nat>) {
    forall v: nat :: devs[v] == Refs(slots, SlotDev, v) + Refs(slots, SlotPending, v)
                                + Refs(threads, ThreadDev, v) + Refs(readers, ReaderDev, v) + Refs(leaked, Itself, v)
  }

  /** Each late publish is still in its dead slot or was overwritten there. */
  ghost predicate LateOk(late: nat, slots: seq<Slot>, leaked: seq<nat>) {
    late == Count(slots, IsStranded) + |leaked|
  }

  ghost predicate CountOk(active: int, slots: seq<Slot>, threads: seq<Thread>) {
    active == Count(slots, IsLive) - Count(threads, IsAddDone) + Count(threads, IsExpired)
  }

  ghost predicate SyncDue(syncPending: bool, worker: Worker, threads: seq<Thread>) {
    syncPending || worker.Started? || Count(threads, IsMustSync) > 0
  }

  ghost predicate KeyOk(key: bool, active: int, syncPending: bool, worker: Worker, threads: seq<Thread>) {
    && (worker.ReadBoth? ==> worker.have == key)
    && (SyncDue(syncPending, worker, threads)
        || match worker
           case Idle => key == (active > 0)
           case Started => true
           case ReadCount(want) => want == (active > 0)
           case ReadBoth(want, _) => want == (active > 0))
  }

  ghost predicate Inv(s: Sys) {
    && Shape(s)
    && !s.fault
    && IndexOk(s.tbl)
    && SlotsOk(s.tbl.slots, s.queued)
    && ReadersOk(s.readers, s.tbl.slots, s.queued, s.leaked)
    && SocksOk(s.socks, s.tbl.slots, s.threads)
    && DstsOk(s.dsts, s.tbl.slots, s.threads)
    && DevsOk(s.devs, s.tbl.slots, s.threads, s.readers, s.leaked)
    && LateOk(s.late, s.tbl.slots, s.leaked)
    && CountOk(s.active, s.tbl.slots, s.threads)
    && KeyOk(s.key, s.active, s.syncPending, s.worker, s.threads)
  }

  lemma InitInv()
    ensures Inv(Init())
  {
    forall v: nat
      ensures Refs(Init().tbl.slots, SlotSk, v) == Refs(Init().tbl.slots, SlotDst, v) == 0
      ensures Refs(Init().tbl.slots, SlotDev, v) == Refs(Init().tbl.slots, SlotPending, v) == 0
    {
      RefsNone(Init().tbl.slots, SlotSk, v);
      RefsNone(Init().tbl.slots, SlotDst, v);
      RefsNone(Init().tbl.slots, SlotDev, v);
      RefsNone(Init().tbl.slots, SlotPending, v);
    }
    CountNone(Init().tbl.slots, IsLive);
    CountNone(Init().tbl.slots, IsStranded);
  }

  // ---------------------------------------------------------------- how counts move with one element

  lemma SlotSet(slots: seq<Slot>, i: nat, x: Slot)
    requires i < |slots|
    ensures Count(slots[i := x], IsLive) + (if slots[i].valid then 1 else 0) == Count(slots, IsLive) + if x.valid then 1 else 0
    ensures Count(slots[i := x], IsStranded) + (if IsStranded(slots[i]) then 1 else 0)
            == Count(slots, IsStranded) + if IsStranded(x) then 1 else 0
    ensures forall v: nat {:trigger Refs(slots[i := x], SlotSk, v)} ::
              Refs(slots[i := x], SlotSk, v) + (if slots[i].sk == Some(v) then 1 else 0)
              == Refs(slots, SlotSk, v) + if x.sk == Some(v) then 1 else 0
    ensures forall v: nat {:trigger Refs(slots[i := x], SlotDst, v)} ::
              Refs(slots[i := x], SlotDst, v) + (if slots[i].txDst == Some(v) then 1 else 0)
              == Refs(slots, SlotDst, v) + if x.txDst == Some(v) then 1 else 0
    ensures forall v: nat {:trigger Refs(slots[i := x], SlotDev, v)} ::
              Refs(slots[i := x], SlotDev, v) + (if slots[i].dev == Some(v) then 1 else 0)
              == Refs(slots, SlotDev, v) + if x.dev == Some(v) then 1 else 0
    ensures forall v: nat {:trigger Refs(slots[i := x], SlotPending, v)} ::
              Refs(slots[i := x], SlotPending, v) + (if slots[i].pending == Some(v) then 1 else 0)
              == Refs(slots, SlotPending, v) + if x.pending == Some(v) then 1 else 0
  {
    CountUpdate(slots, i, x, IsLive);
    CountUpdate(slots, i, x, IsStranded);
    RefsUpdateAll(slots, i, x, SlotSk);
    RefsUpdateAll(slots, i, x, SlotDst);
    RefsUpdateAll(slots, i, x, SlotDev);
    RefsUpdateAll(slots, i, x, SlotPending);
  }

  lemma ThreadSet(threads: seq<Thread>, t: nat, x: Thread)
    requires t < |threads|
    ensures Count(threads[t := x], IsAddDone) + (if threads[t].AddDone? then 1 else 0)
            == Count(threads, IsAddDone) + if x.AddDone? then 1 else 0
    ensures Count(threads[t := x], IsExpired) + (if threads[t].Expired? then 1 else 0)
            == Count(threads, IsExpired) + if x.Expired? then 1 else 0
    ensures Count(threads[t := x], IsMustSync) + (if threads[t].MustSync? then 1 else 0)
            == Count(threads, IsMustSync) + if x.MustSync? then 1 else 0
    ensures forall v: nat {:trigger Refs(threads[t := x], ThreadSk, v)} ::
              Refs(threads[t := x], ThreadSk, v) + (if ThreadSk(threads[t]) == Some(v) then 1 else 0)
              == Refs(threads, ThreadSk, v) + if ThreadSk(x) == Some(v) then 1 else 0
    ensures forall v: nat {:trigger Refs(threads[t := x], ThreadDst, v)} ::
              Refs(threads[t := x], ThreadDst, v) + (if ThreadDst(threads[t]) == Some(v) then 1 else 0)
              == Refs(threads, ThreadDst, v) + if ThreadDst(x) == Some(v) then 1 else 0
    ensures forall v: nat {:trigger Refs(threads[t := x], ThreadDev, v)} ::
              Refs(threads[t := x], ThreadDev, v) + (if ThreadDev(threads[t]) == Some(v) then 1 else 0)
              == Refs(threads, ThreadDev, v) + if ThreadDev(x) == Some(v) then 1 else 0
  {
    CountUpdate(threads, t, x, IsAddDone);
    CountUpdate(threads, t, x, IsExpired);
    CountUpdate(threads, t, x, IsMustSync);
    RefsUpdateAll(threads, t, x, ThreadSk);
    RefsUpdateAll(threads, t, x, ThreadDst);
    RefsUpdateAll(threads, t, x, ThreadDev);
  }

  lemma ThreadAdd(threads: seq<Thread>, x: Thread)
    ensures Count(threads + [x], IsAddDone) == Count(threads, IsAddDone) + if x.AddDone? then 1 else 0
    ensures Count(threads + [x], IsExpired) == Count(threads, IsExpired) + if x.Expired? then 1 else 0
    ensures Count(threads + [x], IsMustSync) == Count(threads, IsMustSync) + if x.MustSync? then 1 else 0
    ensures forall v: nat {:trigger Refs(threads + [x], ThreadSk, v)} ::
              Refs(threads + [x], ThreadSk, v) == Refs(threads, ThreadSk, v) + if ThreadSk(x) == Some(v) then 1 else 0
    ensures forall v: nat {:trigger Refs(threads + [x], ThreadDst, v)} ::
              Refs(threads + [x], ThreadDst, v) == Refs(threads, ThreadDst, v) + if ThreadDst(x) == Some(v) then 1 else 0
    ensures forall v: nat {:trigger Refs(threads + [x], ThreadDev, v)} ::
              Refs(threads + [x], ThreadDev, v) == Refs(threads, ThreadDev, v) + if ThreadDev(x) == Some(v) then 1 else 0
  {
    CountAppend(threads, x, IsAddDone);
    CountAppend(threads, x, IsExpired);
    CountAppend(threads, x, IsMustSync);
    RefsAppendAll(threads, x, ThreadSk);
    RefsAppendAll(threads, x, ThreadDst);
    RefsAppendAll(threads, x, ThreadDev);
  }

  lemma ReaderSet(readers: seq<Reader>, r: nat, x: Reader)
    requires r < |readers|
    ensures forall v: nat {:trigger Refs(readers[r := x], ReaderDev, v)} ::
              Refs(readers[r := x], ReaderDev, v) + (if ReaderDev(readers[r]) == Some(v) then 1 else 0)
              == Refs(readers, ReaderDev, v) + if ReaderDev(x) == Some(v) then 1 else 0
  {
    RefsUpdateAll(readers, r, x, ReaderDev);
  }

  // ---------------------------------------------------------------- every step keeps the invariant

  lemma AddStartKeepsInv(s: Sys, l: nat, r: nat, sk: Option<nat>, dst: Option<nat>)
    requires Inv(s)
    ensures Inv(Next(s, AddStart(l, r, sk, dst)).value)
  {
    hide IndexOk, SlotsOk, ReadersOk;
    ThreadAdd(s.threads, AddHeld(l, r, sk, dst));
  }

  /** Installing a session moves the references carried by its thread into the slot. */
  lemma InstallMovesRefs(s: Sys, t: nat, i: nat, x: Slot)
    requires Inv(s) && t < |s.threads| && s.threads[t].AddHeld? && i < MAX_NUM
    requires var y := s.tbl.slots[i]; !y.valid && !y.releasing && y.sk.None? && y.txDst.None?
    requires x.sk == s.threads[t].sk && x.txDst == s.threads[t].dst && x.dev.None?
    requires x.pending == s.tbl.slots[i].pending && x.valid
    ensures SocksOk(s.socks, s.tbl.slots[i := x], s.threads[t := AddDone])
    ensures DstsOk(s.dsts, s.tbl.slots[i := x], s.threads[t := AddDone])
    ensures var leaked := Overwriting(s.leaked, s.tbl.slots[i].dev);
            && DevsOk(s.devs, s.tbl.slots[i := x], s.threads[t := AddDone], s.readers, leaked)
            && LateOk(s.late, s.tbl.slots[i := x], leaked)
    ensures CountOk(s.active, s.tbl.slots[i := x], s.threads[t := AddDone])
    ensures KeyOk(s.key, s.active, s.syncPending, s.worker, s.threads[t := AddDone])
  {
    ThreadSet(s.threads, t, AddDone);
    SlotSet(s.tbl.slots, i, x);
    if s.tbl.slots[i].dev.Some? { RefsAppendAll(s.leaked, s.tbl.slots[i].dev.value, Itself); }
    hide IndexOk, SlotsOk, ReadersOk;
  }

  lemma InstallKeepsSlots(s: Sys, i: nat, x: Slot)
    requires Inv(s) && i < MAX_NUM && Reusable(s.tbl.slots[i])
    requires x.valid && !x.releasing && x.dev.None? && x.pending == s.tbl.slots[i].pending
    ensures SlotsOk(s.tbl.slots[i := x], s.queued)
    ensures ReadersOk(s.readers, s.tbl.slots[i := x], s.queued, Overwriting(s.leaked, s.tbl.slots[i].dev))
    ensures s.queued[i].None? && SlotOk(s.tbl.slots[i], false)
  {
    hide IndexOk, SocksOk, DstsOk, DevsOk, CountOk, LateOk, KeyOk;
    assert SlotOk(s.tbl.slots[i], s.queued[i].Some?);
  }

  lemma AddLockKeepsInv(s: Sys, t: nat, now: nat)
    requires Inv(s) && t < |s.threads| && s.threads[t].AddHeld?
    ensures Inv(DoAddLock(s, t, now))
  {
    var th, free := s.threads[t], FreeFrom(s.tbl.slots, 0);
    hide IndexOk, SlotsOk, ReadersOk, FreeFrom, HashAdd, Linked, SocksOk, DstsOk, DevsOk, CountOk, LateOk, KeyOk;
    if free.None? {
      ThreadStepKeepsRefs(s, t, Dropping(th.sk, th.dst, {}));
      LostRaceKeepsKey(s, t);
    } else {
      var i := free.value;
      var x := FreshSlot(s.tbl.slots[i], th.lport, th.rport, th.sk, th.dst, now);
      InstallKeepsSlots(s, i, x);
      InstallMovesRefs(s, t, i, x);
      InstallKeepsIndex(s.tbl, i, th.lport, th.rport, th.sk, th.dst, now);
    }
  }

  lemma LostRaceKeepsKey(s: Sys, t: nat)
    requires Inv(s) && t < |s.threads| && s.threads[t].AddHeld?
    ensures var threads := s.threads[t := Dropping(s.threads[t].sk, s.threads[t].dst, {})];
            CountOk(s.active, s.tbl.slots, threads) && KeyOk(s.key, s.active, s.syncPending, s.worker, threads)
  {
    hide IndexOk, SlotsOk, ReadersOk, SocksOk, DstsOk, DevsOk;
    var x := Dropping(s.threads[t].sk, s.threads[t].dst, {});
    CountUpdate(s.threads, t, x, IsAddDone);
    CountUpdate(s.threads, t, x, IsExpired);
    CountUpdate(s.threads, t, x, IsMustSync);
  }

  /** A thread that keeps what it carries keeps the ledgers. */
  lemma ThreadStepKeepsRefs(s: Sys, t: nat, x: Thread)
    requires Inv(s) && t < |s.threads|
    requires ThreadSk(x) == ThreadSk(s.threads[t]) && ThreadDst(x) == ThreadDst(s.threads[t])
    requires ThreadDev(x) == ThreadDev(s.threads[t])
    ensures SocksOk(s.socks, s.tbl.slots, s.threads[t := x])
    ensures DstsOk(s.dsts, s.tbl.slots, s.threads[t := x])
    ensures DevsOk(s.devs, s.tbl.slots, s.threads[t := x], s.readers, s.leaked)
  {
    hide IndexOk, SlotsOk, ReadersOk, CountOk, LateOk, KeyOk;
    RefsUpdateAll(s.threads, t, x, ThreadSk);
    RefsUpdateAll(s.threads, t, x, ThreadDst);
    RefsUpdateAll(s.threads, t, x, ThreadDev);
  }

  lemma CounterStepKeepsKey(s: Sys, t: nat, x: Thread, active: int, syncPending: bool)
    requires Inv(s) && t < |s.threads|
    requires var y := s.threads[t];
             || (y.AddDone? && active == s.active + 1 && x == (if active == 1 then MustSync(None, None, {}) else Finished)
                 && syncPending == s.syncPending)
             || (y.Expired? && active == s.active - 1 && syncPending == s.syncPending
                 && x == if active == 0 then MustSync(y.sk, y.dst, y.inside) else Dropping(y.sk, y.dst, y.inside))
             || (y.MustSync? && active == s.active && x == Dropping(y.sk, y.dst, y.inside) && syncPending)
    ensures CountOk(active, s.tbl.slots, s.threads[t := x])
    ensures KeyOk(s.key, active, syncPending, s.worker, s.threads[t := x])
  {
    hide IndexOk, SlotsOk, ReadersOk, SocksOk, DstsOk, DevsOk;
    CountUpdate(s.threads, t, x, IsAddDone);
    CountUpdate(s.threads, t, x, IsExpired);
    CountUpdate(s.threads, t, x, IsMustSync);
  }

  lemma ActiveIncKeepsInv(s: Sys, t: nat)
    requires Inv(s) && t < |s.threads| && s.threads[t].AddDone?
    ensures Inv(Next(s, ActiveInc(t)).value)
  {
    var x := if s.active + 1 == 1 then MustSync(None, None, {}) else Finished;
    hide IndexOk, SlotsOk, ReadersOk, SocksOk, DstsOk, DevsOk, CountOk, LateOk, KeyOk;
    ThreadStepKeepsRefs(s, t, x);
    CounterStepKeepsKey(s, t, x, s.active + 1, s.syncPending);
  }

  lemma ActiveDecKeepsInv(s: Sys, t: nat)
    requires Inv(s) && t < |s.threads| && s.threads[t].Expired?
    ensures Inv(Next(s, ActiveDec(t)).value)
  {
    hide IndexOk, SlotsOk, ReadersOk, SocksOk, DstsOk, DevsOk, CountOk, LateOk, KeyOk;
    var th := s.threads[t];
    var x := if s.active - 1 == 0 then MustSync(th.sk, th.dst, th.inside) else Dropping(th.sk, th.dst, th.inside);
    ThreadStepKeepsRefs(s, t, x);
    CounterStepKeepsKey(s, t, x, s.active - 1, s.syncPending);
  }

  lemma ScheduleKeepsInv(s: Sys, t: nat)
    requires Inv(s) && t < |s.threads| && s.threads[t].MustSync?
    ensures Inv(Next(s, Schedule(t)).value)
  {
    var x := Dropping(s.threads[t].sk, s.threads[t].dst, s.threads[t].inside);
    hide IndexOk, SlotsOk, ReadersOk, SocksOk, DstsOk, DevsOk, CountOk, LateOk, KeyOk;
    ThreadStepKeepsRefs(s, t, x);
    CounterStepKeepsKey(s, t, x, s.active, true);
  }

  /** Ending a session hands its socket and route to the timer, its device to the callback. */
  lemma ExpireMovesRefs(s: Sys, i: nat)
    requires Inv(s) && i < MAX_NUM && s.tbl.slots[i].valid
    ensures var y := s.tbl.slots[i];
            var slots, threads := s.tbl.slots[i := ExpiredSlot(y)], s.threads + [Expired(y.sk, y.txDst, ActiveReaders(s.readers))];
            && SocksOk(s.socks, slots, threads) && DstsOk(s.dsts, slots, threads)
            && DevsOk(s.devs, slots, threads, s.readers, s.leaked) && LateOk(s.late, slots, s.leaked)
            && CountOk(s.active, slots, threads) && KeyOk(s.key, s.active, s.syncPending, s.worker, threads)
  {
    var y := s.tbl.slots[i];
    assert SlotOk(y, s.queued[i].Some?);
    hide IndexOk, SlotsOk, ReadersOk;
    ThreadAdd(s.threads, Expired(y.sk, y.txDst, ActiveReaders(s.readers)));
    SlotSet(s.tbl.slots, i, ExpiredSlot(y));
  }

  /** On a live slot the device, if any, always goes to the callback. */
  lemma ExpireFrame(s: Sys, i: nat)
    requires Shape(s) && i < MAX_NUM && !s.tbl.slots[i].releasing && s.queued[i].None?
    ensures var y := s.tbl.slots[i];
            DoExpire(s, i) == s.(tbl := Expire(s.tbl, i),
                                 threads := s.threads + [Expired(y.sk, y.txDst, ActiveReaders(s.readers))],
                                 queued := if y.dev.Some? then s.queued[i := Some(ActiveReaders(s.readers))] else s.queued)
  {
  }

  /** Whoever still looks at the detached device is waited for by the callback. */
  lemma ExpireKeepsReaders(s: Sys, i: nat)
    requires Inv(s) && i < MAX_NUM && s.tbl.slots[i].valid
    ensures var t := DoExpire(s, i);
            && !t.fault
            && SlotsOk(t.tbl.slots, t.queued) && ReadersOk(t.readers, t.tbl.slots, t.queued, t.leaked)
  {
    hide IndexOk, SocksOk, DstsOk, DevsOk, CountOk, LateOk, KeyOk, HashDel;
    assert SlotOk(s.tbl.slots[i], s.queued[i].Some?);
    ExpireFrame(s, i);
    hide DoExpire;
  }

  lemma ExpireKeepsInv(s: Sys, i: nat)
    requires Inv(s) && i < MAX_NUM && s.tbl.slots[i].valid
    ensures Inv(DoExpire(s, i))
  {
    assert SlotOk(s.tbl.slots[i], s.queued[i].Some?);
    ExpireMovesRefs(s, i);
    ExpireKeepsReaders(s, i);
    ExpireKeepsIndex(s.tbl, i);
    ExpireFrame(s, i);
    hide DoExpire, ExpiredSlot, IndexOk, HashDel, SlotsOk, ReadersOk, SocksOk, DstsOk, DevsOk, CountOk, LateOk, KeyOk;
  }

  lemma DropMovesSock(s: Sys, t: nat)
    requires Inv(s) && t < |s.threads| && s.threads[t].Dropping?
    ensures var sk := s.threads[t].sk;
            CanDrop(s.socks, sk) && SocksOk(Drop(s.socks, sk), s.tbl.slots, s.threads[t := Finished])
  {
    var sk := s.threads[t].sk;
    hide IndexOk, SlotsOk, ReadersOk, KeyOk, CountOk, LateOk, DstsOk, DevsOk;
    if sk.Some? { RefsPositive(s.threads, t, ThreadSk, sk.value); }
    RefsUpdateAll(s.threads, t, Finished, ThreadSk);
  }

  lemma DropMovesDst(s: Sys, t: nat)
    requires Inv(s) && t < |s.threads| && s.threads[t].Dropping?
    ensures var dst := s.threads[t].dst;
            CanDrop(s.dsts, dst) && DstsOk(Drop(s.dsts, dst), s.tbl.slots, s.threads[t := Finished])
  {
    var dst := s.threads[t].dst;
    hide IndexOk, SlotsOk, ReadersOk, KeyOk, CountOk, LateOk, SocksOk, DevsOk;
    if dst.Some? { RefsPositive(s.threads, t, ThreadDst, dst.value); }
    RefsUpdateAll(s.threads, t, Finished, ThreadDst);
  }

  lemma DropRefsKeepsInv(s: Sys, t: nat)
    requires Inv(s) && t < |s.threads| && s.threads[t].Dropping?
    ensures Inv(Next(s, DropRefs(t)).value)
  {
    DropMovesSock(s, t);
    DropMovesDst(s, t);
    DropKeepsCounts(s, t);
    RefsUpdateAll(s.threads, t, Finished, ThreadDev);
    hide IndexOk, SlotsOk, ReadersOk, KeyOk, CountOk, LateOk, SocksOk, DstsOk;
  }

  lemma DropKeepsCounts(s: Sys, t: nat)
    requires Inv(s) && t < |s.threads| && (s.threads[t].Dropping? || s.threads[t].PuttingDev?)
    ensures CountOk(s.active, s.tbl.slots, s.threads[t := Finished])
    ensures KeyOk(s.key, s.active, s.syncPending, s.worker, s.threads[t := Finished])
  {
    ThreadSet(s.threads, t, Finished);
  }

  lemma TxUseKeepsInv(s: Sys, l: nat, r: nat)
    requires Inv(s)
    ensures Inv(Next(s, TxUse(l, r)).value)
  {
    PortLookupIsScan(s.tbl, l, r);
    var found := PortLookup(s.tbl, l, r);
    hide IndexOk, PortLookup, SlotsOk, ReadersOk;
    if found.Some? && s.tbl.slots[found.value].txDst.Some? {
      var dst := s.tbl.slots[found.value].txDst;
      RefsPositive(s.tbl.slots, found.value, SlotDst, dst.value);
      ThreadAdd(s.threads, Dropping(None, dst, {}));
    }
  }

  /** A change to a live or dead slot's untracked fields: last_tx, the hash, flags of no consequence. */
  lemma TouchKeepsInv(s: Sys, i: nat, x: Slot)
    requires Inv(s) && i < MAX_NUM
    requires var y := s.tbl.slots[i];
             x.valid == y.valid && x.releasing == y.releasing && x.sk == y.sk && x.txDst == y.txDst
             && x.dev == y.dev && x.pending == y.pending
    ensures SlotsOk(s.tbl.slots[i := x], s.queued)
    ensures ReadersOk(s.readers, s.tbl.slots[i := x], s.queued, s.leaked)
    ensures SocksOk(s.socks, s.tbl.slots[i := x], s.threads)
    ensures DstsOk(s.dsts, s.tbl.slots[i := x], s.threads)
    ensures DevsOk(s.devs, s.tbl.slots[i := x], s.threads, s.readers, s.leaked)
    ensures LateOk(s.late, s.tbl.slots[i := x], s.leaked)
    ensures CountOk(s.active, s.tbl.slots[i := x], s.threads)
  {
    SlotSet(s.tbl.slots, i, x);
    hide IndexOk, KeyOk;
  }

  lemma TxTouchKeepsInv(s: Sys, l: nat, r: nat, now: nat)
    requires Inv(s)
    ensures Inv(Next(s, TxTouch(l, r, now)).value)
  {
    PortLookupIsScan(s.tbl, l, r);
    var found := PortLookup(s.tbl, l, r);
    hide IndexOk, PortLookup, SlotsOk, ReadersOk, SocksOk, DstsOk, DevsOk, CountOk, LateOk, KeyOk;
    if found.Some? {
      var x := s.tbl.slots[found.value].(lastTx := now);
      TouchKeepsInv(s, found.value, x);
      TouchKeepsIndex(s.tbl, found.value, x);
    }
  }

  lemma HashPublishKeepsInv(s: Sys, i: nat, hash: nat)
    requires Inv(s) && i < MAX_NUM && hash != 0
    ensures Inv(Next(s, HashPublish(i, hash)).value)
  {
    hide IndexOk, SlotsOk, ReadersOk, SocksOk, DstsOk, DevsOk, CountOk, LateOk, KeyOk, Linked, HashAdd;
    StampKeepsIndex(s.tbl, i, hash);
    TouchKeepsInv(s, i, s.tbl.slots[i].(hash := hash));
  }

  lemma LocalLookupKeepsInv(s: Sys, r: nat, lport: nat, rport: nat)
    requires Inv(s) && r < |s.readers| && s.readers[r].Entered?
    ensures Inv(Next(s, LocalLookup(r, lport, rport)).value)
  {
    assert Shape(s) && IndexOk(s.tbl);
    hide PortLookup, Inv, IndexOk;
    PortLookupIsScan(s.tbl, lport, rport);
    var found := PortLookup(s.tbl, lport, rport);
    ReaderStepKeepsInv(s, r, if found.Some? then Seen(found.value) else Gone);
  }

  /** A publish, on a live slot or on one that died since the lookup. */
  lemma LocalPublishKeepsInv(s: Sys, r: nat, dev: nat, bridge: bool, wifiOnly: bool, wifi: bool)
    requires Inv(s) && Next(s, LocalPublish(r, dev, bridge, wifiOnly, wifi)).Some?
    ensures Inv(Next(s, LocalPublish(r, dev, bridge, wifiOnly, wifi)).value)
  {
    assert Shape(s);
    hide Inv;
    var i := s.readers[r].slot;
    ReaderStepKeepsInv(s, r, Holding(None));
    var s' := SetReader(s, r, Holding(None));
    if CanPublish(s.tbl.slots[i], bridge, wifiOnly, wifi) { PublishKeepsInv(s', i, dev, wifi); }
  }

  lemma PublishKeepsInv(s: Sys, i: nat, dev: nat, wifi: bool)
    requires Inv(s) && i < MAX_NUM && s.tbl.slots[i].dev.None?
    ensures Inv(s.(tbl := PublishDev(s.tbl, i, dev, wifi), devs := Take(s.devs, Some(dev)),
                   late := if s.tbl.slots[i].valid then s.late else s.late + 1))
  {
    hide IndexOk;
    var x := s.tbl.slots[i].(dev := Some(dev), isWifi := s.tbl.slots[i].isWifi || wifi);
    TouchKeepsIndex(s.tbl, i, x);
    PublishKeepsRefs(s, i, x, dev);
    PublishKeepsSlots(s, i, x, dev);
    hide SocksOk, DstsOk, DevsOk, CountOk, LateOk, KeyOk, SlotsOk, ReadersOk;
  }

  lemma PublishKeepsSlots(s: Sys, i: nat, x: Slot, dev: nat)
    requires Inv(s) && i < MAX_NUM && s.tbl.slots[i].dev.None?
    requires var y := s.tbl.slots[i]; x == y.(dev := Some(dev), isWifi := x.isWifi)
    ensures SlotsOk(s.tbl.slots[i := x], s.queued) && ReadersOk(s.readers, s.tbl.slots[i := x], s.queued, s.leaked)
  {
    hide IndexOk, KeyOk, SocksOk, DstsOk, DevsOk, CountOk, LateOk;
  }

  lemma PublishKeepsRefs(s: Sys, i: nat, x: Slot, dev: nat)
    requires Inv(s) && i < MAX_NUM && s.tbl.slots[i].dev.None?
    requires var y := s.tbl.slots[i]; x == y.(dev := Some(dev), isWifi := x.isWifi)
    ensures SocksOk(s.socks, s.tbl.slots[i := x], s.threads)
    ensures DstsOk(s.dsts, s.tbl.slots[i := x], s.threads)
    ensures DevsOk(Take(s.devs, Some(dev)), s.tbl.slots[i := x], s.threads, s.readers, s.leaked)
    ensures LateOk(if x.valid then s.late else s.late + 1, s.tbl.slots[i := x], s.leaked)
    ensures CountOk(s.active, s.tbl.slots[i := x], s.threads)
  {
    hide IndexOk, KeyOk, SlotsOk, ReadersOk;
    SlotSet(s.tbl.slots, i, x);
  }

  lemma ReaderStepKeepsInv(s: Sys, r: nat, x: Reader)
    requires Inv(s) && r < |s.readers| && Active(s.readers[r])
    requires ReaderDev(x) == ReaderDev(s.readers[r])
    requires SlotOf(x).Some? ==> SlotOf(x).value < MAX_NUM
    requires x.Loaded? ==> x.slot < MAX_NUM && s.tbl.slots[x.slot].dev == Some(x.dev)
    ensures Inv(SetReader(s, r, x))
  {
    hide IndexOk, KeyOk, SlotsOk, SocksOk, DstsOk, CountOk, LateOk;
    ReaderSet(s.readers, r, x);
  }

  lemma ReaderEnterKeepsInv(s: Sys)
    requires Inv(s)
    ensures Inv(Next(s, ReaderEnter).value)
  {
    hide IndexOk, KeyOk, SlotsOk, SocksOk, DstsOk, CountOk, LateOk;
    RefsAppendAll(s.readers, Entered, ReaderDev);
  }

  lemma ReaderLookupKeepsInv(s: Sys, r: nat, hash: nat)
    requires Inv(s) && r < |s.readers| && s.readers[r].Entered?
    ensures Inv(Next(s, ReaderLookup(r, hash)).value)
  {
    assert Shape(s) && IndexOk(s.tbl);
    hide HashLookup, Inv, IndexOk;
    HashLookupIsScan(s.tbl, hash);
    var found := HashLookup(s.tbl, hash);
    ReaderStepKeepsInv(s, r, if found.Some? then Found(found.value) else Gone);
  }

  lemma ReaderLoadSkKeepsInv(s: Sys, r: nat)
    requires Inv(s) && Next(s, ReaderLoadSk(r)).Some?
    ensures Inv(Next(s, ReaderLoadSk(r)).value)
  {
    assert Shape(s);
    hide Inv;
    var i := s.readers[r].slot;
    var sk := s.tbl.slots[i].sk;
    ReaderStepKeepsInv(s, r, if sk.Some? then SkLoaded(i, sk.value) else Marked(i));
  }

  lemma ReaderMissesSkKeepsInv(s: Sys, r: nat)
    requires Inv(s) && Next(s, ReaderMissesSk(r)).Some?
    ensures Inv(Next(s, ReaderMissesSk(r)).value)
  {
    hide IndexOk, SlotsOk, SocksOk, DstsOk, DevsOk, CountOk, LateOk, KeyOk;
    ReaderStepKeepsInv(s, r, Marked(s.readers[r].slot));
  }

  lemma ReaderTestSetKeepsInv(s: Sys, r: nat)
    requires Inv(s) && Next(s, ReaderTestSet(r)).Some?
    ensures Inv(Next(s, ReaderTestSet(r)).value)
  {
    hide IndexOk, SlotsOk, ReadersOk, SocksOk, DstsOk, DevsOk, CountOk, LateOk, KeyOk;
    var i := s.readers[r].slot;
    var rd := if s.tbl.slots[i].skipCopy then Marked(i) else Touching(i, s.readers[r].sk);
    ReaderStepKeepsInv(s, r, rd);
    var s' := SetReader(s, r, rd);
    var x := s'.tbl.slots[i].(skipCopy := true);
    TouchKeepsInv(s', i, x);
    TouchKeepsIndex(s'.tbl, i, x);
  }

  lemma ReaderWriteMarkKeepsInv(s: Sys, r: nat)
    requires Inv(s) && Next(s, ReaderWriteMark(r)).Some?
    ensures Inv(Next(s, ReaderWriteMark(r)).value)
  {
    hide IndexOk, SlotsOk, SocksOk, DstsOk, DevsOk, CountOk, LateOk, KeyOk;
    ReaderStepKeepsInv(s, r, Marked(s.readers[r].slot));
  }

  lemma ReaderLoadKeepsInv(s: Sys, r: nat)
    requires Inv(s) && Next(s, ReaderLoad(r)).Some?
    ensures Inv(Next(s, ReaderLoad(r)).value)
  {
    var dev := s.tbl.slots[s.readers[r].slot].dev;
    hide IndexOk, SlotsOk, ReadersOk, SocksOk, DstsOk, DevsOk, CountOk, LateOk, KeyOk;
    ReaderStepKeepsInv(s, r, if dev.Some? then Loaded(s.readers[r].slot, dev.value) else Holding(None));
  }

  /**
   The point of the deferred release: when a reader that loaded a device takes its own reference, the
   module's reference on that device is still out.
   */
  lemma HoldIsSafe(s: Sys, r: nat)
    requires Inv(s) && r < |s.readers| && s.readers[r].Loaded?
    ensures var rd := s.readers[r];
            && rd.dev in s.devs
            && rd.slot < MAX_NUM && StillOwned(s.tbl.slots[rd.slot], s.queued[rd.slot], s.leaked, rd.dev, r)
  {
    var rd := s.readers[r];
    hide IndexOk, KeyOk, SocksOk, DstsOk, CountOk, LateOk;
    if s.tbl.slots[rd.slot].dev == Some(rd.dev) {
      RefsPositive(s.tbl.slots, rd.slot, SlotDev, rd.dev);
    } else if s.tbl.slots[rd.slot].pending == Some(rd.dev) {
      RefsPositive(s.tbl.slots, rd.slot, SlotPending, rd.dev);
    } else {
      var n :| 0 <= n < |s.leaked| && s.leaked[n] == rd.dev;
      RefsPositive(s.leaked, n, Itself, rd.dev);
    }
  }

  lemma ReaderHoldKeepsInv(s: Sys, r: nat)
    requires Inv(s) && r < |s.readers| && s.readers[r].Loaded?
    ensures Inv(Next(s, ReaderHold(r)).value)
  {
    HoldIsSafe(s, r);
    hide IndexOk, KeyOk, SlotsOk, SocksOk, DstsOk, CountOk, LateOk;
    ReaderSet(s.readers, r, Holding(Some(s.readers[r].dev)));
  }

  lemma ReaderExitKeepsInv(s: Sys, r: nat)
    requires Inv(s) && r < |s.readers| && s.readers[r].Holding?
    ensures Inv(Next(s, ReaderExit(r)).value)
  {
    assert Shape(s);
    hide Inv;
    var held := s.readers[r].held;
    ReaderStepKeepsInv(s, r, if held.Some? then Outside(held.value) else Gone);
  }

  lemma ReaderPutKeepsInv(s: Sys, r: nat)
    requires Inv(s) && r < |s.readers| && s.readers[r].Outside?
    ensures Inv(Next(s, ReaderPut(r)).value)
  {
    hide IndexOk, KeyOk, SlotsOk, SocksOk, DstsOk, CountOk, LateOk;
    RefsPositive(s.readers, r, ReaderDev, s.readers[r].dev);
    ReaderSet(s.readers, r, Gone);
  }

  lemma CallbackRunKeepsInv(s: Sys, i: nat)
    requires Inv(s) && i < MAX_NUM && Next(s, CallbackRun(i)).Some?
    ensures Inv(Next(s, CallbackRun(i)).value)
  {
    var y := s.tbl.slots[i];
    var x := y.(pending := None, releasing := false);
    assert SlotOk(y, s.queued[i].Some?);
    TouchKeepsIndex(s.tbl, i, x);
    CallbackMovesRef(s, i, x);
    CallbackKeepsReaders(s, i, x);
    hide GraceOver, IndexOk, SlotsOk, ReadersOk, SocksOk, DstsOk, DevsOk, CountOk, LateOk, KeyOk;
  }

  /** No reader that still looks at the device is left when the grace period is over. */
  lemma CallbackKeepsReaders(s: Sys, i: nat, x: Slot)
    requires Inv(s) && i < MAX_NUM && s.queued[i].Some? && GraceOver(s.readers, s.queued[i].value)
    requires x == s.tbl.slots[i].(pending := None, releasing := false)
    ensures SlotsOk(s.tbl.slots[i := x], s.queued[i := None])
    ensures ReadersOk(s.readers, s.tbl.slots[i := x], s.queued[i := None], s.leaked)
  {
    hide IndexOk, SocksOk, DstsOk, DevsOk, CountOk, LateOk, KeyOk;
    assert SlotOk(s.tbl.slots[i], s.queued[i].Some?);
  }

  lemma CallbackMovesRef(s: Sys, i: nat, x: Slot)
    requires Inv(s) && i < MAX_NUM && s.tbl.slots[i].pending.Some?
    requires x == s.tbl.slots[i].(pending := None, releasing := false)
    ensures var slots, threads := s.tbl.slots[i := x], s.threads + [PuttingDev(s.tbl.slots[i].pending.value)];
            && SocksOk(s.socks, slots, threads) && DstsOk(s.dsts, slots, threads)
            && DevsOk(s.devs, slots, threads, s.readers, s.leaked) && LateOk(s.late, slots, s.leaked)
            && CountOk(s.active, slots, threads) && KeyOk(s.key, s.active, s.syncPending, s.worker, threads)
  {
    hide IndexOk, SlotsOk, ReadersOk;
    SlotSet(s.tbl.slots, i, x);
    ThreadAdd(s.threads, PuttingDev(s.tbl.slots[i].pending.value));
  }

  lemma CallbackPutKeepsInv(s: Sys, t: nat)
    requires Inv(s) && t < |s.threads| && s.threads[t].PuttingDev?
    ensures Inv(Next(s, CallbackPut(t)).value)
  {
    hide IndexOk, SlotsOk, ReadersOk, KeyOk, CountOk, LateOk;
    RefsPositive(s.threads, t, ThreadDev, s.threads[t].dev);
    ThreadSet(s.threads, t, Finished);
    DropKeepsCounts(s, t);
  }

  lemma WorkKeepsInv(s: Sys, step: Step)
    requires Inv(s) && (step.WorkStart? || step.WorkReadCount? || step.WorkReadKey? || step.WorkFlip?)
    requires Next(s, step).Some?
    ensures Inv(Next(s, step).value)
  {
    hide IndexOk, SlotsOk, ReadersOk, SocksOk, DstsOk, DevsOk, CountOk, LateOk;
  }

  /** Every step of every context keeps the invariant. */
  lemma StepKeepsInv(s: Sys, step: Step)
    requires Inv(s) && Next(s, step).Some?
    ensures Inv(Next(s, step).value)
  {
    hide Inv, DoAddLock, DoExpire;
    match step {
      case AddStart(l, r, sk, dst) => AddStartKeepsInv(s, l, r, sk, dst);
      case AddLock(t, now) => AddLockKeepsInv(s, t, now);
      case ActiveInc(t) => ActiveIncKeepsInv(s, t);
      case TimerFire(i, now) => ExpireKeepsInv(s, i);
      case ActiveDec(t) => ActiveDecKeepsInv(s, t);
      case Schedule(t) => ScheduleKeepsInv(s, t);
      case DropRefs(t) => DropRefsKeepsInv(s, t);
      case TxUse(l, r) => TxUseKeepsInv(s, l, r);
      case TxTouch(l, r, now) => TxTouchKeepsInv(s, l, r, now);
      case LocalLookup(r, lport, rport) => LocalLookupKeepsInv(s, r, lport, rport);
      case LocalPublish(r, dev, bridge, wifiOnly, wifi) => LocalPublishKeepsInv(s, r, dev, bridge, wifiOnly, wifi);
      case HashPublish(i, hash) => HashPublishKeepsInv(s, i, hash);
      case ReaderEnter => ReaderEnterKeepsInv(s);
      case ReaderLookup(r, hash) => ReaderLookupKeepsInv(s, r, hash);
      case ReaderLoadSk(r) => ReaderLoadSkKeepsInv(s, r);
      case ReaderMissesSk(r) => ReaderMissesSkKeepsInv(s, r);
      case ReaderTestSet(r) => ReaderTestSetKeepsInv(s, r);
      case ReaderWriteMark(r) => ReaderWriteMarkKeepsInv(s, r);
      case ReaderLoad(r) => ReaderLoadKeepsInv(s, r);
      case ReaderHold(r) => ReaderHoldKeepsInv(s, r);
      case ReaderExit(r) => ReaderExitKeepsInv(s, r);
      case ReaderPut(r) => ReaderPutKeepsInv(s, r);
      case CallbackRun(i) => CallbackRunKeepsInv(s, i);
      case CallbackPut(t) => CallbackPutKeepsInv(s, t);
      case WorkStart => WorkKeepsInv(s, step);
      case WorkReadCount => WorkKeepsInv(s, step);
      case WorkReadKey => WorkKeepsInv(s, step);
      case WorkFlip => WorkKeepsInv(s, step);
    }
  }

  // ---------------------------------------------------------------- every run

  function Then(s: Option<Sys>, step: Step): Option<Sys> {
    if s.Some? && Shape(s.value) then Next(s.value, step) else None
  }

  /** The state after a run, if every step of it was enabled. */
  function Run(steps: seq<Step>): Option<Sys> {
    if |steps| == 0 then Some(Init()) else Then(Run(steps[..|steps| - 1]), steps[|steps| - 1])
  }

  lemma {:induction false} RunKeepsInv(steps: seq<Step>)
    requires Run(steps).Some?
    ensures Inv(Run(steps).value)
    decreases |steps|
  {
    hide Inv, Next;
    if |steps| == 0 {
      InitInv();
    } else {
      RunKeepsInv(steps[..|steps| - 1]);
      StepKeepsInv(Run(steps[..|steps| - 1]).value, steps[|steps| - 1]);
    }
  }

  /**
   Safety of every run: the WARN branch is not reached, no reference is dropped twice, no list node or
   rcu_head is queued twice, no slot is reused while its callback is out; DEV_RELEASING is set exactly
   while the slot's rcu_head is queued. The one reference that can be overwritten is that of a device
   published after its session ended.
   */
  lemma RunsAreSafe(steps: seq<Step>)
    requires Run(steps).Some?
    ensures var s := Run(steps).value;
            && !s.fault
            && |s.tbl.slots| == MAX_NUM && |s.queued| == MAX_NUM
            && (forall i :: 0 <= i < MAX_NUM ==>
                  && (s.tbl.slots[i].releasing <==> s.queued[i].Some?)
                  && !(s.tbl.slots[i].valid && s.tbl.slots[i].releasing))
            && s.late == Count(s.tbl.slots, IsStranded) + |s.leaked|
  {
    RunKeepsInv(steps);
    var s := Run(steps).value;
    hide Run, IndexOk, ReadersOk, SocksOk, DstsOk, DevsOk, CountOk, KeyOk;
    forall i | 0 <= i < MAX_NUM
      ensures SlotOk(s.tbl.slots[i], s.queued[i].Some?)
    {
    }
  }

  // ---------------------------------------------------------------- late publishes

  /**
   LOCAL_IN publishes a device onto a slot whose session ended after the lookup. A session ends, for this, where the
   timer takes its device (the xchg of line 518), and begins where wifi_lo_add_ety clears lo->dev (line 867). VALID is
   cleared later than the one and set later than the other, so testing that bit before the publish would not do.
   */
  predicate PublishesLate(s: Sys, step: Step)
    requires Shape(s)
  {
    && step.LocalPublish? && step.r < |s.readers| && s.readers[step.r].Seen? && s.readers[step.r].slot < MAX_NUM
    && CanPublish(s.tbl.slots[s.readers[step.r].slot], step.bridge, step.wifiOnly, step.wifi)
    && !s.tbl.slots[s.readers[step.r].slot].valid
  }

  lemma LateCounts(s: Sys, step: Step)
    requires Shape(s) && Next(s, step).Some?
    ensures Next(s, step).value.late == s.late + if PublishesLate(s, step) then 1 else 0
    ensures s.leaked <= Next(s, step).value.leaked
  {
    if step.LocalPublish? {
      hide PublishDev, Take;
    } else if IsReaderStep(step) {
      ReaderStepFrame(s, step);
    } else {
      OtherStepFrame(s, step);
    }
  }

  predicate IsReaderStep(step: Step) {
    || step.ReaderEnter? || step.ReaderLookup? || step.ReaderLoadSk? || step.ReaderTestSet? || step.ReaderWriteMark?
    || step.ReaderMissesSk?
    || step.ReaderLoad? || step.ReaderHold? || step.ReaderExit? || step.ReaderPut? || step.LocalLookup?
  }

  lemma ReaderStepFrame(s: Sys, step: Step)
    requires Shape(s) && IsReaderStep(step) && Next(s, step).Some?
    ensures Next(s, step).value.late == s.late && Next(s, step).value.leaked == s.leaked
  {
    hide PortLookup, HashLookup, Take, Drop, SetReader;
  }

  lemma OtherStepFrame(s: Sys, step: Step)
    requires Shape(s) && !IsReaderStep(step) && !step.LocalPublish? && Next(s, step).Some?
    ensures Next(s, step).value.late == s.late && s.leaked <= Next(s, step).value.leaked
  {
    hide DoAddLock, DoExpire, PortLookup, Stamp, GraceOver, Take, Drop, CanDrop;
  }

  /** No step of the run publishes late. */
  predicate PublishesInTime(steps: seq<Step>) {
    if |steps| == 0 then true
    else
      var before := Run(steps[..|steps| - 1]);
      && PublishesInTime(steps[..|steps| - 1])
      && (before.Some? && Shape(before.value) ==> !PublishesLate(before.value, steps[|steps| - 1]))
  }

  lemma LastStep(steps: seq<Step>)
    requires |steps| > 0
    ensures var n := |steps| - 1;
            && Run(steps) == Then(Run(steps[..n]), steps[n])
            && (PublishesInTime(steps) <==>
                PublishesInTime(steps[..n]) && (Run(steps[..n]).Some? && Shape(Run(steps[..n]).value) ==>
                                                  !PublishesLate(Run(steps[..n]).value, steps[n])))
  {
    hide Then, Shape, PublishesLate;
  }

  lemma {:induction false} LateIsCounted(steps: seq<Step>)
    requires Run(steps).Some?
    ensures Run(steps).value.late == 0 <==> PublishesInTime(steps)
    decreases |steps|
  {
    if |steps| > 0 {
      var n := |steps| - 1;
      hide Next, PublishesLate, Shape, Run, PublishesInTime;
      LastStep(steps);
      LateIsCounted(steps[..n]);
      LateCounts(Run(steps[..n]).value, steps[n]);
    }
  }

  /**
   With every publish in time, that is before the timer takes the session's device, no device reference is lost:
   none is overwritten, and a slot with a device has a live session. With a late one, exactly as many devices as
   were published late are stranded in dead slots or lost.
   */
  lemma NothingLeaksIffPublishesInTime(steps: seq<Step>)
    requires Run(steps).Some?
    ensures var s := Run(steps).value;
            PublishesInTime(steps) <==>
            s.leaked == [] && forall i :: 0 <= i < |s.tbl.slots| && s.tbl.slots[i].dev.Some? ==> s.tbl.slots[i].valid
  {
    LateIsCounted(steps);
    RunsAreSafe(steps);
    var s := Run(steps).value;
    hide Run, PublishesInTime;
    if s.late == 0 {
      forall i | 0 <= i < |s.tbl.slots| && s.tbl.slots[i].dev.Some?
        ensures s.tbl.slots[i].valid
      {
        if !s.tbl.slots[i].valid { CountAtLeastOne(s.tbl.slots, i, IsStranded); }
      }
    } else if Count(s.tbl.slots, IsStranded) > 0 {
      var i := CountPositive(s.tbl.slots, IsStranded);
    }
  }

  /** An overwritten reference is never given back. */
  lemma LeakedStaysLeaked(s: Sys, step: Step)
    requires Inv(s) && Next(s, step).Some?
    ensures s.leaked <= Next(s, step).value.leaked
    ensures forall d :: d in s.leaked ==> d in Next(s, step).value.devs
  {
    StepKeepsInv(s, step);
    var s' := Next(s, step).value;
    LateCounts(s, step);
    hide Next, IndexOk, SlotsOk, ReadersOk, SocksOk, DstsOk, CountOk, LateOk, KeyOk;
    forall d | d in s.leaked
      ensures d in s'.devs
    {
      var n :| 0 <= n < |s.leaked| && s.leaked[n] == d;
      assert s'.leaked[n] == d;
      RefsPositive(s'.leaked, n, Itself, d);
    }
  }

  // ---------------------------------------------------------------- the mark written to a socket

  /** The timer clears the mark of a session's socket with the session's own reference still out. */
  lemma TimerClearsAHeldSocket(s: Sys, i: nat)
    requires Inv(s) && i < MAX_NUM && s.tbl.slots[i].sk.Some?
    ensures s.tbl.slots[i].sk.value in s.socks
  {
    hide IndexOk, SlotsOk, ReadersOk, DstsOk, DevsOk, LateOk, CountOk, KeyOk;
    RefsPositive(s.tbl.slots, i, SlotSk, s.tbl.slots[i].sk.value);
  }

  /** Every reader about to write a mark writes it to a socket the module holds. */
  predicate MarksOk(s: Sys) {
    forall r :: 0 <= r < |s.readers| && s.readers[r].Touching? ==> s.readers[r].sk in s.socks
  }

  lemma MarksOkMeans(s: Sys)
    requires Shape(s) && !s.staleMark
    ensures MarksOk(s) <==>
            forall r :: 0 <= r < |s.readers| && Next(s, ReaderWriteMark(r)).Some? ==> !Next(s, ReaderWriteMark(r)).value.staleMark
  {
    forall r | 0 <= r < |s.readers|
      ensures Next(s, ReaderWriteMark(r)).Some? <==> s.readers[r].Touching?
      ensures s.readers[r].Touching? ==> (Next(s, ReaderWriteMark(r)).value.staleMark <==> s.readers[r].sk !in s.socks)
    {
    }
    hide Next;
  }

  /** Dropping a socket's last reference under a reader about to mark it, or a reader winning the flag after that. */
  predicate Endangers(s: Sys, step: Step)
    requires Shape(s)
  {
    match step
    case DropRefs(t) =>
      && t < |s.threads| && s.threads[t].Dropping? && s.threads[t].sk.Some? && s.socks[s.threads[t].sk.value] == 1
      && exists r :: 0 <= r < |s.readers| && s.readers[r].Touching? && s.readers[r].sk == s.threads[t].sk.value
    case ReaderTestSet(r) =>
      && r < |s.readers| && s.readers[r].SkLoaded? && s.readers[r].slot < MAX_NUM
      && !s.tbl.slots[s.readers[r].slot].skipCopy && s.readers[r].sk !in s.socks
    case _ => false
  }

  lemma StepKeepsMarks(s: Sys, step: Step)
    requires Shape(s) && MarksOk(s) && Next(s, step).Some?
    ensures MarksOk(Next(s, step).value) <==> !Endangers(s, step)
    ensures Next(s, step).value.staleMark == s.staleMark
  {
    hide Next, MarksOk, Shape;
    if step.DropRefs? {
      DropKeepsMarks(s, step.t);
    } else if step.ReaderTestSet? {
      TestSetKeepsMarks(s, step.r);
    } else if step.LocalPublish? || IsReaderStep(step) {
      ReaderStepKeepsMarks(s, step);
    } else {
      OtherStepKeepsMarks(s, step);
    }
  }

  lemma OtherStepKeepsMarks(s: Sys, step: Step)
    requires Shape(s) && MarksOk(s) && Next(s, step).Some?
    requires !IsReaderStep(step) && !step.LocalPublish? && !step.DropRefs?
    ensures MarksOk(Next(s, step).value)
    ensures Next(s, step).value.staleMark == s.staleMark
  {
    hide DoAddLock, DoExpire, PortLookup, Stamp, GraceOver, Drop, CanDrop;
  }

  lemma DropKeepsMarks(s: Sys, t: nat)
    requires Shape(s) && MarksOk(s) && Next(s, DropRefs(t)).Some?
    ensures MarksOk(Next(s, DropRefs(t)).value) <==> !Endangers(s, DropRefs(t))
    ensures Next(s, DropRefs(t)).value.staleMark == s.staleMark
  {
  }

  lemma TestSetKeepsMarks(s: Sys, r: nat)
    requires Shape(s) && MarksOk(s) && Next(s, ReaderTestSet(r)).Some?
    ensures MarksOk(Next(s, ReaderTestSet(r)).value) <==> !Endangers(s, ReaderTestSet(r))
    ensures Next(s, ReaderTestSet(r)).value.staleMark == s.staleMark
  {
    var s' := Next(s, ReaderTestSet(r)).value;
    assert s'.readers == s.readers[r := s'.readers[r]] && s'.socks == s.socks;
    assert s'.readers[r].Touching? <==> !s.tbl.slots[s.readers[r].slot].skipCopy;
  }

  lemma ReaderStepKeepsMarks(s: Sys, step: Step)
    requires Shape(s) && MarksOk(s) && Next(s, step).Some?
    requires step.LocalPublish? || (IsReaderStep(step) && !step.ReaderTestSet?)
    ensures MarksOk(Next(s, step).value)
    ensures Next(s, step).value.staleMark == s.staleMark
  {
    hide PortLookup, HashLookup, Take, Drop, PublishDev, CanPublish;
  }

  predicate NeverEndangered(steps: seq<Step>) {
    if |steps| == 0 then true
    else
      var before := Run(steps[..|steps| - 1]);
      && NeverEndangered(steps[..|steps| - 1])
      && (before.Some? && Shape(before.value) ==> !Endangers(before.value, steps[|steps| - 1]))
  }

  /** Readers mark only sockets the module holds, in every run without one of those two steps. */
  lemma {:induction false} MarksAreSafe(steps: seq<Step>)
    requires Run(steps).Some? && NeverEndangered(steps)
    ensures MarksOk(Run(steps).value) && !Run(steps).value.staleMark
    decreases |steps|
  {
    if |steps| > 0 {
      var n := |steps| - 1;
      hide Next, Endangers, Shape, MarksOk;
      MarksAreSafe(steps[..n]);
      StepKeepsMarks(Run(steps[..n]).value, steps[n]);
    }
  }

  // ---------------------------------------------------------------- what a wait would give

  /** A socket is put only when the readers that were inside at its session's end have left. */
  predicate Waits(s: Sys, step: Step) {
    step.DropRefs? && step.t < |s.threads| && s.threads[step.t].Dropping? && s.threads[step.t].sk.Some?
    ==> GraceOver(s.readers, s.threads[step.t].inside)
  }

  predicate AlwaysWaits(steps: seq<Step>) {
    if |steps| == 0 then true
    else
      var before := Run(steps[..|steps| - 1]);
      AlwaysWaits(steps[..|steps| - 1]) && (before.Some? ==> Waits(before.value, steps[|steps| - 1]))
  }

  /** The socket that reader r has loaded and not yet marked. */
  function Marking(r: Reader): Option<nat> { if r.SkLoaded? || r.Touching? then Some(r.sk) else None }

  /** Context t still carries the reference on k, of a session that ended with reader r inside. */
  predicate Carries(t: Thread, k: nat, r: nat) {
    (t.Expired? || t.MustSync? || t.Dropping?) && t.sk == Some(k) && r in t.inside
  }

  /** The session's reference on a socket that reader r has loaded is in the slot still, or with such a context. */
  ghost predicate SockHeld(slots: seq<Slot>, threads: seq<Thread>, rd: Reader, r: nat) {
    Marking(rd).Some? ==>
      || (SlotOf(rd).value < |slots| && slots[SlotOf(rd).value].sk == Marking(rd))
      || exists t :: 0 <= t < |threads| && Carries(threads[t], Marking(rd).value, r)
  }

  ghost predicate SocksHeld(s: Sys) {
    forall r: nat :: r < |s.readers| ==> SockHeld(s.tbl.slots, s.threads, s.readers[r], r)
  }

  lemma HeldMeansOut(s: Sys)
    requires Inv(s) && SocksHeld(s)
    ensures MarksOk(s)
  {
    hide IndexOk, SlotsOk, ReadersOk, DstsOk, DevsOk, LateOk, CountOk, KeyOk;
    forall r | 0 <= r < |s.readers| && s.readers[r].Touching?
      ensures s.readers[r].sk in s.socks
    {
      var k := s.readers[r].sk;
      assert SockHeld(s.tbl.slots, s.threads, s.readers[r], r);
      if t :| 0 <= t < |s.threads| && Carries(s.threads[t], k, r) {
        RefsPositive(s.threads, t, ThreadSk, k);
      } else {
        RefsPositive(s.tbl.slots, s.readers[r].slot, SlotSk, k);
      }
    }
  }

  /** A step that moves no reader, takes no socket out of a slot and drops none. */
  lemma HeldKept(s: Sys, s': Sys)
    requires SocksHeld(s) && s'.readers == s.readers
    requires |s'.tbl.slots| == |s.tbl.slots| && |s'.threads| >= |s.threads|
    requires forall i :: 0 <= i < |s.tbl.slots| && s.tbl.slots[i].sk.Some? ==> s'.tbl.slots[i].sk == s.tbl.slots[i].sk
    requires forall t, k, r :: 0 <= t < |s.threads| && Carries(s.threads[t], k, r) ==> Carries(s'.threads[t], k, r)
    ensures SocksHeld(s')
  {
    forall r: nat | r < |s'.readers|
      ensures SockHeld(s'.tbl.slots, s'.threads, s'.readers[r], r)
    {
      assert SockHeld(s.tbl.slots, s.threads, s.readers[r], r);
      var k := Marking(s.readers[r]);
      hide Marking;
      if k.Some? && exists t :: 0 <= t < |s.threads| && Carries(s.threads[t], k.value, r) {
        var t :| 0 <= t < |s.threads| && Carries(s.threads[t], k.value, r);
        assert Carries(s'.threads[t], k.value, r);
      }
    }
  }

  /** A step of reader q, that leaves the sockets where they are. */
  lemma HeldReader(s: Sys, s': Sys, q: nat)
    requires SocksHeld(s) && q < |s'.readers| && s'.threads == s.threads && |s'.tbl.slots| == |s.tbl.slots|
    requires q <= |s.readers| && |s'.readers| == (if q < |s.readers| then |s.readers| else q + 1)
    requires forall r: nat :: r < |s.readers| && r != q ==> s'.readers[r] == s.readers[r]
    requires forall i :: 0 <= i < |s.tbl.slots| ==> s'.tbl.slots[i].sk == s.tbl.slots[i].sk
    requires SockHeld(s.tbl.slots, s.threads, s'.readers[q], q)
    ensures SocksHeld(s')
  {
    forall r: nat | r < |s'.readers|
      ensures SockHeld(s'.tbl.slots, s'.threads, s'.readers[r], r)
    {
      assert SockHeld(s.tbl.slots, s.threads, s'.readers[r], r);
    }
  }

  lemma ExpireKeepsHeld(s: Sys, i: nat)
    requires Inv(s) && SocksHeld(s) && i < MAX_NUM
    ensures SocksHeld(DoExpire(s, i))
  {
    var s', n := DoExpire(s, i), |s.threads|;
    hide Inv, HashDel, SocksHeld;
    assert s'.readers == s.readers && |s'.threads| == n + 1 && s'.threads[..n] == s.threads;
    assert s'.tbl.slots == s.tbl.slots[i := ExpiredSlot(s.tbl.slots[i])];
    assert s'.threads[n] == Expired(s.tbl.slots[i].sk, s.tbl.slots[i].txDst, ActiveReaders(s.readers));
    hide DoExpire;
    forall r: nat | r < |s'.readers|
      ensures SockHeld(s'.tbl.slots, s'.threads, s'.readers[r], r)
    {
      HeldAt(s, r);
      ExpireHandsOver(s, s', i, r);
    }
    HeldAll(s');
  }

  lemma HeldAt(s: Sys, r: nat)
    requires SocksHeld(s) && r < |s.readers|
    ensures SockHeld(s.tbl.slots, s.threads, s.readers[r], r)
  {
  }

  lemma HeldAll(s: Sys)
    requires forall r: nat :: r < |s.readers| ==> SockHeld(s.tbl.slots, s.threads, s.readers[r], r)
    ensures SocksHeld(s)
  {
  }

  /** A reader is inside, so the ended session's context waits for it. */
  lemma ExpireHandsOver(s: Sys, s': Sys, i: nat, r: nat)
    requires i < |s.tbl.slots| && r < |s.readers| && SockHeld(s.tbl.slots, s.threads, s.readers[r], r)
    requires s'.tbl.slots == s.tbl.slots[i := ExpiredSlot(s.tbl.slots[i])]
    requires s'.threads == s.threads + [Expired(s.tbl.slots[i].sk, s.tbl.slots[i].txDst, ActiveReaders(s.readers))]
    ensures SockHeld(s'.tbl.slots, s'.threads, s.readers[r], r)
  {
    var rd, n := s.readers[r], |s.threads|;
    hide ExpiredSlot;
    if Marking(rd).Some? {
      var k := Marking(rd).value;
      if t :| 0 <= t < |s.threads| && Carries(s.threads[t], k, r) {
        assert Carries(s'.threads[t], k, r);
      } else if SlotOf(rd).value == i {
        assert r in ActiveReaders(s.readers);
        assert Carries(s'.threads[n], k, r);
      }
    }
  }

  /** With the wait, the reference dropped is not one that a reader inside relies on. */
  lemma DropKeepsHeld(s: Sys, t: nat)
    requires Inv(s) && SocksHeld(s) && Next(s, DropRefs(t)).Some? && Waits(s, DropRefs(t))
    ensures SocksHeld(Next(s, DropRefs(t)).value)
  {
    var s' := Next(s, DropRefs(t)).value;
    hide Inv, Drop, CanDrop;
    forall r: nat | r < |s'.readers|
      ensures SockHeld(s'.tbl.slots, s'.threads, s'.readers[r], r)
    {
      HeldAt(s, r);
      if Marking(s.readers[r]).Some? {
        var k := Marking(s.readers[r]).value;
        if u :| 0 <= u < |s.threads| && Carries(s.threads[u], k, r) {
          assert Active(s.readers[r]);
          assert u != t;
          assert Carries(s'.threads[u], k, r);
        }
      }
    }
  }

  lemma AddLockKeepsHeld(s: Sys, t: nat, now: nat)
    requires Inv(s) && SocksHeld(s) && Next(s, AddLock(t, now)).Some?
    ensures SocksHeld(Next(s, AddLock(t, now)).value)
  {
    var s' := Next(s, AddLock(t, now)).value;
    var free := FreeFrom(s.tbl.slots, 0);
    if free.Some? { assert SlotOk(s.tbl.slots[free.value], s.queued[free.value].Some?); }
    hide Inv, SocksHeld, FreeFrom, HashAdd, Linked;
    HeldKept(s, s');
  }

  predicate IsMarkingStep(step: Step) { step.ReaderLoadSk? || step.ReaderTestSet? }

  lemma LoadSkKeepsHeld(s: Sys, q: nat)
    requires Shape(s) && SocksHeld(s) && Next(s, ReaderLoadSk(q)).Some?
    ensures SocksHeld(Next(s, ReaderLoadSk(q)).value)
  {
    hide SocksHeld;
    HeldReader(s, Next(s, ReaderLoadSk(q)).value, q);
  }

  lemma SameSocket(s: Sys, a: Reader, b: Reader, r: nat)
    requires SockHeld(s.tbl.slots, s.threads, a, r)
    requires Marking(b).None? || (Marking(b) == Marking(a) && SlotOf(b) == SlotOf(a))
    ensures SockHeld(s.tbl.slots, s.threads, b, r)
  {
  }

  lemma TestSetKeepsHeld(s: Sys, q: nat)
    requires Shape(s) && SocksHeld(s) && Next(s, ReaderTestSet(q)).Some?
    ensures SocksHeld(Next(s, ReaderTestSet(q)).value)
  {
    hide SocksHeld, SockHeld;
    HeldAt(s, q);
    var s' := Next(s, ReaderTestSet(q)).value;
    var i, rd := s.readers[q].slot, s'.readers[q];
    assert s'.readers == s.readers[q := rd] && s'.threads == s.threads;
    assert rd == Marked(i) || rd == Touching(i, s.readers[q].sk);
    assert s'.tbl.slots == s.tbl.slots || s'.tbl.slots == s.tbl.slots[i := s.tbl.slots[i].(skipCopy := true)];
    hide Next, Shape;
    SameSocket(s, s.readers[q], rd, q);
    HeldReader(s, s', q);
  }

  lemma NothingLoaded(s: Sys, rd: Reader, r: nat)
    requires Marking(rd).None?
    ensures SockHeld(s.tbl.slots, s.threads, rd, r)
  {
  }

  predicate IsDevStep(step: Step) { step.ReaderLoad? || step.ReaderHold? || step.ReaderExit? || step.ReaderPut? }

  lemma DevKeepsHeld(s: Sys, step: Step)
    requires Shape(s) && SocksHeld(s) && Next(s, step).Some? && IsDevStep(step)
    ensures SocksHeld(Next(s, step).value)
  {
    hide SocksHeld, SockHeld, Take, Drop;
    var s' := Next(s, step).value;
    assert s'.tbl == s.tbl && s'.threads == s.threads && s'.readers == s.readers[step.r := s'.readers[step.r]];
    NothingLoaded(s, s'.readers[step.r], step.r);
    hide Next, Shape;
    HeldReader(s, s', step.r);
  }

  lemma ReaderKeepsHeld(s: Sys, step: Step)
    requires Shape(s) && SocksHeld(s) && Next(s, step).Some?
    requires IsReaderStep(step) && !IsMarkingStep(step) && !IsDevStep(step)
    ensures SocksHeld(Next(s, step).value)
  {
    var q := if step.ReaderEnter? then |s.readers| else step.r;
    hide SocksHeld, SockHeld, HashLookup, PortLookup;
    var s' := Next(s, step).value;
    assert s'.tbl == s.tbl && s'.threads == s.threads;
    assert s'.readers == (if step.ReaderEnter? then s.readers + [Entered] else s.readers[q := s'.readers[q]]);
    NothingLoaded(s, s'.readers[q], q);
    hide Next, Shape;
    HeldReader(s, s', q);
  }

  lemma PublishKeepsHeld(s: Sys, step: Step)
    requires Shape(s) && SocksHeld(s) && Next(s, step).Some? && step.LocalPublish?
    ensures SocksHeld(Next(s, step).value)
  {
    hide SocksHeld, Take, CanPublish, Carries;
    HeldReader(s, Next(s, step).value, step.r);
  }

  lemma ThreadKeepsHeld(s: Sys, step: Step)
    requires Shape(s) && SocksHeld(s) && Next(s, step).Some?
    requires step.AddStart? || step.ActiveInc? || step.ActiveDec? || step.Schedule? || step.TxUse?
    ensures SocksHeld(Next(s, step).value)
  {
    hide SocksHeld, PortLookup, Take, CanDrop;
    HeldKept(s, Next(s, step).value);
  }

  lemma OtherKeepsHeld(s: Sys, step: Step)
    requires Shape(s) && SocksHeld(s) && Next(s, step).Some?
    requires step.HashPublish? || step.CallbackRun? || step.CallbackPut?
             || step.WorkStart? || step.WorkReadCount? || step.WorkReadKey? || step.WorkFlip?
    ensures SocksHeld(Next(s, step).value)
  {
    hide SocksHeld, PortLookup, HashAdd, Linked, Drop, GraceOver;
    HeldKept(s, Next(s, step).value);
  }

  lemma TouchKeepsHeld(s: Sys, l: nat, r: nat, now: nat)
    requires Shape(s) && SocksHeld(s)
    ensures SocksHeld(Next(s, TxTouch(l, r, now)).value)
  {
    hide SocksHeld, ChainFind;
    HeldKept(s, Next(s, TxTouch(l, r, now)).value);
  }

  lemma StepKeepsHeld(s: Sys, step: Step)
    requires Inv(s) && SocksHeld(s) && Next(s, step).Some? && Waits(s, step)
    ensures SocksHeld(Next(s, step).value)
  {
    if step.TimerFire? {
      ExpireKeepsHeld(s, step.i);
      hide Inv, SocksHeld, DoExpire;
    } else {
      assert Shape(s);
      hide Inv, SocksHeld, Next, Waits;
      if step.DropRefs? {
        DropKeepsHeld(s, step.t);
      } else if step.AddLock? {
        AddLockKeepsHeld(s, step.t, step.now);
      } else if step.ReaderLoadSk? {
        LoadSkKeepsHeld(s, step.r);
      } else if step.ReaderTestSet? {
        TestSetKeepsHeld(s, step.r);
      } else if step.LocalPublish? {
        PublishKeepsHeld(s, step);
      } else if IsDevStep(step) {
        DevKeepsHeld(s, step);
      } else if IsReaderStep(step) {
        ReaderKeepsHeld(s, step);
      } else if step.AddStart? || step.ActiveInc? || step.ActiveDec? || step.Schedule? || step.TxUse? {
        ThreadKeepsHeld(s, step);
      } else if step.TxTouch? {
        TouchKeepsHeld(s, step.lport, step.rport, step.now);
      } else {
        OtherKeepsHeld(s, step);
      }
    }
  }

  /**
   If each socket is put only after the readers present at its session's end have left, readers mark only sockets the
   module holds, in every run.
   */
  lemma {:induction false} WaitingMakesMarksSafe(steps: seq<Step>)
    requires Run(steps).Some? && AlwaysWaits(steps)
    ensures SocksHeld(Run(steps).value) && MarksOk(Run(steps).value) && !Run(steps).value.staleMark
    decreases |steps|
  {
    RunKeepsInv(steps);
    if |steps| > 0 {
      var init := steps[..|steps| - 1];
      hide Next, Inv, SocksHeld, MarksOk, Waits;
      WaitingMakesMarksSafe(init);
      RunKeepsInv(init);
      StepKeepsHeld(Run(init).value, steps[|steps| - 1]);
      InvShape(Run(init).value);
      StepKeepsMarks(Run(init).value, steps[|steps| - 1]);
    } else {
      hide Inv;
    }
    HeldMeansOut(Run(steps).value);
  }

  lemma InvShape(s: Sys)
    requires Inv(s)
    ensures Shape(s)
  {
  }

  /** What the two runs need of a state in which all but slot 0 is free. */
  datatype View = View(x: Slot, readers: seq<Reader>, threads: seq<Thread>, active: int, socks: multiset<nat>,
                       leaked: seq<nat>)

  ghost predicate Looks(o: Option<Sys>, v: View) {
    && o.Some? && Inv(o.value) && Shape(o.value)
    && o.value.tbl.slots[0] == v.x && (forall i :: 1 <= i < MAX_NUM ==> o.value.tbl.slots[i] == FREE_SLOT)
    && o.value.readers == v.readers && o.value.threads == v.threads && o.value.active == v.active
    && o.value.socks == v.socks && o.value.leaked == v.leaked
  }

  lemma LooksInit()
    ensures Looks(Some(Init()), View(FREE_SLOT, [], [], 0, multiset{}, []))
  {
    InitInv();
    hide Inv;
  }

  lemma LooksStep(s: Sys, step: Step)
    requires Inv(s) && Next(s, step).Some?
    ensures Inv(Next(s, step).value) && Shape(Next(s, step).value)
  {
    StepKeepsInv(s, step);
    hide Next;
  }

  lemma ThenAddStart(o: Option<Sys>, v: View, l: nat, r: nat, sk: Option<nat>)
    requires Looks(o, v)
    ensures Looks(Then(o, AddStart(l, r, sk, None)),
                  v.(threads := v.threads + [AddHeld(l, r, sk, None)], socks := Take(v.socks, sk)))
  {
    hide Inv;
    LooksStep(o.value, AddStart(l, r, sk, None));
  }

  /** The lock-held body takes slot 0, and overwrites whatever device is stranded there. */
  lemma ThenAddLock(o: Option<Sys>, v: View, t: nat, now: nat)
    requires Looks(o, v) && Reusable(v.x) && t < |v.threads| && v.threads[t].AddHeld?
    ensures var th := v.threads[t];
            Looks(Then(o, AddLock(t, now)),
                  v.(x := FreshSlot(v.x, th.lport, th.rport, th.sk, th.dst, now), threads := v.threads[t := AddDone],
                     leaked := Overwriting(v.leaked, v.x.dev)))
  {
    hide Inv, HashAdd, Linked;
    LooksStep(o.value, AddLock(t, now));
    assert FreeFrom(o.value.tbl.slots, 0) == Some(0);
  }

  lemma ThenActiveInc(o: Option<Sys>, v: View, t: nat)
    requires Looks(o, v) && v.active == 0 && t < |v.threads| && v.threads[t].AddDone?
    ensures Looks(Then(o, ActiveInc(t)), v.(threads := v.threads[t := MustSync(None, None, {})], active := 1))
  {
    hide Inv;
    LooksStep(o.value, ActiveInc(t));
  }

  lemma ThenTimerFire(o: Option<Sys>, v: View, now: nat)
    requires Looks(o, v) && v.x.valid && v.x.dev.None? && now >= v.x.lastTx + EXPIRE_TIME
    ensures Looks(Then(o, TimerFire(0, now)),
                  v.(x := ExpiredSlot(v.x), threads := v.threads + [Expired(v.x.sk, v.x.txDst, ActiveReaders(v.readers))]))
  {
    hide Inv, HashDel;
    LooksStep(o.value, TimerFire(0, now));
  }

  /** The timer's context up to the release of its socket. */
  lemma ThenRelease(o: Option<Sys>, v: View, t: nat)
    requires Looks(o, v) && v.active == 1 && t < |v.threads| && v.threads[t].Expired? && v.threads[t].dst.None?
    ensures var sk := v.threads[t].sk;
            Looks(Then(Then(Then(o, ActiveDec(t)), Schedule(t)), DropRefs(t)),
                  v.(threads := v.threads[t := Finished], active := 0, socks := Drop(v.socks, sk)))
  {
    hide Inv, Drop;
    var s1 := Then(o, ActiveDec(t));
    LooksStep(o.value, ActiveDec(t));
    assert Looks(s1, v.(threads := v.threads[t := MustSync(v.threads[t].sk, None, v.threads[t].inside)], active := 0));
    var s2 := Then(s1, Schedule(t));
    LooksStep(s1.value, Schedule(t));
    assert Looks(s2, v.(threads := v.threads[t := Dropping(v.threads[t].sk, None, v.threads[t].inside)], active := 0));
    LooksStep(s2.value, DropRefs(t));
  }

  lemma ThenReaderEnter(o: Option<Sys>, v: View)
    requires Looks(o, v)
    ensures Looks(Then(o, ReaderEnter), v.(readers := v.readers + [Entered]))
  {
    hide Inv;
    LooksStep(o.value, ReaderEnter);
  }

  lemma ThenLocalLookup(o: Option<Sys>, v: View, r: nat, lport: nat, rport: nat)
    requires Looks(o, v) && r < |v.readers| && v.readers[r].Entered? && PortMatch(v.x, lport, rport)
    ensures Looks(Then(o, LocalLookup(r, lport, rport)), v.(readers := v.readers[r := Seen(0)]))
  {
    assert IndexOk(o.value.tbl);
    hide Inv, IndexOk, PortLookup;
    LooksStep(o.value, LocalLookup(r, lport, rport));
    PortLookupIsScan(o.value.tbl, lport, rport);
    assert PortMatch(o.value.tbl.slots[0], lport, rport);
  }

  lemma ThenLocalPublish(o: Option<Sys>, v: View, r: nat, dev: nat)
    requires Looks(o, v) && r < |v.readers| && v.readers[r] == Seen(0) && v.x.dev.None?
    ensures Looks(Then(o, LocalPublish(r, dev, false, false, false)),
                  v.(x := v.x.(dev := Some(dev)), readers := v.readers[r := Holding(None)]))
  {
    hide Inv;
    LooksStep(o.value, LocalPublish(r, dev, false, false, false));
  }

  lemma ThenHashPublish(o: Option<Sys>, v: View, hash: nat)
    requires Looks(o, v) && CanStamp(v.x) && hash != 0
    ensures Looks(Then(o, HashPublish(0, hash)), v.(x := v.x.(hash := hash)))
  {
    hide Inv, HashAdd, Linked;
    LooksStep(o.value, HashPublish(0, hash));
  }

  lemma ThenReaderLookup(o: Option<Sys>, v: View, r: nat, hash: nat)
    requires Looks(o, v) && r < |v.readers| && v.readers[r].Entered? && HashMatch(v.x, hash) && hash != 0
    ensures Looks(Then(o, ReaderLookup(r, hash)), v.(readers := v.readers[r := Found(0)]))
  {
    assert IndexOk(o.value.tbl);
    hide Inv, IndexOk, HashLookup;
    LooksStep(o.value, ReaderLookup(r, hash));
    HashLookupIsScan(o.value.tbl, hash);
    assert HashMatch(o.value.tbl.slots[0], hash);
  }

  lemma ThenReaderLoadSk(o: Option<Sys>, v: View, r: nat)
    requires Looks(o, v) && r < |v.readers| && v.readers[r] == Found(0) && v.x.sk.Some?
    ensures Looks(Then(o, ReaderLoadSk(r)), v.(readers := v.readers[r := SkLoaded(0, v.x.sk.value)]))
  {
    hide Inv;
    LooksStep(o.value, ReaderLoadSk(r));
  }

  lemma ThenReaderTestSet(o: Option<Sys>, v: View, r: nat)
    requires Looks(o, v) && r < |v.readers| && v.readers[r].SkLoaded? && v.readers[r].slot == 0 && !v.x.skipCopy
    ensures Looks(Then(o, ReaderTestSet(r)),
                  v.(x := v.x.(skipCopy := true), readers := v.readers[r := Touching(0, v.readers[r].sk)]))
  {
    hide Inv;
    LooksStep(o.value, ReaderTestSet(r));
  }

  // ---------------------------------------------------------------- two runs that go wrong

  lemma RunExtends(steps: seq<Step>, step: Step)
    ensures Run(steps + [step]) == Then(Run(steps), step)
  {
    assert (steps + [step])[..|steps|] == steps;
  }

  const STARTED: View :=
    View(Slot(true, false, false, false, 1, 2, 0, 0, Some(7), None, None, None), [], [MustSync(None, None, {})], 1,
         multiset{7}, [])

  const ADDING: seq<Step> := [AddStart(1, 2, Some(7), None), AddLock(0, 0), ActiveInc(0)]

  lemma SessionStarts()
    ensures Looks(Run(ADDING), STARTED)
  {
    hide Looks, Then, Run, Inv;
    RunEmpty();
    LooksInit();
    var v0 := View(FREE_SLOT, [], [], 0, multiset{}, []);
    ThenAddStart(Run([]), v0, 1, 2, Some(7));
    RunExtends([], ADDING[0]);
    var s1, v1 := [ADDING[0]], v0.(threads := v0.threads + [AddHeld(1, 2, Some(7), None)], socks := Take(v0.socks, Some(7)));
    assert [] + [ADDING[0]] == s1;
    ThenAddLock(Run(s1), v1, 0, 0);
    RunExtends(s1, ADDING[1]);
    var s2, v2 := s1 + [ADDING[1]], v1.(x := STARTED.x, threads := v1.threads[0 := AddDone]);
    assert Looks(Run(s2), v2);
    ThenActiveInc(Run(s2), v2, 0);
    RunExtends(s2, ADDING[2]);
    assert ADDING == s2 + [ADDING[2]];
    assert v2.(threads := v2.threads[0 := MustSync(None, None, {})], active := 1) == STARTED;
  }

  lemma RunEmpty()
    ensures Run([]) == Some(Init())
  {
  }

  lemma LooksMeans(o: Option<Sys>, v: View)
    requires Looks(o, v)
    ensures o.Some? && o.value.readers == v.readers && o.value.threads == v.threads
    ensures o.value.leaked == v.leaked && o.value.socks == v.socks && Shape(o.value)
  {
  }

  /** The session ends between LOCAL_IN's lookup and its publish. */
  const STRANDING: seq<Step> :=
    ADDING + [ReaderEnter] + [LocalLookup(0, 1, 2)] + [TimerFire(0, EXPIRE_TIME)] + [LocalPublish(0, 5, false, false, false)]

  const STRANDED: View :=
    View(Slot(false, false, false, false, 1, 2, 0, 0, None, Some(5), None, None), [Holding(None)],
         [MustSync(None, None, {}), Expired(Some(7), None, {0})], 1, multiset{7}, [])

  lemma LatePublishStrands()
    ensures Looks(Run(STRANDING), STRANDED)
  {
    hide Looks, Then, Run, Inv;
    SessionStarts();
    ThenReaderEnter(Run(ADDING), STARTED);
    RunExtends(ADDING, ReaderEnter);
    var s4, v4 := ADDING + [ReaderEnter], STARTED.(readers := STARTED.readers + [Entered]);
    ThenLocalLookup(Run(s4), v4, 0, 1, 2);
    RunExtends(s4, LocalLookup(0, 1, 2));
    var s5, v5 := s4 + [LocalLookup(0, 1, 2)], v4.(readers := v4.readers[0 := Seen(0)]);
    ThenTimerFire(Run(s5), v5, EXPIRE_TIME);
    RunExtends(s5, TimerFire(0, EXPIRE_TIME));
    assert ActiveReaders(v5.readers) == {0};
    var s6, v6 := s5 + [TimerFire(0, EXPIRE_TIME)],
                  v5.(x := ExpiredSlot(v5.x), threads := v5.threads + [Expired(Some(7), None, {0})]);
    ThenLocalPublish(Run(s6), v6, 0, 5);
    RunExtends(s6, LocalPublish(0, 5, false, false, false));
    assert v6.(x := v6.x.(dev := Some(5)), readers := v6.readers[0 := Holding(None)]) == STRANDED;
  }

  /** Then its slot is taken again. */
  const LEAKING: seq<Step> := STRANDING + [AddStart(3, 4, None, None)] + [AddLock(2, 200)]

  /** A device published late is leaked. */
  lemma LatePublishLeaks()
    ensures Run(LEAKING).Some? && Run(LEAKING).value.leaked == [5] && !PublishesInTime(LEAKING)
  {
    hide Looks, Then, Run, Inv, PublishesInTime;
    LatePublishStrands();
    ThenAddStart(Run(STRANDING), STRANDED, 3, 4, None);
    RunExtends(STRANDING, AddStart(3, 4, None, None));
    var s8, v8 := STRANDING + [AddStart(3, 4, None, None)], STRANDED.(threads := STRANDED.threads + [AddHeld(3, 4, None, None)]);
    ThenAddLock(Run(s8), v8, 2, 200);
    RunExtends(s8, AddLock(2, 200));
    LooksMeans(Run(LEAKING), v8.(x := FreshSlot(v8.x, 3, 4, None, None, 200), threads := v8.threads[2 := AddDone],
                                 leaked := Overwriting([], Some(5))));
    NothingLeaksIffPublishesInTime(LEAKING);
  }

  /** The session ends between prepare_gro's test of the flag and its write of the mark. */
  const RACING: seq<Step> :=
    ADDING + [HashPublish(0, 9)] + [ReaderEnter] + [ReaderLookup(0, 9)] + [ReaderLoadSk(0)] + [ReaderTestSet(0)]
    + [TimerFire(0, EXPIRE_TIME)]

  const RACED: View :=
    View(Slot(false, false, false, true, 1, 2, 0, 0, None, None, None, None), [Touching(0, 7)],
         [MustSync(None, None, {}), Expired(Some(7), None, {0})], 1, multiset{7}, [])

  lemma SessionEndsUnderReader()
    ensures Looks(Run(RACING), RACED)
  {
    hide Looks, Then, Run, Inv;
    SessionStarts();
    ThenHashPublish(Run(ADDING), STARTED, 9);
    RunExtends(ADDING, HashPublish(0, 9));
    var s4, v4 := ADDING + [HashPublish(0, 9)], STARTED.(x := STARTED.x.(hash := 9));
    ThenReaderEnter(Run(s4), v4);
    RunExtends(s4, ReaderEnter);
    var s5, v5 := s4 + [ReaderEnter], v4.(readers := v4.readers + [Entered]);
    ThenReaderLookup(Run(s5), v5, 0, 9);
    RunExtends(s5, ReaderLookup(0, 9));
    var s6, v6 := s5 + [ReaderLookup(0, 9)], v5.(readers := v5.readers[0 := Found(0)]);
    ThenReaderLoadSk(Run(s6), v6, 0);
    RunExtends(s6, ReaderLoadSk(0));
    var s7, v7 := s6 + [ReaderLoadSk(0)], v6.(readers := v6.readers[0 := SkLoaded(0, 7)]);
    ThenReaderTestSet(Run(s7), v7, 0);
    RunExtends(s7, ReaderTestSet(0));
    var s8, v8 := s7 + [ReaderTestSet(0)], v7.(x := v7.x.(skipCopy := true), readers := v7.readers[0 := Touching(0, 7)]);
    ThenTimerFire(Run(s8), v8, EXPIRE_TIME);
    RunExtends(s8, TimerFire(0, EXPIRE_TIME));
    assert ActiveReaders(v8.readers) == {0};
    assert v8.(x := ExpiredSlot(v8.x), threads := v8.threads + [Expired(Some(7), None, {0})]) == RACED;
  }

  /** The timer releases the socket first. */
  const MARKING: seq<Step> := RACING + [ActiveDec(1)] + [Schedule(1)] + [DropRefs(1)] + [ReaderWriteMark(0)]

  /** The mark is written to a socket the module no longer holds. */
  lemma MarkAfterRelease()
    ensures Run(MARKING).Some? && Run(MARKING).value.staleMark && !NeverEndangered(MARKING)
  {
    hide Looks, Then, Run, Inv, NeverEndangered;
    SessionEndsUnderReader();
    ThenRelease(Run(RACING), RACED, 1);
    RunExtends(RACING, ActiveDec(1));
    RunExtends(RACING + [ActiveDec(1)], Schedule(1));
    RunExtends(RACING + [ActiveDec(1)] + [Schedule(1)], DropRefs(1));
    var s12 := RACING + [ActiveDec(1)] + [Schedule(1)] + [DropRefs(1)];
    RunExtends(s12, ReaderWriteMark(0));
    LooksMeans(Run(s12), RACED.(threads := RACED.threads[1 := Finished], active := 0, socks := Drop(multiset{7}, Some(7))));
    StaleWrite(Run(s12));
    if NeverEndangered(MARKING) { MarksAreSafe(MARKING); }
  }

  lemma StaleWrite(o: Option<Sys>)
    requires o.Some? && Shape(o.value) && o.value.readers == [Touching(0, 7)] && 7 !in o.value.socks
    ensures Then(o, ReaderWriteMark(0)).Some? && Then(o, ReaderWriteMark(0)).value.staleMark
  {
  }

  // ---------------------------------------------------------------- references

  /**
   In every run, a reader about to take its own reference on a device it loaded does so while the
   module's reference is still out: in the slot, with a callback that waits for it, or leaked.
   */
  lemma ReadersNeverHoldAReleasedDevice(steps: seq<Step>, r: nat)
    requires Run(steps).Some? && r < |Run(steps).value.readers| && Run(steps).value.readers[r].Loaded?
    ensures var s := Run(steps).value;
            var rd := s.readers[r];
            && rd.dev in s.devs
            && rd.slot < |s.tbl.slots| && rd.slot < |s.queued|
            && (|| s.tbl.slots[rd.slot].dev == Some(rd.dev)
                || (s.tbl.slots[rd.slot].pending == Some(rd.dev) && Then(Some(s), CallbackRun(rd.slot)).None?)
                || rd.dev in s.leaked)
  {
    RunKeepsInv(steps);
    var s := Run(steps).value;
    hide Run, IndexOk, SlotsOk, ReadersOk, SocksOk, DstsOk, DevsOk, CountOk, LateOk, KeyOk;
    HoldIsSafe(s, r);
    var rd := s.readers[r];
    if s.tbl.slots[rd.slot].dev != Some(rd.dev) && rd.dev !in s.leaked {
      assert r in s.queued[rd.slot].value && Active(s.readers[r]);
      assert !GraceOver(s.readers, s.queued[rd.slot].value);
    }
  }

  /** Conservation in every run: a reference is out exactly as often as something accounts for it. */
  lemma ReferencesAreAccountedFor(steps: seq<Step>, v: nat)
    requires Run(steps).Some?
    ensures var s := Run(steps).value;
            && s.socks[v] == Refs(s.tbl.slots, SlotSk, v) + Refs(s.threads, ThreadSk, v)
            && s.dsts[v] == Refs(s.tbl.slots, SlotDst, v) + Refs(s.threads, ThreadDst, v)
            && s.devs[v] == Refs(s.tbl.slots, SlotDev, v) + Refs(s.tbl.slots, SlotPending, v)
                            + Refs(s.threads, ThreadDev, v) + Refs(s.readers, ReaderDev, v) + Refs(s.leaked, Itself, v)
            && (PublishesInTime(steps) ==> Refs(s.leaked, Itself, v) == 0)
  {
    RunKeepsInv(steps);
    NothingLeaksIffPublishesInTime(steps);
    hide Run, IndexOk, SlotsOk, ReadersOk, CountOk, LateOk, KeyOk, PublishesInTime;
  }

  /** Nothing in flight and no session left. */
  ghost predicate Quiet(s: Sys) {
    && (forall t :: 0 <= t < |s.threads| ==> s.threads[t].Finished?)
    && (forall r :: 0 <= r < |s.readers| ==> s.readers[r].Gone?)
    && (forall i :: 0 <= i < |s.queued| ==> s.queued[i].None?)
    && (forall i :: 0 <= i < |s.tbl.slots| ==> !s.tbl.slots[i].valid)
  }

  /**
   Once the last session and its callbacks are gone, every socket and route reference has been
   released, and every device reference exactly if each publish was in time.
   */
  lemma QuietMeansNothingHeld(steps: seq<Step>)
    requires Run(steps).Some? && Quiet(Run(steps).value)
    ensures var s := Run(steps).value;
            && s.socks == multiset{} && s.dsts == multiset{} && s.active == 0
            && (s.devs == multiset{} <==> PublishesInTime(steps))
  {
    RunKeepsInv(steps);
    LateIsCounted(steps);
    var s := Run(steps).value;
    hide Run, PublishesInTime, IndexOk, ReadersOk, KeyOk;
    QuietHoldsNothingElse(s);
    if s.late == 0 {
      NothingStranded(s);
    } else {
      SomethingStranded(s);
    }
  }

  lemma QuietHoldsNothingElse(s: Sys)
    requires Inv(s) && Quiet(s)
    ensures s.socks == multiset{} && s.dsts == multiset{} && s.active == 0
    ensures forall v: nat :: s.devs[v] == Refs(s.tbl.slots, SlotDev, v) + Refs(s.leaked, Itself, v)
  {
    hide IndexOk, ReadersOk, KeyOk, LateOk;
    forall i | 0 <= i < MAX_NUM
      ensures SlotOk(s.tbl.slots[i], s.queued[i].Some?)
    {
    }
    forall v: nat
      ensures s.socks[v] == s.dsts[v] == 0
      ensures s.devs[v] == Refs(s.tbl.slots, SlotDev, v) + Refs(s.leaked, Itself, v)
    {
      RefsNone(s.tbl.slots, SlotSk, v);
      RefsNone(s.tbl.slots, SlotDst, v);
      RefsNone(s.tbl.slots, SlotPending, v);
      RefsNone(s.threads, ThreadSk, v);
      RefsNone(s.threads, ThreadDst, v);
      RefsNone(s.threads, ThreadDev, v);
      RefsNone(s.readers, ReaderDev, v);
    }
    CountNone(s.tbl.slots, IsLive);
    CountNone(s.threads, IsAddDone);
    CountNone(s.threads, IsExpired);
    assert forall v: nat :: v !in s.socks && v !in s.dsts;
  }

  lemma NothingStranded(s: Sys)
    requires LateOk(s.late, s.tbl.slots, s.leaked) && s.late == 0
    requires forall i :: 0 <= i < |s.tbl.slots| ==> !s.tbl.slots[i].valid
    requires forall v: nat :: s.devs[v] == Refs(s.tbl.slots, SlotDev, v) + Refs(s.leaked, Itself, v)
    ensures s.devs == multiset{}
  {
    forall i | 0 <= i < |s.tbl.slots|
      ensures s.tbl.slots[i].dev.None?
    {
      if s.tbl.slots[i].dev.Some? { CountAtLeastOne(s.tbl.slots, i, IsStranded); }
    }
    forall v: nat
      ensures s.devs[v] == 0
    {
      RefsNone(s.tbl.slots, SlotDev, v);
    }
    assert forall v: nat :: v !in s.devs;
  }

  lemma SomethingStranded(s: Sys)
    requires LateOk(s.late, s.tbl.slots, s.leaked) && s.late > 0
    requires forall v: nat :: s.devs[v] == Refs(s.tbl.slots, SlotDev, v) + Refs(s.leaked, Itself, v)
    ensures s.devs != multiset{}
  {
    if Count(s.tbl.slots, IsStranded) > 0 {
      var i := CountPositive(s.tbl.slots, IsStranded);
      RefsPositive(s.tbl.slots, i, SlotDev, s.tbl.slots[i].dev.value);
      assert s.devs[s.tbl.slots[i].dev.value] > 0;
    } else {
      RefsPositive(s.leaked, 0, Itself, s.leaked[0]);
      assert s.devs[s.leaked[0]] > 0;
    }
  }

  /** In every run, both lookups find a session exactly when a scan of the table would. */
  lemma LookupsAreScans(steps: seq<Step>, lport: nat, rport: nat, hash: nat)
    requires Run(steps).Some?
    ensures var t := Run(steps).value.tbl;
            && |t.ports| == BUCKETS && |t.hashes| == BUCKETS
            && (PortLookup(t, lport, rport).Some? <==>
                  exists i :: 0 <= i < |t.slots| && t.slots[i].valid && t.slots[i].lport == lport && t.slots[i].rport == rport)
            && (HashLookup(t, hash).Some? <==> hash != 0 && exists i :: 0 <= i < |t.slots| && t.slots[i].valid && t.slots[i].hash == hash)
  {
    RunKeepsInv(steps);
    var t := Run(steps).value.tbl;
    hide Run, IndexOk, SlotsOk, ReadersOk, SocksOk, DstsOk, DevsOk, CountOk, LateOk, KeyOk, PortLookup, HashLookup;
    PortLookupIsScan(t, lport, rport);
    HashLookupIsScan(t, hash);
    assert forall i :: 0 <= i < |t.slots| ==>
             && (PortMatch(t.slots[i], lport, rport) <==> t.slots[i].valid && t.slots[i].lport == lport && t.slots[i].rport == rport)
             && (HashMatch(t.slots[i], hash) <==> t.slots[i].valid && t.slots[i].hash == hash);
  }

  /**
   The static key is never lost out of step: unless a sync is pending, running, or about to be
   scheduled, the key says whether the counter is positive; and with no add or expiry between its
   table update and its counter update, that is whether any session is live.
   */
  lemma KeyNeverLost(steps: seq<Step>)
    requires Run(steps).Some?
    ensures var s := Run(steps).value;
            && (s.key != (s.active > 0) ==> s.syncPending || !s.worker.Idle? || exists t :: 0 <= t < |s.threads| && s.threads[t].MustSync?)
            && (Count(s.threads, IsAddDone) == 0 && Count(s.threads, IsExpired) == 0 ==>
                  (s.active > 0 <==> exists i :: 0 <= i < |s.tbl.slots| && s.tbl.slots[i].valid))
  {
    RunKeepsInv(steps);
    var s := Run(steps).value;
    hide Run, IndexOk, SlotsOk, ReadersOk, SocksOk, DstsOk, DevsOk;
    if Count(s.threads, IsMustSync) > 0 {
      var t := CountPositive(s.threads, IsMustSync);
    }
    if Count(s.tbl.slots, IsLive) > 0 {
      var i := CountPositive(s.tbl.slots, IsLive);
    } else if i :| 0 <= i < |s.tbl.slots| && s.tbl.slots[i].valid {
      CountAtLeastOne(s.tbl.slots, i, IsLive);
    }
  }
}
