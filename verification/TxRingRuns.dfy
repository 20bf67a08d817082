/**
 Runs of the transmit ring: packets are sent, and the completion code of the Ethernet driver unmaps a finished
 entry and appends it to the tail of the free list.
 */
module TxRingRuns {
  import opened Wrappers
  import opened TxRing

  /** The queue, and the entries handed to the hardware, oldest first. */
  datatype Sys = Sys(q: Queue, flight: seq<nat>)

  datatype Op =
    | Send(path: Path, p: Packet, maps: Maps, kick: bool, freeThr: nat)
    | Complete(k: nat)

  predicate ValidOp(op: Op) { op.Send? ==> 0 < |op.p.frags| == |op.maps| }

  function Drop(s: seq<nat>, k: nat): seq<nat>
    requires k < |s|
  {
    s[..k] + s[k + 1..]
  }

  predicate Below(s: seq<nat>, n: nat) { forall i :: 0 <= i < |s| ==> s[i] < n }

  /** Every entry is either free or in flight, once; the count is of those in flight, and one is always free. */
  ghost predicate Partition(s: Sys) {
    && Distinct(s.q.free + s.flight)
    && Below(s.q.free, |s.q.entry|) && Below(s.flight, |s.q.entry|)
    && |s.q.desc| == |s.q.entry| == |s.q.free| + |s.flight|
    && s.q.queued == |s.flight| && (|s.q.entry| > 0 ==> |s.q.free| > 0)
  }

  /** Moreover the mappings that exist are those of the entries in flight. */
  ghost predicate Inv(s: Sys) { Partition(s) && forall a :: s.q.live[a] == At(s.q.entry, s.flight, a) }

  function Apply(s: Sys, op: Op): Sys
    requires ValidOp(op) && Shaped(s.q) && |s.q.free| + s.q.queued == |s.q.entry|
    requires Below(s.flight, |s.q.entry|)
  {
    match op
    case Send(path, p, maps, kick, freeThr) =>
      var (q, status) := Enqueue(s.q, path, p, maps, kick, freeThr);
      Sys(q, if status == Sent then s.flight + s.q.free[..|maps|] else s.flight)
    case Complete(k) =>
      if k < |s.flight| && s.q.queued > 0 then
        var e := s.flight[k];
        Sys(s.q.(free := s.q.free + [e], queued := s.q.queued - 1, entry := s.q.entry[e := Entry(None, 0, 0)],
                 live := s.q.live - multiset{s.q.entry[e].addr}),
            Drop(s.flight, k))
      else s
  }

  // ---------------------------------------------------------------- one step

  /** b and a hold the same elements: position i of b is position f(i) of a. */
  lemma DistinctBy(a: seq<nat>, b: seq<nat>, f: int -> int)
    requires Distinct(a) && |a| == |b|
    requires forall i :: 0 <= i < |b| ==> 0 <= f(i) < |a| && b[i] == a[f(i)]
    requires forall i, j :: 0 <= i < j < |b| ==> f(i) != f(j)
    ensures Distinct(b)
  {
    forall i, j | 0 <= i < j < |b|
      ensures b[i] != b[j]
    {
      assert b[i] == a[f(i)] && b[j] == a[f(j)] && f(i) != f(j);
    }
  }

  lemma FreeIsDistinct(s: Sys)
    requires Partition(s)
    ensures Distinct(s.q.free)
  {
    var all := s.q.free + s.flight;
    assert forall i :: 0 <= i < |s.q.free| ==> s.q.free[i] == all[i];
  }

  lemma MoveToFlight(free: seq<nat>, flight: seq<nat>, n: nat, bound: nat)
    requires n <= |free| && Distinct(free + flight) && Below(free, bound) && Below(flight, bound)
    ensures Distinct(free[n..] + (flight + free[..n])) && Below(free[n..], bound) && Below(flight + free[..n], bound)
  {
    DistinctBy(free + flight, free[n..] + (flight + free[..n]),
               i => if i < |free| - n + |flight| then i + n else i - (|free| - n + |flight|));
  }

  lemma Rotate(free: seq<nat>, flight: seq<nat>, k: nat, bound: nat)
    requires k <= |free| && Distinct(free + flight) && Below(free, bound)
    ensures Distinct(free[k..] + free[..k] + flight) && Below(free[k..] + free[..k], bound)
  {
    DistinctBy(free + flight, free[k..] + free[..k] + flight,
               i => if i < |free| - k then i + k else if i < |free| then i - (|free| - k) else i);
  }

  lemma MoveToFree(free: seq<nat>, flight: seq<nat>, k: nat, bound: nat)
    requires k < |flight| && Distinct(free + flight) && Below(free, bound) && Below(flight, bound)
    ensures Distinct(free + [flight[k]] + Drop(flight, k))
    ensures Below(free + [flight[k]], bound) && Below(Drop(flight, k), bound)
  {
    var f := |free|;
    DistinctBy(free + flight, free + [flight[k]] + Drop(flight, k),
               i => if i < f then i else if i == f then f + k else if i <= f + k then i - 1 else i);
  }

  lemma SendKeepsInv(s: Sys, op: Op)
    requires Inv(s) && ValidOp(op) && op.Send?
    ensures Inv(Apply(s, op))
  {
    var (_, status) := Enqueue(s.q, op.path, op.p, op.maps, op.kick, op.freeThr);
    if status == Sent {
      SentKeepsInv(s, op);
    } else if s.q.queued + |op.maps| < |s.q.entry| {
      FailedKeepsInv(s, op);
    } else {
      RefusedChangesNothing(s.q, op.path, op.p, op.maps, op.kick, op.freeThr);
    }
  }

  lemma SentKeepsInv(s: Sys, op: Op)
    requires Inv(s) && ValidOp(op) && op.Send?
    requires Enqueue(s.q, op.path, op.p, op.maps, op.kick, op.freeThr).1 == Sent
    ensures Inv(Apply(s, op))
  {
    var q, n := s.q, |op.maps|;
    FreeIsDistinct(s);
    SentFrameReadsBack(q, op.path, op.p, op.maps, op.kick, op.freeThr);
    var q' := Enqueue(q, op.path, op.p, op.maps, op.kick, op.freeThr).0;
    assert Apply(s, op) == Sys(q', s.flight + q.free[..n]);
    hide Enqueue, Apply, At, Distinct, Fetch, Segments;
    MoveToFlight(q.free, s.flight, n, |q.entry|);
    FlightUntouched(s, q', n);
    SentMaps(q, q', s.flight, n);
  }

  lemma SentMaps(q: Queue, q': Queue, flight: seq<nat>, n: nat)
    requires n <= |q.free| && Below(q.free, |q.entry|) && Below(flight, |q.entry|) && |q'.entry| == |q.entry|
    requires forall a :: q'.live[a] == q.live[a] + At(q'.entry, q.free[..n], a)
    requires forall a :: q.live[a] == At(q.entry, flight, a) && At(q'.entry, flight, a) == At(q.entry, flight, a)
    ensures forall a :: q'.live[a] == At(q'.entry, flight + q.free[..n], a)
  {
    forall a: nat
      ensures q'.live[a] == At(q'.entry, flight + q.free[..n], a)
    {
      AtConcat(q'.entry, flight, q.free[..n], a);
    }
  }

  lemma FailedKeepsInv(s: Sys, op: Op)
    requires Inv(s) && ValidOp(op) && op.Send? && s.q.queued + |op.maps| < |s.q.entry|
    requires Enqueue(s.q, op.path, op.p, op.maps, op.kick, op.freeThr).1 != Sent
    ensures Inv(Apply(s, op))
  {
    var q, k := s.q, FailAt(op.maps);
    FreeIsDistinct(s);
    EnqueueOutcome(q, op.path, op.p, op.maps, op.kick, op.freeThr);
    FailedFrameIsUnmapped(q, op.path, op.p, op.maps, op.kick, op.freeThr);
    hide Enqueue, At, Distinct;
    Rotate(q.free, s.flight, k, |q.entry|);
    FlightUntouched(s, Enqueue(q, op.path, op.p, op.maps, op.kick, op.freeThr).0, k);
  }

  lemma RefusedChangesNothing(q: Queue, path: Path, p: Packet, maps: Maps, kick: bool, freeThr: nat)
    requires Shaped(q) && |p.frags| == |maps| && |q.free| + q.queued == |q.entry| <= q.queued + |maps|
    ensures Enqueue(q, path, p, maps, kick, freeThr).0.(stopped := q.stopped) == q
    ensures Enqueue(q, path, p, maps, kick, freeThr).1 != Sent
  {}

  lemma FlightUntouched(s: Sys, q': Queue, n: nat)
    requires Partition(s) && n <= |s.q.free| && |q'.entry| == |s.q.entry|
    requires forall e :: 0 <= e < |s.q.entry| && e !in s.q.free[..n] ==> q'.entry[e] == s.q.entry[e]
    ensures forall a :: At(q'.entry, s.flight, a) == At(s.q.entry, s.flight, a)
  {
    forall i | 0 <= i < |s.flight|
      ensures q'.entry[s.flight[i]] == s.q.entry[s.flight[i]]
    {
      FlightIsNotFree(s, i, n);
    }
    forall a: nat
      ensures At(q'.entry, s.flight, a) == At(s.q.entry, s.flight, a)
    {
      AtFrame(s.q.entry, q'.entry, s.flight, a);
    }
  }

  lemma FlightIsNotFree(s: Sys, i: nat, n: nat)
    requires Partition(s) && i < |s.flight| && n <= |s.q.free|
    ensures s.flight[i] !in s.q.free[..n]
  {
    var all := s.q.free + s.flight;
    assert all[|s.q.free| + i] == s.flight[i];
    forall j | 0 <= j < n
      ensures s.q.free[..n][j] != s.flight[i]
    {
      assert all[j] == s.q.free[j];
    }
  }

  lemma {:induction false} AtDrop(entry: seq<Entry>, s: seq<nat>, k: nat, a: nat)
    requires k < |s| && Below(s, |entry|)
    ensures Below(Drop(s, k), |entry|)
    ensures At(entry, s, a) == At(entry, Drop(s, k), a) + if entry[s[k]].addr == a then 1 else 0
    decreases |s|
  {
    if k == 0 {
      assert Drop(s, 0) == s[1..];
    } else {
      assert Drop(s, k)[1..] == Drop(s[1..], k - 1);
      AtDrop(entry, s[1..], k - 1, a);
    }
  }

  lemma CompleteKeepsInv(s: Sys, k: nat)
    requires Inv(s) && k < |s.flight|
    ensures Inv(Apply(s, Complete(k)))
  {
    var e, rest, s' := s.flight[k], Drop(s.flight, k), Apply(s, Complete(k));
    MoveToFree(s.q.free, s.flight, k, |s.q.entry|);
    OtherFlight(s, k);
    hide Distinct, Drop;
    forall a: nat
      ensures s'.q.live[a] == At(s'.q.entry, rest, a)
    {
      AtDrop(s.q.entry, s.flight, k, a);
      AtFrame(s.q.entry, s'.q.entry, rest, a);
    }
  }

  lemma OtherFlight(s: Sys, k: nat)
    requires Partition(s) && k < |s.flight|
    ensures forall i :: 0 <= i < |Drop(s.flight, k)| ==> Drop(s.flight, k)[i] != s.flight[k]
  {
    var all, f := s.q.free + s.flight, |s.q.free|;
    forall i | 0 <= i < |Drop(s.flight, k)|
      ensures Drop(s.flight, k)[i] != s.flight[k]
    {
      assert all[f + k] == s.flight[k] && all[f + if i < k then i else i + 1] == Drop(s.flight, k)[i];
    }
  }

  // ---------------------------------------------------------------- runs

  function Run(ndesc: nat, ops: seq<Op>): (s: Sys)
    requires forall i :: 0 <= i < |ops| ==> ValidOp(ops[i])
    ensures Inv(s) && |s.q.entry| == ndesc
    decreases |ops|
  {
    if ops == [] then
      InitInv(ndesc);
      Sys(Init(ndesc), [])
    else
      var s := Run(ndesc, ops[..|ops| - 1]);
      StepKeepsInv(s, ops[|ops| - 1]);
      Apply(s, ops[|ops| - 1])
  }

  lemma InitInv(ndesc: nat)
    ensures Inv(Sys(Init(ndesc), []))
  {
    assert Init(ndesc).free + [] == Init(ndesc).free;
  }

  lemma StepKeepsInv(s: Sys, op: Op)
    requires Inv(s) && ValidOp(op)
    ensures Inv(Apply(s, op)) && |Apply(s, op).q.entry| == |s.q.entry|
  {
    match op
    case Send(path, p, maps, kick, freeThr) => SendKeepsInv(s, op);
    case Complete(k) => if k < |s.flight| { CompleteKeepsInv(s, k); }
  }

  /** After any run: the free list has ndesc - queued entries and is never empty, and nothing is used twice. */
  lemma RingsAreAccountedFor(ndesc: nat, ops: seq<Op>)
    requires forall i :: 0 <= i < |ops| ==> ValidOp(ops[i])
    ensures var s := Run(ndesc, ops);
            && |s.q.free| == ndesc - s.q.queued && (ndesc > 0 ==> s.q.queued < ndesc)
            && (forall e :: 0 <= e < ndesc ==> (e in s.q.free <==> e !in s.flight))
            && (forall a :: s.q.live[a] == At(s.q.entry, s.flight, a))
  {
    var s := Run(ndesc, ops);
    hide Run, At, Distinct, Below;
    FreeOrInFlight(s);
  }

  lemma FreeOrInFlight(s: Sys)
    requires Partition(s)
    ensures forall e :: 0 <= e < |s.q.entry| ==> (e in s.q.free <==> e !in s.flight)
  {
    var all := s.q.free + s.flight;
    forall i, j | 0 <= i < |s.q.free| && 0 <= j < |s.flight|
      ensures s.q.free[i] != s.flight[j]
    {
      assert all[i] == s.q.free[i] && all[|s.q.free| + j] == s.flight[j];
    }
    forall e | 0 <= e < |s.q.entry|
      ensures e in s.q.free <==> e !in s.flight
    {
      Covers(all, |s.q.entry|, e);
      hide Distinct, Below;
      var k :| 0 <= k < |all| && all[k] == e;
      assert if k < |s.q.free| then s.q.free[k] == e else s.flight[k - |s.q.free|] == e;
    }
  }

  function Numbers(n: nat): (r: set<nat>)
    ensures |r| == n && forall x :: x in r <==> 0 <= x < n
  {
    if n == 0 then {} else Numbers(n - 1) + {n - 1}
  }

  function Members(s: seq<nat>, k: nat): (r: set<nat>)
    requires k <= |s|
    ensures forall x :: x in r <==> x in s[..k]
  {
    if k == 0 then {} else
      assert s[..k] == s[..k - 1] + [s[k - 1]];
      Members(s, k - 1) + {s[k - 1]}
  }

  lemma {:induction false} MembersCount(s: seq<nat>, k: nat)
    requires Distinct(s) && k <= |s|
    ensures |Members(s, k)| == k
  {
    if k > 0 {
      MembersCount(s, k - 1);
      assert s[k - 1] !in s[..k - 1];
    }
  }

  /** n distinct numbers below n are all of them. */
  lemma Covers(s: seq<nat>, n: nat, e: nat)
    requires Distinct(s) && Below(s, n) && |s| == n && e < n
    ensures e in s
  {
    MembersCount(s, n);
    assert s[..n] == s;
    hide Numbers, Members, Distinct;
    SameSet(Members(s, n), Numbers(n));
  }

  lemma SameSet(a: set<nat>, b: set<nat>)
    requires a <= b && |a| == |b|
    ensures a == b
  {
    assert b == a + (b - a);
  }

  // ---------------------------------------------------------------- the chain

  /** The descriptors of a list are one chain that ends at head. */
  predicate LeadTo(desc: seq<Desc>, list: seq<nat>, head: nat)
    requires Below(list, |desc|)
  {
    && (forall i :: 0 <= i < |list| - 1 ==> desc[list[i]].next == list[i + 1])
    && (|list| > 0 ==> desc[list[|list| - 1]].next == head)
  }

  /** The descriptors in flight are one chain that ends at the head of the free list. */
  ghost predicate Linked(s: Sys)
    requires Partition(s)
  {
    |s.flight| > 0 ==> LeadTo(s.q.desc, s.flight, s.q.free[0])
  }

  /**
   They are linked, and the CPU index stands on the chain: at the head of the free list, or, while packets are
   batched without a kick, at the first entry the hardware has not been told of. So the next packet is put exactly
   where the hardware will look for it.
   */
  ghost predicate Chained(s: Sys)
    requires Partition(s)
  {
    Linked(s) && (|s.q.free| > 0 ==> s.q.cpu == s.q.free[0] || s.q.cpu in s.flight)
  }

  /** Completions come in the order of sending, and only for entries the hardware has been told of. */
  predicate InOrder(s: Sys, op: Op) { op.Complete? && |s.flight| > 0 ==> op.k == 0 && s.q.cpu != s.flight[0] }

  /** The packet fits and one of its fragments after the first cannot be mapped: the branch that rotates the list. */
  predicate FailsLate(s: Sys, op: Op) {
    op.Send? && s.q.queued + |op.maps| < |s.q.entry| && 0 < FailAt(op.maps) < |op.maps|
  }

  /** From a chained ring, a step leaves it chained exactly when no mapping failed after the first fragment. */
  lemma ChainedUnlessFailsLate(s: Sys, op: Op)
    requires Inv(s) && Chained(s) && ValidOp(op) && InOrder(s, op)
    ensures Inv(Apply(s, op))
    ensures Chained(Apply(s, op)) <==> !FailsLate(s, op)
  {
    StepKeepsInv(s, op);
    FreeIsDistinct(s);
    match op
    case Complete(k) => if |s.flight| > 0 { CompleteKeepsChain(s); }
    case Send(path, p, maps, kick, freeThr) =>
      var (q', status) := Enqueue(s.q, path, p, maps, kick, freeThr);
      if status == Sent {
        SentKeepsChain(s, op);
      } else if s.q.queued + |maps| < |s.q.entry| {
        FailureRotates(s, op);
      } else {
        RefusedChangesNothing(s.q, path, p, maps, kick, freeThr);
      }
  }

  lemma CompleteKeepsChain(s: Sys)
    requires Inv(s) && Chained(s) && |s.flight| > 0 && s.q.cpu != s.flight[0]
    ensures Inv(Apply(s, Complete(0))) && Chained(Apply(s, Complete(0)))
  {
    CompleteKeepsInv(s, 0);
    CompleteKeepsLinks(s);
    var s' := Apply(s, Complete(0));
    hide At, Distinct, Below, Linked;
    assert s'.flight == s.flight[1..] && s'.q.free[0] == s.q.free[0];
    if s.q.cpu != s.q.free[0] {
      var i :| 0 <= i < |s.flight| && s.flight[i] == s.q.cpu;
      assert s'.flight[i - 1] == s.q.cpu;
    }
  }

  lemma CompleteKeepsLinks(s: Sys)
    requires Inv(s) && Linked(s) && |s.flight| > 0
    ensures Inv(Apply(s, Complete(0))) && Linked(Apply(s, Complete(0)))
  {
    CompleteKeepsInv(s, 0);
    LeadFromSecond(s.q.desc, s.flight, s.q.free[0]);
    var s' := Apply(s, Complete(0));
    assert s'.flight == s.flight[1..] && s'.q.desc == s.q.desc && s'.q.free[0] == s.q.free[0];
  }

  lemma LeadFromSecond(desc: seq<Desc>, list: seq<nat>, head: nat)
    requires Below(list, |desc|) && |list| > 0 && LeadTo(desc, list, head)
    ensures Below(list[1..], |desc|) && LeadTo(desc, list[1..], head)
  {
    var rest := list[1..];
    forall i | 0 <= i < |rest| - 1
      ensures desc[rest[i]].next == rest[i + 1]
    {
      assert rest[i] == list[i + 1] && desc[list[i + 1]].next == list[i + 2];
    }
  }

  lemma SentKeepsChain(s: Sys, op: Op)
    requires Inv(s) && Chained(s) && ValidOp(op) && op.Send?
    requires Enqueue(s.q, op.path, op.p, op.maps, op.kick, op.freeThr).1 == Sent
    ensures Inv(Apply(s, op)) && Chained(Apply(s, op))
  {
    SentKeepsLinks(s, op);
    FreeIsDistinct(s);
    SentFrameReadsBack(s.q, op.path, op.p, op.maps, op.kick, op.freeThr);
    var s' := Apply(s, op);
    hide Enqueue, At, Distinct, Linked, Inv, Fetch, Segments;
    var m := |s.flight|;
    assert s'.flight[m] == s.q.free[0];
    if s.q.cpu in s.flight {
      var i :| 0 <= i < m && s.flight[i] == s.q.cpu;
      assert s'.flight[i] == s.q.cpu;
    }
  }

  lemma SentKeepsLinks(s: Sys, op: Op)
    requires Inv(s) && Linked(s) && ValidOp(op) && op.Send?
    requires Enqueue(s.q, op.path, op.p, op.maps, op.kick, op.freeThr).1 == Sent
    ensures Inv(Apply(s, op)) && Linked(Apply(s, op))
  {
    StepKeepsInv(s, op);
    FreeIsDistinct(s);
    SentLinks(s, op);
    SentFrameReadsBack(s.q, op.path, op.p, op.maps, op.kick, op.freeThr);
    var s', n := Apply(s, op), |op.maps|;
    assert s'.flight == s.flight + s.q.free[..n] && s'.q.free[0] == s.q.free[n];
    assert s'.q == Enqueue(s.q, op.path, op.p, op.maps, op.kick, op.freeThr).0;
    hide Enqueue, Apply, At, Distinct, Fetch, Segments, LeadTo;
    ChainGrows(s.q.desc, s'.q.desc, s.flight, s.q.free, n);
  }

  /** The new frame's descriptors are linked along the list; those in flight keep their links. */
  lemma SentLinks(s: Sys, op: Op)
    requires Inv(s) && ValidOp(op) && op.Send?
    requires Enqueue(s.q, op.path, op.p, op.maps, op.kick, op.freeThr).1 == Sent
    ensures var q' := Enqueue(s.q, op.path, op.p, op.maps, op.kick, op.freeThr).0;
            && |op.maps| < |s.q.free| && |q'.desc| == |s.q.desc|
            && (forall i :: 0 <= i < |op.maps| ==> q'.desc[s.q.free[i]].next == s.q.free[i + 1])
            && (forall i :: 0 <= i < |s.flight| ==> q'.desc[s.flight[i]] == s.q.desc[s.flight[i]])
  {
    var q, n := s.q, |op.maps|;
    FreeIsDistinct(s);
    EnqueueOutcome(q, op.path, op.p, op.maps, op.kick, op.freeThr);
    FailsHere(op.maps, n);
    var r := Placed(q, op.p, op.maps, n);
    assert Enqueue(q, op.path, op.p, op.maps, op.kick, op.freeThr).0.desc == r.desc;
    PlacedHolds(q, op.p, op.maps, n);
    hide Enqueue, At, Distinct, Placed;
    forall i | 0 <= i < n
      ensures r.desc[q.free[i]].next == q.free[i + 1]
    {
      assert Holds(r, op.p, op.maps, q.free, i);
    }
    forall i | 0 <= i < |s.flight|
      ensures r.desc[s.flight[i]] == q.desc[s.flight[i]]
    {
      FlightIsNotFree(s, i, n);
      forall j | 0 <= j < n
        ensures q.free[j] != s.flight[i]
      {
        assert q.free[j] == q.free[..n][j];
      }
      PlacedKeeps(q, op.p, op.maps, n, s.flight[i]);
    }
  }

  lemma ChainGrows(desc: seq<Desc>, desc': seq<Desc>, flight: seq<nat>, free: seq<nat>, n: nat)
    requires 0 < n < |free| && Below(flight, |desc|) && Below(free, |desc|) && |desc'| == |desc|
    requires |flight| > 0 ==> LeadTo(desc, flight, free[0])
    requires forall i :: 0 <= i < |flight| ==> desc'[flight[i]] == desc[flight[i]]
    requires forall i :: 0 <= i < n ==> desc'[free[i]].next == free[i + 1]
    ensures Below(flight + free[..n], |desc'|) && LeadTo(desc', flight + free[..n], free[n])
  {
    var all, m := flight + free[..n], |flight|;
    forall i | 0 <= i < |all| - 1
      ensures desc'[all[i]].next == all[i + 1]
    {
      if i < m {
        assert all[i] == flight[i];
      } else {
        assert all[i] == free[i - m] && desc'[free[i - m]].next == free[i - m + 1];
      }
    }
    assert all[|all| - 1] == free[n - 1];
  }

  /** A kick brings the CPU index back to the head of the list, so everything sent has been announced. */
  lemma KickAnnouncesAll(s: Sys, op: Op)
    requires Inv(s) && ValidOp(op) && op.Send? && (op.kick || op.path == FastTx)
    requires Enqueue(s.q, op.path, op.p, op.maps, op.kick, op.freeThr).1 == Sent
    ensures var s' := Apply(s, op);
            Inv(s') && |s'.q.free| > 0 && s'.q.cpu == s'.q.free[0] && s'.q.cpu !in s'.flight
  {
    StepKeepsInv(s, op);
    FreeIsDistinct(s);
    SentFrameReadsBack(s.q, op.path, op.p, op.maps, op.kick, op.freeThr);
    var s' := Apply(s, op);
    hide Enqueue, At;
    forall i | 0 <= i < |s'.flight|
      ensures s'.flight[i] != s'.q.free[0]
    {
      FlightIsNotFree(s', i, 1);
    }
  }

  lemma DistinctAt(s: seq<nat>, k: nat)
    requires Distinct(s) && 0 < k < |s|
    ensures s[k] != s[0]
  {}

  /** After a failure at fragment k > 0 the list starts at an entry the hardware will not look at. */
  lemma FailureRotates(s: Sys, op: Op)
    requires Inv(s) && Chained(s) && ValidOp(op) && op.Send? && s.q.queued + |op.maps| < |s.q.entry|
    requires FailAt(op.maps) < |op.maps|
    ensures Inv(Apply(s, op))
    ensures Chained(Apply(s, op)) <==> FailAt(op.maps) == 0
  {
    StepKeepsInv(s, op);
    FreeIsDistinct(s);
    var q, k := s.q, FailAt(op.maps);
    EnqueueOutcome(q, op.path, op.p, op.maps, op.kick, op.freeThr);
    FailedFrameIsUnmapped(q, op.path, op.p, op.maps, op.kick, op.freeThr);
    var s' := Apply(s, op);
    hide Enqueue, At, FailAt, Distinct, Below;
    assert s'.q.free[0] == q.free[k] && (k > 0 ==> q.free[k] != q.free[0]) by {
      if k > 0 { DistinctAt(q.free, k); }
    }
    if k == 0 {
      assert q.free[..k] == [];
    } else if |s.flight| > 0 {
      FlightIsNotFree(s, |s.flight| - 1, k);
      var last := s.flight[|s.flight| - 1];
      assert s.q.desc[last].next == q.free[0] && s'.q.desc[last] == s.q.desc[last];
    }
  }

  /** Runs whose completions come in order and whose mappings fail at most at the first fragment keep one chain. */
  lemma {:induction false} RunsStayChained(ndesc: nat, ops: seq<Op>)
    requires forall i :: 0 <= i < |ops| ==> ValidOp(ops[i])
    requires forall i :: 0 <= i < |ops| ==> InOrder(Run(ndesc, ops[..i]), ops[i]) && !FailsLate(Run(ndesc, ops[..i]), ops[i])
    ensures Chained(Run(ndesc, ops))
    decreases |ops|
  {
    if ops != [] {
      var init := ops[..|ops| - 1];
      forall i | 0 <= i < |init|
        ensures InOrder(Run(ndesc, init[..i]), init[i]) && !FailsLate(Run(ndesc, init[..i]), init[i])
      {
        assert init[..i] == ops[..i];
      }
      RunsStayChained(ndesc, init);
      ChainedUnlessFailsLate(Run(ndesc, init), ops[|ops| - 1]);
    }
  }

  /**
   A reachable ring where a packet fails at its second fragment: entry 0 in flight leads to entry 1, where the CPU
   index stands, but the next packet will start at entry 2.
   */
  lemma LateFailureBreaksChain()
    ensures var one, two := [Frag(0, 60)], [Frag(0, 60), Frag(1, 60)];
            var sent := Send(Transmit, Packet(0, one, []), [Some(10)], true, 0);
            var failed := Send(Transmit, Packet(1, two, []), [Some(20), None], true, 0);
            var s := Run(4, [sent, failed]);
            && Chained(Run(4, [sent])) && FailsLate(Run(4, [sent]), failed)
            && s.flight == [0] && s.q.desc[0].next == 1 == s.q.cpu && s.q.free == [2, 3, 1] && !Chained(s)
  {
    var sent := Send(Transmit, Packet(0, [Frag(0, 60)], []), [Some(10)], true, 0);
    var failed := Send(Transmit, Packet(1, [Frag(0, 60), Frag(1, 60)], []), [Some(20), None], true, 0);
    assert [sent, failed][..1] == [sent];
    FirstSent(sent);
    var s1 := Run(4, [sent]);
    assert Run(4, [sent, failed]) == Apply(s1, failed);
    hide Run;
    SecondFails(s1, failed);
  }

  lemma SecondFails(s: Sys, failed: Op)
    requires Inv(s) && Chained(s) && s.q.free == [1, 2, 3] && s.flight == [0] && s.q.cpu == 1 && s.q.queued == 1
    requires s.q.desc[0].next == 1 && |s.q.entry| == 4
    requires failed == Send(Transmit, Packet(1, [Frag(0, 60), Frag(1, 60)], []), [Some(20), None], true, 0)
    ensures var s' := Apply(s, failed);
            && Inv(s') && FailsLate(s, failed) && !Chained(s')
            && s'.flight == [0] && s'.q.desc[0].next == 1 == s'.q.cpu && s'.q.free == [2, 3, 1]
  {
    FailsHere(failed.maps, 1);
    hide Enqueue, At, Linked, Distinct, Inv, FailAt;
    FreeIsDistinct(s);
    FailedFrameIsUnmapped(s.q, Transmit, failed.p, failed.maps, true, 0);
    FailureRotates(s, failed);
    FlightIsNotFree(s, 0, 1);
    assert [1, 2, 3][1..] + [1, 2, 3][..1] == [2, 3, 1];
  }

  lemma FirstSent(sent: Op)
    requires sent == Send(Transmit, Packet(0, [Frag(0, 60)], []), [Some(10)], true, 0)
    ensures var s := Run(4, [sent]);
            && Inv(s) && Chained(s) && s.q.free == [1, 2, 3] && s.flight == [0] && s.q.cpu == 1 && s.q.queued == 1
            && s.q.desc[0].next == 1 && |s.q.entry| == 4
  {
    FourIdle();
    hide Init, Enqueue, Placed, At, Linked, Distinct, Fetch, Segments, Inv;
    var s0 := Sys(Init(4), []);
    assert [sent][..0] == [] && Run(4, []) == s0;
    FreeIsDistinct(s0);
    EnqueueOutcome(s0.q, Transmit, sent.p, sent.maps, true, 0);
    SentLinks(s0, sent);
    SentFrameReadsBack(s0.q, Transmit, sent.p, sent.maps, true, 0);
    assert [0, 1, 2, 3][..1] == [0] && [0, 1, 2, 3][1..] == [1, 2, 3] && [] + [0] == [0];
    SentKeepsChain(s0, sent);
    assert Run(4, [sent]) == Apply(s0, sent);
  }

  lemma FourIdle()
    ensures var s := Sys(Init(4), []);
            && Inv(s) && Chained(s) && s.q.free == [0, 1, 2, 3] && s.q.queued == 0 && s.q.cpu == 0
            && |s.q.entry| == |s.q.desc| == 4
  {
    InitInv(4);
    hide Distinct, At;
  }
}
