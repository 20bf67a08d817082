/**
 The transmit descriptor ring of arht_dp_api.c: the enqueue part of airoha_eth_transmit_packet (1095-1183),
 qdma_wan_tx (1556-1640) and airoha_eth_fast_tx (2550-2631). Free entries form a list; a packet takes one entry
 per fragment from its head and chains their descriptors by NEXT_ID. If mapping a fragment fails, the entries
 already taken are unmapped and appended to the tail of the list.
 */
module TxRing {
  import opened Wrappers

  const LEN_LIMIT: nat := 0x1_0000 // dma_len and the descriptor's length field are 16 bits wide

  datatype Entry = Entry(skb: Option<nat>, addr: nat, len: nat)

  datatype Desc = Desc(len: nat, more: bool, addr: nat, next: nat, msg: seq<nat>)

  datatype Frag = Frag(data: nat, len: nat)

  /** A packet: the linear part first, then the page fragments, and the message words every descriptor carries. */
  datatype Packet = Packet(skb: nat, frags: seq<Frag>, msg: seq<nat>)

  datatype Path = Transmit | WanTx | FastTx

  datatype Status = Sent | Busy | Dropped

  /** `live` holds the DMA mappings that exist, `cpu` is REG_TX_CPU_IDX. */
  datatype Queue = Queue(free: seq<nat>, entry: seq<Entry>, desc: seq<Desc>, queued: nat, cpu: nat, stopped: bool,
                         live: multiset<nat>)

  /** An idle ring: every entry is free, in index order. */
  function Init(ndesc: nat): Queue {
    Queue(seq(ndesc, i => i), seq(ndesc, _ => Entry(None, 0, 0)), seq(ndesc, _ => Desc(0, false, 0, 0, [])),
          0, 0, false, multiset{})
  }

  predicate Shaped(q: Queue) {
    |q.desc| == |q.entry| && forall i :: 0 <= i < |q.free| ==> q.free[i] < |q.entry|
  }

  /** What dma_map_single answers for each fragment: an address, or None for a mapping error. */
  type Maps = seq<Option<nat>>

  predicate Mapped(maps: Maps, k: nat) { k <= |maps| && forall i :: 0 <= i < k ==> maps[i].Some? }

  /** The first fragment that cannot be mapped, or their number. */
  function FailAt(maps: Maps): (k: nat)
    ensures Mapped(maps, k) && (k < |maps| ==> maps[k].None?)
  {
    if maps == [] || maps[0].None? then 0
    else
      var k := FailAt(maps[1..]);
      assert forall i :: 1 <= i < k + 1 ==> maps[i] == maps[1..][i - 1];
      k + 1
  }

  /** Fragment k takes the head of the list; its descriptor points at the new head. */
  function Take(q: Queue, p: Packet, k: nat, addr: nat): (r: Queue)
    requires Shaped(q) && k < |p.frags| && |q.free| > 1
    ensures Shaped(r) && |r.entry| == |q.entry|
  {
    var e, len := q.free[0], p.frags[k].len % LEN_LIMIT;
    q.(free := q.free[1..],
       entry := q.entry[e := Entry(if k > 0 then None else Some(p.skb), addr, len)],
       desc := q.desc[e := Desc(len, k < |p.frags| - 1, addr, q.free[1], p.msg)],
       live := q.live + multiset{addr})
  }

  /** The queue after the first k fragments. */
  function Placed(q: Queue, p: Packet, maps: Maps, k: nat): (r: Queue)
    requires Shaped(q) && |p.frags| == |maps| && Mapped(maps, k) && k < |q.free|
    ensures Shaped(r) && |r.entry| == |q.entry| && r.free == q.free[k..]
    ensures r.queued == q.queued && r.cpu == q.cpu && r.stopped == q.stopped
  {
    if k == 0 then q else Take(Placed(q, p, maps, k - 1), p, k - 1, maps[k - 1].value)
  }

  /** One turn of the unwind loop. */
  function GiveBack(q: Queue, e: nat): (r: Queue)
    requires Shaped(q) && e < |q.entry|
    ensures Shaped(r) && |r.entry| == |q.entry|
  {
    q.(free := q.free + [e], entry := q.entry[e := q.entry[e].(addr := 0)], live := q.live - multiset{q.entry[e].addr})
  }

  /** error_unmap, for the entries moved to the local list. */
  function Unwind(q: Queue, moved: seq<nat>): (r: Queue)
    requires Shaped(q) && forall i :: 0 <= i < |moved| ==> moved[i] < |q.entry|
    ensures Shaped(r) && |r.entry| == |q.entry| && r.free == q.free + moved && r.desc == q.desc
    ensures r.queued == q.queued && r.cpu == q.cpu && r.stopped == q.stopped
    decreases |moved|
  {
    if moved == [] then q else
      var r := Unwind(GiveBack(q, moved[0]), moved[1..]);
      assert q.free + moved == q.free + [moved[0]] + moved[1..];
      r
  }

  /**
   The whole enqueue: `kick` is whether the queue is stopped or no more packets follow at once, `freeThr` the
   queue's threshold. The fast path drops where the others report a full queue, and always moves the CPU index.
   */
  function Enqueue(q: Queue, path: Path, p: Packet, maps: Maps, kick: bool, freeThr: nat): (Queue, Status)
    requires Shaped(q) && |p.frags| == |maps| && |q.free| + q.queued == |q.entry|
  {
    var ndesc, n := |q.entry|, |p.frags|;
    if ndesc == 0 then (q, Dropped)
    else if q.queued + n >= ndesc then
      if path == FastTx then (q, Dropped) else (q.(stopped := true), Busy)
    else
      var k := FailAt(maps);
      var r := Placed(q, p, maps, k);
      if k < n then (Unwind(r, q.free[..k]), Dropped) else (Commit(r, path, n, q.free[n], kick, freeThr), Sent)
  }

  /** The count, the CPU index and the threshold, once every fragment is mapped. */
  function Commit(q: Queue, path: Path, n: nat, index: nat, kick: bool, freeThr: nat): Queue {
    q.(queued := q.queued + n, cpu := if path == FastTx || kick then index else q.cpu,
       stopped := q.stopped || (path != FastTx && |q.entry| - (q.queued + n) < freeThr))
  }

  // ---------------------------------------------------------------- what placing does

  predicate Distinct(s: seq<nat>) { forall i, j :: 0 <= i < j < |s| ==> s[i] != s[j] }

  /** How many entries of a list are mapped at address a. */
  function At(entry: seq<Entry>, s: seq<nat>, a: nat): nat
    requires forall i :: 0 <= i < |s| ==> s[i] < |entry|
    decreases |s|
  {
    if s == [] then 0 else At(entry, s[1..], a) + if entry[s[0]].addr == a then 1 else 0
  }

  lemma {:induction false} AtFrame(entry: seq<Entry>, entry': seq<Entry>, s: seq<nat>, a: nat)
    requires |entry| == |entry'| && forall i :: 0 <= i < |s| ==> s[i] < |entry| && entry'[s[i]].addr == entry[s[i]].addr
    ensures At(entry', s, a) == At(entry, s, a)
    decreases |s|
  {
    if s != [] { AtFrame(entry, entry', s[1..], a); }
  }

  lemma {:induction false} AtConcat(entry: seq<Entry>, s: seq<nat>, t: seq<nat>, a: nat)
    requires forall i :: 0 <= i < |s| ==> s[i] < |entry|
    requires forall i :: 0 <= i < |t| ==> t[i] < |entry|
    ensures At(entry, s + t, a) == At(entry, s, a) + At(entry, t, a)
    decreases |s|
  {
    if s == [] {
      assert s + t == t;
    } else {
      assert (s + t)[1..] == s[1..] + t;
      AtConcat(entry, s[1..], t, a);
    }
  }

  lemma AtOne(entry: seq<Entry>, e: nat, a: nat)
    requires e < |entry|
    ensures At(entry, [e], a) == if entry[e].addr == a then 1 else 0
  {
    assert [e][1..] == [];
  }

  /** Entry i of the list now holds fragment i, and its descriptor leads to entry i + 1. */
  predicate Holds(q: Queue, p: Packet, maps: Maps, free: seq<nat>, i: nat)
    requires Shaped(q) && i < |p.frags| == |maps| && maps[i].Some? && i + 1 < |free| && free[i] < |q.entry|
  {
    var len := p.frags[i].len % LEN_LIMIT;
    && q.entry[free[i]] == Entry(if i > 0 then None else Some(p.skb), maps[i].value, len)
    && q.desc[free[i]] == Desc(len, i < |p.frags| - 1, maps[i].value, free[i + 1], p.msg)
  }

  lemma {:induction false} PlacedHolds(q: Queue, p: Packet, maps: Maps, k: nat)
    requires Shaped(q) && |p.frags| == |maps| && Mapped(maps, k) && k < |q.free| && Distinct(q.free)
    ensures forall i :: 0 <= i < k ==> Holds(Placed(q, p, maps, k), p, maps, q.free, i)
  {
    if k > 0 {
      PlacedHolds(q, p, maps, k - 1);
      var r0, r := Placed(q, p, maps, k - 1), Placed(q, p, maps, k);
      assert r0.free[0] == q.free[k - 1] && r0.free[1] == q.free[k];
      forall i | 0 <= i < k
        ensures Holds(r, p, maps, q.free, i)
      {
        if i < k - 1 { assert Holds(r0, p, maps, q.free, i) && q.free[i] != q.free[k - 1]; }
      }
    }
  }

  lemma {:induction false} PlacedKeeps(q: Queue, p: Packet, maps: Maps, k: nat, e: nat)
    requires Shaped(q) && |p.frags| == |maps| && Mapped(maps, k) && k < |q.free| && e < |q.entry|
    requires forall i :: 0 <= i < k ==> q.free[i] != e
    ensures Placed(q, p, maps, k).entry[e] == q.entry[e] && Placed(q, p, maps, k).desc[e] == q.desc[e]
  {
    if k > 0 {
      PlacedKeeps(q, p, maps, k - 1, e);
      assert Placed(q, p, maps, k - 1).free[0] == q.free[k - 1];
    }
  }

  /** Placing adds one mapping for each entry it fills, and no other. */
  lemma {:induction false} PlacedMaps(q: Queue, p: Packet, maps: Maps, k: nat, a: nat)
    requires Shaped(q) && |p.frags| == |maps| && Mapped(maps, k) && k < |q.free| && Distinct(q.free)
    ensures Placed(q, p, maps, k).live[a] == q.live[a] + At(Placed(q, p, maps, k).entry, q.free[..k], a)
  {
    if k > 0 {
      PlacedMaps(q, p, maps, k - 1, a);
      var r0, e := Placed(q, p, maps, k - 1), q.free[k - 1];
      var r := Take(r0, p, k - 1, maps[k - 1].value);
      assert r0.free[0] == e && r.entry == r0.entry[e := r.entry[e]];
      assert r.live[a] == r0.live[a] + if r.entry[e].addr == a then 1 else 0;
      assert Placed(q, p, maps, k) == r;
      hide Placed, Take, At;
      AtFrame(r0.entry, r.entry, q.free[..k - 1], a);
      AtConcat(r.entry, q.free[..k - 1], [e], a);
      AtOne(r.entry, e, a);
      assert q.free[..k] == q.free[..k - 1] + [e];
    }
  }

  /** Unwinding clears the address of the moved entries and of no other. */
  lemma {:induction false} UnwoundEntry(q: Queue, moved: seq<nat>, e: nat)
    requires Shaped(q) && (forall i :: 0 <= i < |moved| ==> moved[i] < |q.entry|) && e < |q.entry|
    ensures (forall i :: 0 <= i < |moved| ==> moved[i] != e) ==> Unwind(q, moved).entry[e] == q.entry[e]
    ensures q.entry[e].addr == 0 || (exists i :: 0 <= i < |moved| && moved[i] == e) ==>
              Unwind(q, moved).entry[e] == q.entry[e].(addr := 0)
    decreases |moved|
  {
    if moved != [] {
      UnwoundEntry(GiveBack(q, moved[0]), moved[1..], e);
      forall i | 0 < i < |moved|
        ensures moved[i] == moved[1..][i - 1]
      {}
    }
  }

  /** Unwinding undoes the mapping of each moved entry once. */
  lemma {:induction false} UnwoundMaps(q: Queue, moved: seq<nat>, base: nat, a: nat)
    requires Shaped(q) && (forall i :: 0 <= i < |moved| ==> moved[i] < |q.entry|) && Distinct(moved)
    requires q.live[a] == base + At(q.entry, moved, a)
    ensures Unwind(q, moved).live[a] == base
    decreases |moved|
  {
    if moved != [] {
      var q1, rest := GiveBack(q, moved[0]), moved[1..];
      AtFrame(q.entry, q1.entry, rest, a);
      assert q1.live[a] == q.live[a] - if q.entry[moved[0]].addr == a then 1 else 0;
      UnwoundMaps(q1, rest, base, a);
    }
  }

  // ---------------------------------------------------------------- what the hardware reads

  /** Follow NEXT_ID from e up to the first descriptor without MORE: its segments, and where the next frame starts. */
  function Fetch(desc: seq<Desc>, e: nat, fuel: nat): Option<(seq<(nat, nat)>, nat)>
    decreases fuel
  {
    if fuel == 0 || e >= |desc| then None
    else if !desc[e].more then Some(([(desc[e].addr, desc[e].len)], desc[e].next))
    else
      var rest := Fetch(desc, desc[e].next, fuel - 1);
      if rest.None? then None else Some(([(desc[e].addr, desc[e].len)] + rest.value.0, rest.value.1))
  }

  function Segments(p: Packet, maps: Maps, i: nat): seq<(nat, nat)>
    requires |p.frags| == |maps| && Mapped(maps, |maps|) && i <= |maps|
    decreases |maps| - i
  {
    if i == |maps| then [] else [(maps[i].value, p.frags[i].len % LEN_LIMIT)] + Segments(p, maps, i + 1)
  }

  lemma {:induction false} FetchFrom(q: Queue, p: Packet, maps: Maps, free: seq<nat>, i: nat)
    requires Shaped(q) && |p.frags| == |maps| < |free| && Mapped(maps, |maps|) && i < |maps|
    requires forall j :: 0 <= j < |maps| ==> free[j] < |q.entry| && Holds(q, p, maps, free, j)
    ensures Fetch(q.desc, free[i], |maps| - i) == Some((Segments(p, maps, i), free[|maps|]))
    decreases |maps| - i
  {
    assert Holds(q, p, maps, free, i);
    if i < |maps| - 1 {
      FetchFrom(q, p, maps, free, i + 1);
    } else {
      assert Segments(p, maps, i) == [(maps[i].value, p.frags[i].len % LEN_LIMIT)] + [];
      assert Segments(p, maps, i) == [(maps[i].value, p.frags[i].len % LEN_LIMIT)];
      assert Fetch(q.desc, free[i], 1) == Some((Segments(p, maps, i), free[i + 1]));
    }
  }

  /**
   A sent packet can be read back: from the old list head the hardware finds exactly its fragments, in order,
   and the frame ends pointing at the new list head, which exists and is where the CPU index goes. All other
   descriptors and entries are as they were.
   */
  lemma SentFrameReadsBack(q: Queue, path: Path, p: Packet, maps: Maps, kick: bool, freeThr: nat)
    requires Shaped(q) && 0 < |p.frags| == |maps| && |q.free| + q.queued == |q.entry| && Distinct(q.free)
    ensures var (q', status) := Enqueue(q, path, p, maps, kick, freeThr);
            var n := |maps|;
            status == Sent ==>
              && n < |q.free| && q'.free == q.free[n..] && Mapped(maps, n) && Shaped(q')
              && Fetch(q'.desc, q.free[0], n) == Some((Segments(p, maps, 0), q'.free[0]))
              && (kick || path == FastTx ==> q'.cpu == q'.free[0]) && (!kick && path != FastTx ==> q'.cpu == q.cpu)
              && |q'.entry| == |q.entry| && q'.queued == q.queued + n
              && (forall e :: 0 <= e < |q.entry| && e !in q.free[..n] ==>
                    q'.entry[e] == q.entry[e] && q'.desc[e] == q.desc[e])
              && (forall a :: q'.live[a] == q.live[a] + At(q'.entry, q.free[..n], a))
  {
    var (q', status) := Enqueue(q, path, p, maps, kick, freeThr);
    if status == Sent {
      hide Fetch, Segments, Placed, At, Holds, Distinct;
      PlacedReadsBack(q, p, maps);
    }
  }

  lemma PlacedReadsBack(q: Queue, p: Packet, maps: Maps)
    requires Shaped(q) && 0 < |p.frags| == |maps| < |q.free| && Mapped(maps, |maps|) && Distinct(q.free)
    ensures var n, r := |maps|, Placed(q, p, maps, |maps|);
            && Fetch(r.desc, q.free[0], n) == Some((Segments(p, maps, 0), q.free[n]))
            && (forall e :: 0 <= e < |q.entry| && e !in q.free[..n] ==> r.entry[e] == q.entry[e] && r.desc[e] == q.desc[e])
            && (forall a :: r.live[a] == q.live[a] + At(r.entry, q.free[..n], a))
  {
    var n := |maps|;
    PlacedHolds(q, p, maps, n);
    FetchFrom(Placed(q, p, maps, n), p, maps, q.free, 0);
    hide Fetch, Segments, Placed, At, Holds;
    forall a: nat
      ensures Placed(q, p, maps, n).live[a] == q.live[a] + At(Placed(q, p, maps, n).entry, q.free[..n], a)
    {
      PlacedMaps(q, p, maps, n, a);
    }
    assert forall i :: 0 <= i < n ==> q.free[i] == q.free[..n][i];
    forall e | 0 <= e < |q.entry| && e !in q.free[..n]
      ensures Placed(q, p, maps, n).entry[e] == q.entry[e] && Placed(q, p, maps, n).desc[e] == q.desc[e]
    {
      PlacedKeeps(q, p, maps, n, e);
    }
  }

  /** The packet is remembered on its first entry; each descriptor has its fragment, the link, and the message words. */
  lemma SentFrameFills(q: Queue, path: Path, p: Packet, maps: Maps, kick: bool, freeThr: nat, i: nat)
    requires Shaped(q) && 0 < |p.frags| == |maps| && |q.free| + q.queued == |q.entry| && Distinct(q.free)
    requires Enqueue(q, path, p, maps, kick, freeThr).1 == Sent && i < |maps|
    ensures var q', len := Enqueue(q, path, p, maps, kick, freeThr).0, p.frags[i].len % 0x1_0000;
            && i + 1 < |q.free| && maps[i].Some? && q.free[i] < |q'.entry| == |q'.desc|
            && q'.entry[q.free[i]] == Entry(if i == 0 then Some(p.skb) else None, maps[i].value, len)
            && q'.desc[q.free[i]] == Desc(len, i < |maps| - 1, maps[i].value, q.free[i + 1], p.msg)
  {
    PlacedHolds(q, p, maps, |maps|);
    assert Holds(Placed(q, p, maps, |maps|), p, maps, q.free, i);
    hide Placed;
  }

  /** The list and the count go on adding up to the size of the ring. */
  lemma EnqueueKeepsCount(q: Queue, path: Path, p: Packet, maps: Maps, kick: bool, freeThr: nat)
    requires Shaped(q) && |p.frags| == |maps| && |q.free| + q.queued == |q.entry|
    ensures var q' := Enqueue(q, path, p, maps, kick, freeThr).0;
            Shaped(q') && |q'.free| + q'.queued == |q'.entry| == |q.entry|
  {}

  /** Which of the three ways an enqueue ends, and when it stops the queue. */
  lemma EnqueueOutcome(q: Queue, path: Path, p: Packet, maps: Maps, kick: bool, freeThr: nat)
    requires Shaped(q) && |p.frags| == |maps| && |q.free| + q.queued == |q.entry|
    ensures var (q', status) := Enqueue(q, path, p, maps, kick, freeThr);
            && (status == Sent <==> q.queued + |maps| < |q.entry| && forall i :: 0 <= i < |maps| ==> maps[i].Some?)
            && (status == Busy <==> 0 < |q.entry| <= q.queued + |maps| && path != FastTx)
            && (status != Sent && q.queued + |maps| >= |q.entry| ==> q' == q.(stopped := q.stopped || status == Busy))
            && (status != Sent ==> q'.queued == q.queued && q'.cpu == q.cpu && Shaped(q') && |q'.entry| == |q.entry|)
            && (q'.stopped <==> q.stopped || status == Busy
                                || (status == Sent && path != FastTx && |q'.entry| - q'.queued < freeThr))
  {
  }

  /**
   A packet that could not be mapped at fragment k leaves the count, the mappings, the CPU index and every entry
   outside the first k alone; the list is rotated by k.
   */
  lemma FailedFrameIsUnmapped(q: Queue, path: Path, p: Packet, maps: Maps, kick: bool, freeThr: nat)
    requires Shaped(q) && |p.frags| == |maps| && |q.free| + q.queued == |q.entry| && Distinct(q.free)
    requires q.queued + |maps| < |q.entry| && FailAt(maps) < |maps|
    ensures var (q', status) := Enqueue(q, path, p, maps, kick, freeThr);
            var k := FailAt(maps);
            && status == Dropped && q'.live == q.live && q'.queued == q.queued && q'.cpu == q.cpu
            && q'.free == q.free[k..] + q.free[..k] && |q'.entry| == |q.entry| == |q'.desc|
            && (forall i :: 0 <= i < k ==>
                  q'.entry[q.free[i]] == Entry(if i == 0 then Some(p.skb) else None, 0, p.frags[i].len % 0x1_0000))
            && (forall e :: 0 <= e < |q.entry| && e !in q.free[..k] ==>
                  q'.entry[e] == q.entry[e] && q'.desc[e] == q.desc[e])
  {
    FailedMaps(q, p, maps, FailAt(maps));
    FailedEntries(q, p, maps, FailAt(maps));
    hide At, Placed, Unwind;
  }

  lemma FailedMaps(q: Queue, p: Packet, maps: Maps, k: nat)
    requires Shaped(q) && |p.frags| == |maps| && Mapped(maps, k) && k < |q.free| && Distinct(q.free)
    ensures Unwind(Placed(q, p, maps, k), q.free[..k]).live == q.live
  {
    var r, moved := Placed(q, p, maps, k), q.free[..k];
    forall a: nat
      ensures Unwind(r, moved).live[a] == q.live[a]
    {
      PlacedMaps(q, p, maps, k, a);
      UnwoundMaps(r, moved, q.live[a], a);
    }
  }

  lemma FailedEntries(q: Queue, p: Packet, maps: Maps, k: nat)
    requires Shaped(q) && |p.frags| == |maps| && Mapped(maps, k) && k < |q.free| && Distinct(q.free)
    ensures var r := Unwind(Placed(q, p, maps, k), q.free[..k]);
            && (forall i :: 0 <= i < k ==>
                  r.entry[q.free[i]] == Entry(if i == 0 then Some(p.skb) else None, 0, p.frags[i].len % 0x1_0000))
            && (forall e :: 0 <= e < |q.entry| && e !in q.free[..k] ==>
                  r.entry[e] == q.entry[e] && r.desc[e] == q.desc[e])
  {
    var r, moved := Placed(q, p, maps, k), q.free[..k];
    assert forall i :: 0 <= i < k ==> q.free[i] == moved[i];
    PlacedHolds(q, p, maps, k);
    hide Placed, Unwind;
    forall i | 0 <= i < k
      ensures Unwind(r, moved).entry[q.free[i]] == Entry(if i == 0 then Some(p.skb) else None, 0, p.frags[i].len % 0x1_0000)
    {
      assert Holds(r, p, maps, q.free, i) && moved[i] == q.free[i];
      UnwoundEntry(r, moved, q.free[i]);
    }
    forall e | 0 <= e < |q.entry| && e !in moved
      ensures Unwind(r, moved).entry[e] == q.entry[e] && r.desc[e] == q.desc[e]
    {
      PlacedKeeps(q, p, maps, k, e);
      UnwoundEntry(r, moved, e);
    }
  }

  // ---------------------------------------------------------------- the queue object

  class Ring {
    var free: seq<nat> // q->tx_list
    const entry: array<Entry>
    const desc: array<Desc>
    var queued: nat
    var cpu: nat
    var stopped: bool
    var live: multiset<nat>

    ghost predicate Valid()
      reads this, entry, desc
    {
      Shaped(State()) && |free| + queued == entry.Length
    }

    ghost function State(): Queue
      reads this, entry, desc
    {
      Queue(free, entry[..], desc[..], queued, cpu, stopped, live)
    }

    constructor (ndesc: nat)
      ensures Valid() && State() == Init(ndesc)
    {
      free := seq(ndesc, i => i);
      entry := new Entry[ndesc](_ => Entry(None, 0, 0));
      desc := new Desc[ndesc](_ => Desc(0, false, 0, 0, []));
      queued, cpu, stopped, live := 0, 0, false, multiset{};
      new;
      assert entry[..] == Init(ndesc).entry && desc[..] == Init(ndesc).desc;
    }

    /** The three enqueue bodies, from the space check on. */
    method Send(path: Path, p: Packet, maps: Maps, kick: bool, freeThr: nat) returns (status: Status)
      requires Valid() && |p.frags| == |maps|
      modifies this, entry, desc
      ensures (State(), status) == Enqueue(old(State()), path, p, maps, kick, freeThr)
      ensures Valid()
    {
      hide Placed, Unwind, FailAt, Commit;
      EnqueueKeepsCount(State(), path, p, maps, kick, freeThr);
      if entry.Length == 0 { return Dropped; }
      if queued + |p.frags| >= entry.Length {
        if path == FastTx { return Dropped; }
        stopped := true;
        return Busy;
      }
      var e, txList := MapAll(p, maps);
      if |txList| < |p.frags| {
        Unmap(txList);
        return Dropped;
      }
      Finish(path, |p.frags|, e, kick, freeThr);
      return Sent;
    }

    /** What follows the loop. */
    method Finish(path: Path, n: nat, index: nat, kick: bool, freeThr: nat)
      modifies this`queued, this`cpu, this`stopped
      ensures State() == Commit(old(State()), path, n, index, kick, freeThr)
    {
      queued := queued + n;
      if path == FastTx || kick { cpu := index; }
      if path != FastTx && entry.Length - queued < freeThr { stopped := true; }
    }

    /** The mapping loop: the entries it moved to the local list, and the list head after them. */
    method MapAll(p: Packet, maps: Maps) returns (e: nat, txList: seq<nat>)
      requires Shaped(State()) && |p.frags| == |maps| < |free|
      modifies this, entry, desc
      ensures State() == Placed(old(State()), p, maps, FailAt(maps))
      ensures txList == old(free)[..FailAt(maps)] && e == old(free)[FailAt(maps)]
    {
      hide Take, FailAt;
      ghost var q := State();
      txList := [];
      e := free[0];
      for i := 0 to |p.frags|
        invariant Mapped(maps, i) && State() == Placed(q, p, maps, i)
        invariant txList == q.free[..i] && e == q.free[i]
      {
        if maps[i].None? {
          FailsHere(maps, i);
          return;
        }
        txList := txList + [e];
        e := Fill(p, i, maps[i].value);
      }
      FailsHere(maps, |maps|);
    }

    /** The loop body, once the fragment is mapped; the new list head is returned. */
    method Fill(p: Packet, i: nat, addr: nat) returns (e: nat)
      requires Shaped(State()) && i < |p.frags| && |free| > 1
      modifies this, entry, desc
      ensures State() == Take(old(State()), p, i, addr) && e == free[0]
    {
      var d := free[0];
      free := free[1..];
      var len := p.frags[i].len % LEN_LIMIT;
      entry[d] := Entry(if i > 0 then None else Some(p.skb), addr, len);
      live := live + multiset{addr};
      e := free[0];
      desc[d] := Desc(len, i < |p.frags| - 1, addr, e, p.msg);
      assert entry[..] == old(entry[..])[d := entry[d]];
      assert desc[..] == old(desc[..])[d := desc[d]];
    }

    /** error_unmap */
    method Unmap(txList: seq<nat>)
      requires Shaped(State()) && forall i :: 0 <= i < |txList| ==> txList[i] < entry.Length
      modifies this, entry
      ensures State() == Unwind(old(State()), txList)
    {
      hide GiveBack;
      ghost var q := State();
      var rest: seq<nat> := txList;
      while rest != []
        invariant Shaped(State()) && (forall i :: 0 <= i < |rest| ==> rest[i] < entry.Length)
        invariant Unwind(State(), rest) == Unwind(q, txList)
        decreases |rest|
      {
        Return(rest[0]);
        rest := rest[1..];
      }
    }

    /** One turn of it. */
    method Return(e: nat)
      requires Shaped(State()) && e < entry.Length
      modifies this, entry
      ensures State() == GiveBack(old(State()), e)
    {
      live := live - multiset{entry[e].addr};
      entry[e] := entry[e].(addr := 0);
      free := free + [e];
      assert entry[..] == old(entry[..])[e := entry[e]];
    }
  }

  lemma {:induction false} FailsHere(maps: Maps, k: nat)
    requires Mapped(maps, k) && (k < |maps| ==> maps[k].None?)
    ensures FailAt(maps) == k
    decreases k
  {
    if k > 0 { FailsHere(maps[1..], k - 1); }
  }
}
