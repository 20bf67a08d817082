/**
 The session table of arht_wifi_lo.c: 32 slots, an index by port pair and one by FOE hash, and the
 bodies the driver runs with wifi_lo_lock held.
 */
module WifiLoTable {
  import opened Wrappers

  const MAX_NUM: nat := 32 // WIFI_LO_MAX_NUM
  const BUCKETS: nat := 32 // 1 << WIFI_LO_HT_BITS
  const HZ: nat := 100 // jiffies per second; no property depends on it
  const EXPIRE_TIME: nat := HZ // WIFI_LO_EXPIRE_TIME
  const LAST_TX_MIN_INTERVAL: nat := HZ / 4

  /** struct wifi_lo; sockets, routes and devices are numbered, jiffies do not wrap. */
  datatype Slot = Slot(valid: bool, releasing: bool, isWifi: bool, skipCopy: bool,
                       lport: nat, rport: nat, hash: nat, lastTx: nat,
                       sk: Option<nat>, dev: Option<nat>, txDst: Option<nat>, pending: Option<nat>)

  const FREE_SLOT: Slot := Slot(false, false, false, false, 0, 0, 0, 0, None, None, None, None)

  type Index = seq<seq<nat>>

  datatype Table = Table(slots: seq<Slot>, ports: Index, hashes: Index)

  // ---------------------------------------------------------------- hash tables

  /** hash_32(key, WIFI_LO_HT_BITS); no property depends on the multiplier. */
  function Bucket(key: nat): (b: nat)
    ensures b < BUCKETS
  {
    key * 0x61C8_8647 % 0x1_0000_0000 / 0x800_0000
  }

  function PortKey(lport: nat, rport: nat): nat { lport * 0x1_0000 + rport }

  predicate Linked(ht: Index, i: nat) { exists b :: 0 <= b < |ht| && i in ht[b] }

  function HashAdd(ht: Index, key: nat, i: nat): (r: Index)
    requires |ht| == BUCKETS
    ensures |r| == BUCKETS
  {
    ht[Bucket(key) := [i] + ht[Bucket(key)]]
  }

  function Without(s: seq<nat>, i: nat): (r: seq<nat>)
    ensures forall x :: x in r <==> x in s && x != i
  {
    if |s| == 0 then []
    else
      assert s == [s[0]] + s[1..];
      if s[0] == i then Without(s[1..], i) else [s[0]] + Without(s[1..], i)
  }

  /** hash_del_rcu: take node i off whatever chain holds it. */
  function HashDel(ht: Index, i: nat): (r: Index)
    ensures |r| == |ht|
    ensures forall b :: 0 <= b < |ht| ==> r[b] == Without(ht[b], i)
  {
    seq(|ht|, b requires 0 <= b < |ht| => Without(ht[b], i))
  }

  predicate PortMatch(s: Slot, lport: nat, rport: nat) { s.valid && s.lport == lport && s.rport == rport }
  predicate HashMatch(s: Slot, hash: nat) { s.valid && s.hash == hash }

  /** First node of a chain whose slot matches. */
  function ChainFind(chain: seq<nat>, slots: seq<Slot>, p: Slot -> bool): (r: Option<nat>)
    ensures r.Some? ==> r.value in chain && r.value < |slots| && p(slots[r.value])
    ensures r.None? ==> forall i :: i in chain && i < |slots| ==> !p(slots[i])
  {
    if |chain| == 0 then None
    else
      assert chain == [chain[0]] + chain[1..];
      if chain[0] < |slots| && p(slots[chain[0]]) then Some(chain[0]) else ChainFind(chain[1..], slots, p)
  }

  function PortLookup(t: Table, lport: nat, rport: nat): Option<nat>
    requires |t.ports| == BUCKETS
  {
    ChainFind(t.ports[Bucket(PortKey(lport, rport))], t.slots, s => PortMatch(s, lport, rport))
  }

  function HashLookup(t: Table, hash: nat): Option<nat>
    requires |t.hashes| == BUCKETS
  {
    if hash == 0 then None else ChainFind(t.hashes[Bucket(hash)], t.slots, s => HashMatch(s, hash))
  }

  // ---------------------------------------------------------------- the index invariant

  ghost predicate PortIndexOk(slots: seq<Slot>, ht: Index) {
    && |ht| == BUCKETS
    && (forall b, i {:trigger i in ht[b]} :: 0 <= b < BUCKETS && i in ht[b] ==>
          i < |slots| && slots[i].valid && Bucket(PortKey(slots[i].lport, slots[i].rport)) == b)
    && (forall i :: 0 <= i < |slots| && slots[i].valid ==> i in ht[Bucket(PortKey(slots[i].lport, slots[i].rport))])
  }

  ghost predicate HashIndexOk(slots: seq<Slot>, ht: Index) {
    && |ht| == BUCKETS
    && (forall b, i {:trigger i in ht[b]} :: 0 <= b < BUCKETS && i in ht[b] ==>
          i < |slots| && slots[i].valid && slots[i].hash != 0 && Bucket(slots[i].hash) == b)
    && (forall i :: 0 <= i < |slots| && slots[i].valid && slots[i].hash != 0 ==> i in ht[Bucket(slots[i].hash)])
  }

  ghost predicate IndexOk(t: Table) {
    PortIndexOk(t.slots, t.ports) && HashIndexOk(t.slots, t.hashes)
  }

  /** Lookup by port pair finds a session exactly when a scan of the table would. */
  lemma PortLookupIsScan(t: Table, lport: nat, rport: nat)
    requires IndexOk(t)
    ensures var r := PortLookup(t, lport, rport);
            && (r.Some? <==> exists i :: 0 <= i < |t.slots| && PortMatch(t.slots[i], lport, rport))
            && (r.Some? ==> r.value < |t.slots| && PortMatch(t.slots[r.value], lport, rport))
  {
    hide Bucket;
    if i :| 0 <= i < |t.slots| && PortMatch(t.slots[i], lport, rport) {
      assert i in t.ports[Bucket(PortKey(lport, rport))];
    }
  }

  /** Lookup by a stamped hash finds a session exactly when a scan would; an unstamped one never matches. */
  lemma HashLookupIsScan(t: Table, hash: nat)
    requires IndexOk(t)
    ensures var r := HashLookup(t, hash);
            && (r.Some? <==> hash != 0 && exists i :: 0 <= i < |t.slots| && HashMatch(t.slots[i], hash))
            && (r.Some? ==> r.value < |t.slots| && HashMatch(t.slots[r.value], hash))
  {
    hide Bucket;
    if i :| 0 <= i < |t.slots| && HashMatch(t.slots[i], hash) && hash != 0 {
      assert i in t.hashes[Bucket(hash)];
    }
  }

  // ---------------------------------------------------------------- lock-held bodies

  predicate Reusable(s: Slot) { !s.valid && !s.releasing }

  /** The slot wifi_lo_add_ety takes: the lowest that is neither live nor waiting for its callback. */
  function FreeFrom(slots: seq<Slot>, i: nat): (r: Option<nat>)
    requires i <= |slots|
    ensures r.Some? ==> i <= r.value < |slots| && Reusable(slots[r.value])
    ensures forall k :: i <= k < (if r.Some? then r.value else |slots|) ==> !Reusable(slots[k])
    decreases |slots| - i
  {
    if i == |slots| then None
    else if Reusable(slots[i]) then Some(i)
    else FreeFrom(slots, i + 1)
  }

  function FreshSlot(s: Slot, lport: nat, rport: nat, sk: Option<nat>, dst: Option<nat>, now: nat): Slot {
    Slot(true, false, false, false, lport, rport, 0, now, sk, None, dst, s.pending)
  }

  function Install(t: Table, i: nat, lport: nat, rport: nat, sk: Option<nat>, dst: Option<nat>, now: nat): Table
    requires i < |t.slots| && |t.ports| == BUCKETS
  {
    t.(slots := t.slots[i := FreshSlot(t.slots[i], lport, rport, sk, dst, now)],
       ports := HashAdd(t.ports, PortKey(lport, rport), i))
  }

  /** What wifi_lo_free_dev did with the detached device reference. */
  datatype Freed = NoDevice | Queued | PutInline(dev: nat)

  function Freeing(s: Slot): (Slot, Freed) {
    if s.dev.None? then (s, NoDevice)
    else if s.releasing then (s.(dev := None), PutInline(s.dev.value))
    else (s.(dev := None, releasing := true, pending := s.dev), Queued)
  }

  function ExpiredSlot(s: Slot): Slot {
    Freeing(s).0.(sk := None, txDst := None, isWifi := false, valid := false, hash := 0)
  }

  function Expire(t: Table, i: nat): Table
    requires i < |t.slots|
  {
    Table(t.slots[i := ExpiredSlot(t.slots[i])], HashDel(t.ports, i), HashDel(t.hashes, i))
  }

  predicate CanStamp(s: Slot) { s.valid && s.hash == 0 }

  function Stamp(t: Table, i: nat, hash: nat): Table
    requires i < |t.slots| && |t.hashes| == BUCKETS
  {
    if CanStamp(t.slots[i]) then
      t.(slots := t.slots[i := t.slots[i].(hash := hash)], hashes := HashAdd(t.hashes, hash, i))
    else t
  }

  /** wifi_lo_publish_ingress_dev: publish once, and only a device that may be cached. */
  predicate CanPublish(s: Slot, bridge: bool, wifiOnly: bool, wifi: bool) {
    !bridge && (wifiOnly ==> wifi) && s.dev.None?
  }

  function PublishDev(t: Table, i: nat, dev: nat, wifi: bool): Table
    requires i < |t.slots|
  {
    t.(slots := t.slots[i := t.slots[i].(dev := Some(dev), isWifi := t.slots[i].isWifi || wifi)])
  }

  // ---------------------------------------------------------------- they keep the indexes

  lemma InstallKeepsIndex(t: Table, i: nat, lport: nat, rport: nat, sk: Option<nat>, dst: Option<nat>, now: nat)
    requires IndexOk(t) && i < |t.slots| && Reusable(t.slots[i])
    ensures IndexOk(Install(t, i, lport, rport, sk, dst, now))
    ensures !Linked(t.ports, i) && !Linked(t.hashes, i)
  {
    hide Bucket;
  }

  lemma ExpireKeepsIndex(t: Table, i: nat)
    requires IndexOk(t) && i < |t.slots|
    ensures IndexOk(Expire(t, i))
    ensures !Linked(Expire(t, i).ports, i) && !Linked(Expire(t, i).hashes, i)
  {
    hide Bucket, Without;
  }

  lemma StampKeepsIndex(t: Table, i: nat, hash: nat)
    requires IndexOk(t) && i < |t.slots| && hash != 0
    ensures IndexOk(Stamp(t, i, hash))
    ensures CanStamp(t.slots[i]) ==> !Linked(t.hashes, i)
  {
    hide Bucket;
  }

  /** Changing only what the indexes do not look at. */
  lemma TouchKeepsIndex(t: Table, i: nat, s: Slot)
    requires IndexOk(t) && i < |t.slots|
    requires s.valid == t.slots[i].valid && s.hash == t.slots[i].hash
    requires s.lport == t.slots[i].lport && s.rport == t.slots[i].rport
    ensures IndexOk(t.(slots := t.slots[i := s]))
  {
    hide Bucket;
  }

  // ---------------------------------------------------------------- the table in memory

  class Sessions {
    const slots: array<Slot>
    var ports: Index
    var hashes: Index

    ghost predicate Valid()
      reads this, slots
    {
      slots.Length == MAX_NUM && IndexOk(Contents())
    }

    ghost function Contents(): Table
      reads this, slots
    {
      Table(slots[..], ports, hashes)
    }

    constructor ()
      ensures Valid() && fresh(slots)
      ensures Contents().slots == seq(MAX_NUM, _ => FREE_SLOT)
    {
      slots := new Slot[MAX_NUM](_ => FREE_SLOT);
      ports := seq(BUCKETS, _ => []);
      hashes := seq(BUCKETS, _ => []);
    }

    /** wifi_lo_find_by_port */
    method FindByPort(lport: nat, rport: nat) returns (found: Option<nat>)
      requires Valid()
      ensures found == PortLookup(Contents(), lport, rport)
    {
      var chain := ports[Bucket(PortKey(lport, rport))];
      ghost var p := (s: Slot) => PortMatch(s, lport, rport);
      for k := 0 to |chain|
        invariant ChainFind(chain, slots[..], p) == ChainFind(chain[k..], slots[..], p)
      {
        var i := chain[k];
        assert i in ports[Bucket(PortKey(lport, rport))];
        assert chain[k..][1..] == chain[k + 1..];
        if !slots[i].valid { continue; }
        if slots[i].lport != lport || slots[i].rport != rport { continue; }
        return Some(i);
      }
      return None;
    }

    /** wifi_lo_find_by_hash */
    method FindByHash(hash: nat) returns (found: Option<nat>)
      requires Valid()
      ensures found == HashLookup(Contents(), hash)
    {
      if hash == 0 { return None; }
      var chain := hashes[Bucket(hash)];
      ghost var p := (s: Slot) => HashMatch(s, hash);
      for k := 0 to |chain|
        invariant ChainFind(chain, slots[..], p) == ChainFind(chain[k..], slots[..], p)
      {
        var i := chain[k];
        assert i in hashes[Bucket(hash)];
        assert chain[k..][1..] == chain[k + 1..];
        if !slots[i].valid { continue; }
        if slots[i].hash != hash { continue; }
        return Some(i);
      }
      return None;
    }

    /** wifi_lo_add_ety, lines 851-891 */
    method AddEty(lport: nat, rport: nat, sk: Option<nat>, dst: Option<nat>, now: nat) returns (added: bool)
      requires Valid()
      modifies this, slots
      ensures Valid()
      ensures var free := FreeFrom(old(slots[..]), 0);
              && added == free.Some?
              && Contents() == if added then Install(old(Contents()), free.value, lport, rport, sk, dst, now)
                               else old(Contents())
    {
      added := false;
      for i := 0 to MAX_NUM
        invariant Valid() && Contents() == old(Contents())
        invariant FreeFrom(old(slots[..]), 0) == FreeFrom(old(slots[..]), i)
      {
        if slots[i].valid || slots[i].releasing { continue; }
        InstallKeepsIndex(Contents(), i, lport, rport, sk, dst, now);
        hide Bucket, IndexOk;
        slots[i] := Slot(true, false, false, false, lport, rport, 0, now, sk, None, dst, slots[i].pending);
        ports := HashAdd(ports, PortKey(lport, rport), i);
        assert Contents().slots == old(slots[..])[i := slots[i]];
        return true;
      }
    }

    /** wifi_lo_free_dev */
    method FreeDev(i: nat) returns (freed: Freed)
      requires i < slots.Length
      modifies slots
      ensures slots[..] == old(slots[..])[i := Freeing(old(slots[i])).0]
      ensures freed == Freeing(old(slots[i])).1
    {
      var dev := slots[i].dev;
      slots[i] := slots[i].(dev := None);
      if dev.None? { return NoDevice; }
      var wasReleasing := slots[i].releasing;
      slots[i] := slots[i].(releasing := true);
      if wasReleasing { return PutInline(dev.value); }
      slots[i] := slots[i].(pending := dev);
      return Queued;
    }

    /**
     wifi_lo_timeout, lines 756-798: the references it hands over for release after the lock, the socket
     whose mark it clears, and the port pair (remote first) it hands to the PPE's clean hook. difcActive is
     the other offload's answer to whether it uses the socket.
     */
    method Timeout(i: nat, now: nat, difcActive: bool)
      returns (expired: bool, sk: Option<nat>, dst: Option<nat>, freed: Freed, cleared: Option<nat>, clean: Option<(nat, nat)>)
      requires Valid() && i < MAX_NUM
      modifies this, slots
      ensures Valid()
      ensures expired <==> !(now < old(slots[i].lastTx) + EXPIRE_TIME)
      ensures Contents() == if expired then Expire(old(Contents()), i) else old(Contents())
      ensures sk == (if expired then old(slots[i].sk) else None)
      ensures dst == (if expired then old(slots[i].txDst) else None)
      ensures freed == (if expired then Freeing(old(slots[i])).1 else NoDevice)
      ensures cleared == (if expired && !difcActive then old(slots[i].sk) else None)
      ensures clean == (if expired && !difcActive then Some((old(slots[i].rport), old(slots[i].lport))) else None)
    {
      cleared, clean := None, None;
      if now < slots[i].lastTx + EXPIRE_TIME {
        return false, None, None, NoDevice, None, None;
      }
      ExpireKeepsIndex(Contents(), i);
      hide Bucket, IndexOk, Without;
      sk := slots[i].sk;
      if !difcActive { cleared, clean := sk, Some((slots[i].rport, slots[i].lport)); }
      slots[i] := slots[i].(sk := None);
      ports := HashDel(ports, i);
      hashes := HashDel(hashes, i);
      freed := FreeDev(i);
      dst := slots[i].txDst;
      slots[i] := slots[i].(txDst := None);
      slots[i] := slots[i].(isWifi := false);
      slots[i] := slots[i].(valid := false);
      slots[i] := slots[i].(hash := 0);
      expired := true;
      assert Contents().slots == old(slots[..])[i := slots[i]];
    }

    /** wifi_lo_hash_publish */
    method HashPublish(i: nat, hash: nat)
      requires Valid() && i < MAX_NUM && hash != 0
      modifies this, slots
      ensures Valid()
      ensures Contents() == Stamp(old(Contents()), i, hash)
    {
      StampKeepsIndex(Contents(), i, hash);
      hide Bucket, IndexOk;
      if slots[i].valid && slots[i].hash == 0 {
        slots[i] := slots[i].(hash := hash);
        hashes := HashAdd(hashes, hash, i);
        assert Contents().slots == old(slots[..])[i := slots[i]];
      }
    }

    /** wifi_lo_publish_ingress_dev; held says whether the session keeps the reference taken. */
    method PublishIngressDev(i: nat, dev: nat, bridge: bool, wifiOnly: bool, wifi: bool) returns (held: bool)
      requires Valid() && i < MAX_NUM
      modifies slots
      ensures Valid()
      ensures held == CanPublish(old(slots[i]), bridge, wifiOnly, wifi)
      ensures Contents() == if held then PublishDev(old(Contents()), i, dev, wifi) else old(Contents())
    {
      if bridge { return false; }
      if wifiOnly && !wifi { return false; }
      if slots[i].dev.Some? { return false; }
      TouchKeepsIndex(Contents(), i, slots[i].(dev := Some(dev), isWifi := slots[i].isWifi || wifi));
      hide Bucket, IndexOk;
      slots[i] := slots[i].(dev := Some(dev));
      if wifi {
        slots[i] := slots[i].(isWifi := true);
      }
      held := true;
      assert Contents().slots == old(slots[..])[i := slots[i]];
    }
  }
}
