/**
 Which session a lookup of arht_wifi_lo.c finds when several match: wifi_lo_add_ety does not ask whether a port pair
 is there already, and hlist heads are newest first.
 */
module WifiLoOrder {
  import opened Wrappers
  import opened WifiLoTable

  /** Chain nodes that match in both tables or in neither are searched alike. */
  lemma {:induction false} FindsAlike(chain: seq<nat>, a: seq<Slot>, b: seq<Slot>, p: Slot -> bool)
    requires |a| == |b| && forall i :: 0 <= i < |a| ==> (p(a[i]) <==> p(b[i]))
    ensures ChainFind(chain, a, p) == ChainFind(chain, b, p)
  {
    if |chain| > 0 { FindsAlike(chain[1..], a, b, p); }
  }

  /** Taking off a node other than the one found, which no longer matches, changes nothing. */
  lemma {:induction false} FindsWithout(chain: seq<nat>, a: seq<Slot>, x: Slot, i: nat, p: Slot -> bool)
    requires i < |a| && !p(x) && ChainFind(chain, a, p) != Some(i)
    ensures ChainFind(Without(chain, i), a[i := x], p) == ChainFind(chain, a, p)
  {
    if |chain| > 0 && !(chain[0] < |a| && p(a[chain[0]])) {
      FindsWithout(chain[1..], a, x, i, p);
    }
  }

  /** After an add its pair finds the new session, whatever other sessions have the pair; every other lookup is as before. */
  lemma AddedIsFound(t: Table, i: nat, lport: nat, rport: nat, sk: Option<nat>, dst: Option<nat>, now: nat)
    requires IndexOk(t) && i < |t.slots| && !t.slots[i].valid
    ensures var t' := Install(t, i, lport, rport, sk, dst, now);
            && |t'.ports| == BUCKETS && |t'.hashes| == BUCKETS
            && PortLookup(t', lport, rport) == Some(i)
            && (forall l: nat, r: nat :: (l, r) != (lport, rport) ==> PortLookup(t', l, r) == PortLookup(t, l, r))
            && (forall h: nat :: HashLookup(t', h) == HashLookup(t, h))
  {
    hide Bucket;
    var t' := Install(t, i, lport, rport, sk, dst, now);
    forall l: nat, r: nat | (l, r) != (lport, rport)
      ensures PortLookup(t', l, r) == PortLookup(t, l, r)
    {
      FindsAlike(t.ports[Bucket(PortKey(l, r))], t.slots, t'.slots, s => PortMatch(s, l, r));
    }
    forall h: nat
      ensures HashLookup(t', h) == HashLookup(t, h)
    {
      if h != 0 { FindsAlike(t.hashes[Bucket(h)], t.slots, t'.slots, s => HashMatch(s, h)); }
    }
  }

  /** After a stamp its hash finds that session; every other lookup is as before. */
  lemma StampedIsFound(t: Table, i: nat, hash: nat)
    requires IndexOk(t) && i < |t.slots| && t.slots[i].valid && t.slots[i].hash == 0 && hash != 0
    ensures var t' := Stamp(t, i, hash);
            && |t'.ports| == BUCKETS && |t'.hashes| == BUCKETS
            && HashLookup(t', hash) == Some(i)
            && (forall h: nat :: h != hash ==> HashLookup(t', h) == HashLookup(t, h))
            && (forall l: nat, r: nat :: PortLookup(t', l, r) == PortLookup(t, l, r))
  {
    hide Bucket;
    var t' := Stamp(t, i, hash);
    forall h: nat | h != hash
      ensures HashLookup(t', h) == HashLookup(t, h)
    {
      if h != 0 { FindsAlike(t.hashes[Bucket(h)], t.slots, t'.slots, s => HashMatch(s, h)); }
    }
    forall l: nat, r: nat
      ensures PortLookup(t', l, r) == PortLookup(t, l, r)
    {
      FindsAlike(t.ports[Bucket(PortKey(l, r))], t.slots, t'.slots, s => PortMatch(s, l, r));
    }
  }

  /** The end of a session changes no lookup that did not find it. */
  lemma ExpireKeepsLookups(t: Table, i: nat)
    requires IndexOk(t) && i < |t.slots|
    ensures var t' := Expire(t, i);
            && |t'.ports| == BUCKETS && |t'.hashes| == BUCKETS
            && (forall l: nat, r: nat :: PortLookup(t, l, r) != Some(i) ==> PortLookup(t', l, r) == PortLookup(t, l, r))
            && (forall h: nat :: HashLookup(t, h) != Some(i) ==> HashLookup(t', h) == HashLookup(t, h))
  {
    hide Bucket, Without;
    var t' := Expire(t, i);
    forall l: nat, r: nat | PortLookup(t, l, r) != Some(i)
      ensures PortLookup(t', l, r) == PortLookup(t, l, r)
    {
      FindsWithout(t.ports[Bucket(PortKey(l, r))], t.slots, ExpiredSlot(t.slots[i]), i, s => PortMatch(s, l, r));
    }
    forall h: nat | HashLookup(t, h) != Some(i)
      ensures HashLookup(t', h) == HashLookup(t, h)
    {
      if h != 0 { FindsWithout(t.hashes[Bucket(h)], t.slots, ExpiredSlot(t.slots[i]), i, s => HashMatch(s, h)); }
    }
  }
}
