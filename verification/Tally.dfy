/** Counting the references a table holds: for each value, how many elements point to it. */
module Tally {
  import opened Wrappers

  /** How many elements satisfy p. */
  ghost function Count<T>(s: seq<T>, p: T -> bool): nat {
    if |s| == 0 then 0 else Count(s[..|s| - 1], p) + if p(s[|s| - 1]) then 1 else 0
  }

  lemma {:induction false} CountUpdate<T>(s: seq<T>, i: nat, x: T, p: T -> bool)
    requires i < |s|
    ensures Count(s[i := x], p) + (if p(s[i]) then 1 else 0) == Count(s, p) + if p(x) then 1 else 0
    decreases |s|
  {
    var n := |s| - 1;
    if i < n {
      CountUpdate(s[..n], i, x, p);
      assert s[i := x][..n] == s[..n][i := x];
    } else {
      assert s[i := x][..n] == s[..n];
    }
  }

  lemma CountAppend<T>(s: seq<T>, x: T, p: T -> bool)
    ensures Count(s + [x], p) == Count(s, p) + if p(x) then 1 else 0
  {
    assert (s + [x])[..|s|] == s;
  }

  lemma {:induction false} CountAtLeastOne<T>(s: seq<T>, i: nat, p: T -> bool)
    requires i < |s| && p(s[i])
    ensures Count(s, p) > 0
    decreases |s|
  {
    if i < |s| - 1 { CountAtLeastOne(s[..|s| - 1], i, p); }
  }

  /** How many elements of s hold v in field f. */
  ghost function Refs<T>(s: seq<T>, f: T -> Option<nat>, v: nat): nat {
    if |s| == 0 then 0 else Refs(s[..|s| - 1], f, v) + if f(s[|s| - 1]) == Some(v) then 1 else 0
  }

  lemma {:induction false} RefsUpdate<T>(s: seq<T>, i: nat, x: T, f: T -> Option<nat>, v: nat)
    requires i < |s|
    ensures Refs(s[i := x], f, v) + (if f(s[i]) == Some(v) then 1 else 0) == Refs(s, f, v) + if f(x) == Some(v) then 1 else 0
    decreases |s|
  {
    var n := |s| - 1;
    if i < n {
      RefsUpdate(s[..n], i, x, f, v);
      assert s[i := x][..n] == s[..n][i := x];
    } else {
      assert s[i := x][..n] == s[..n];
    }
  }

  lemma RefsAppend<T>(s: seq<T>, x: T, f: T -> Option<nat>, v: nat)
    ensures Refs(s + [x], f, v) == Refs(s, f, v) + if f(x) == Some(v) then 1 else 0
  {
    assert (s + [x])[..|s|] == s;
  }

  lemma RefsUpdateAll<T>(s: seq<T>, i: nat, x: T, f: T -> Option<nat>)
    requires i < |s|
    ensures forall v: nat {:trigger Refs(s[i := x], f, v)} ::
              Refs(s[i := x], f, v) + (if f(s[i]) == Some(v) then 1 else 0) == Refs(s, f, v) + if f(x) == Some(v) then 1 else 0
  {
    forall v: nat { RefsUpdate(s, i, x, f, v); }
  }

  lemma RefsAppendAll<T>(s: seq<T>, x: T, f: T -> Option<nat>)
    ensures forall v: nat {:trigger Refs(s + [x], f, v)} ::
              Refs(s + [x], f, v) == Refs(s, f, v) + if f(x) == Some(v) then 1 else 0
  {
    forall v: nat { RefsAppend(s, x, f, v); }
  }

  lemma {:induction false} RefsPositive<T>(s: seq<T>, i: nat, f: T -> Option<nat>, v: nat)
    requires i < |s| && f(s[i]) == Some(v)
    ensures Refs(s, f, v) > 0
    decreases |s|
  {
    if i < |s| - 1 { RefsPositive(s[..|s| - 1], i, f, v); }
  }

  lemma {:induction false} RefsNone<T>(s: seq<T>, f: T -> Option<nat>, v: nat)
    requires forall i :: 0 <= i < |s| ==> f(s[i]) != Some(v)
    ensures Refs(s, f, v) == 0
    decreases |s|
  {
    if |s| > 0 { RefsNone(s[..|s| - 1], f, v); }
  }

  lemma {:induction false} CountNone<T>(s: seq<T>, p: T -> bool)
    requires forall i :: 0 <= i < |s| ==> !p(s[i])
    ensures Count(s, p) == 0
    decreases |s|
  {
    if |s| > 0 { CountNone(s[..|s| - 1], p); }
  }

  lemma {:induction false} CountPositive<T>(s: seq<T>, p: T -> bool) returns (i: nat)
    requires Count(s, p) > 0
    ensures i < |s| && p(s[i])
    decreases |s|
  {
    var n := |s| - 1;
    if p(s[n]) {
      i := n;
    } else {
      i := CountPositive(s[..n], p);
    }
  }

  /** Reference counts: taking and dropping one. */
  function Take(refs: multiset<nat>, o: Option<nat>): multiset<nat> {
    if o.Some? then refs + multiset{o.value} else refs
  }

  function Drop(refs: multiset<nat>, o: Option<nat>): multiset<nat> {
    if o.Some? then refs - multiset{o.value} else refs
  }

  /** Dropping o is matched by a reference that is still out. */
  predicate CanDrop(refs: multiset<nat>, o: Option<nat>) {
    o.Some? ==> o.value in refs
  }
}
