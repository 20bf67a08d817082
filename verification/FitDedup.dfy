/**
 cascade/image/srg-fit-dedup.py as a whole: alias one FIT image node's payload onto another's, and
 what the written file means afterwards.
 */
module FitDedup {
  import opened Wrappers
  import opened Fdt
  import opened FitRewrite

  const IMAGES: Text := [47, 105, 109, 97, 103, 101, 115, 47] // "/images/"

  function ImagePath(node: Text): Text { IMAGES + node }

  lemma ImagePathInjective(a: Text, b: Text)
    requires ImagePath(a) == ImagePath(b)
    ensures a == b
  {
    assert ImagePath(a)[|IMAGES|..] == a && ImagePath(b)[|IMAGES|..] == b;
  }

  /** s[a:b] with Python's clipping. */
  function Slice(s: seq<Byte>, a: nat, b: nat): seq<Byte> {
    if a >= |s| || b <= a then [] else if b >= |s| then s[a..] else s[a..b]
  }

  // ---------------------------------------------------------------- meaning

  /** What a reader of the tree sees: for every property its node path, its name and its value. */
  datatype Entry = Entry(path: Text, name: Text, value: seq<Byte>)

  function Value(f: Blob, p: Prop): seq<Byte> { Slice(f.bytes, p.valOff, p.valOff + p.valLen) }

  function EntryOf(f: Blob, p: Prop): Entry { Entry(p.path, p.name, Value(f, p)) }

  function Meaning(f: Blob): (m: seq<Entry>)
    ensures |m| == |PropsWalk(f).props|
  {
    var props := PropsWalk(f).props;
    seq(|props|, i requires 0 <= i < |props| => EntryOf(f, props[i]))
  }

  /** Reserve map before structure before strings, strings within the total size, which is the file's. */
  predicate Ordered(f: Blob) {
    f.offRsvmap < f.offStruct < f.offStrings && f.StringsEnd() <= f.totalSize == |f.bytes|
  }

  /** Blobs the Devicetree Specification allows and the tool is meant for. */
  ghost predicate WellFormed(f: Blob) {
    && Open(f.bytes) == Ok(f)
    && Ordered(f)
    && HEADER_SIZE <= f.offStruct
    && Aligned4(f.sizeStruct) && f.StructEnd() <= f.offStrings
    && PropsWalk(f).failure.None?
    && NamesInside(f, PropsWalk(f).props)
  }

  lemma WellFormedCuttable(f: Blob, k: nat)
    requires WellFormed(f) && k < |PropsWalk(f).props|
    ensures Cuttable(f, PropsWalk(f).props[k])
    ensures Walkable(f, f.offStruct, [])
  {
    hide WalkFrom, NamesInside;
    CompleteWalkInOrder(f, f.offStruct, []);
  }

  lemma RewriteCarriesStrings(f: Blob, g: Blob, p: Prop, size: nat, pos: nat)
    requires Editable(f, p) && size < U32 && pos < U32 && IsRewrite(f, g, p, size, pos)
    ensures StringsCarried(f, g)
  {
    hide PropBytes;
    var n := f.StringsEnd() - p.End();
    SubSlice(f.bytes, p.End(), g.bytes, p.propOff + 32, n, f.offStrings - p.End(), n);
  }

  /** Where value m starts once entry k is rewritten. */
  function MovedTo(props: seq<Prop>, k: nat, m: nat): int
    requires k < |props| && m < |props|
  {
    if m < k then props[m].valOff else props[m].valOff + Delta(props[k])
  }

  lemma SliceInside(s: seq<Byte>, a: nat, b: nat)
    requires a <= b <= |s|
    ensures Slice(s, a, b) == s[a..b]
  {
  }

  /** Values in front of the cut keep their place and bytes. */
  lemma HeadValue(f: Blob, g: Blob, p: Prop, size: nat, pos: nat, at: nat, len: nat)
    requires Editable(f, p) && size < U32 && pos < U32 && IsRewrite(f, g, p, size, pos)
    requires HEADER_SIZE <= at && at + len <= p.propOff
    ensures at + len <= |g.bytes| && at + len <= |f.bytes|
    ensures g.bytes[at..at + len] == f.bytes[at..at + len]
  {
    hide PropBytes;
    SubSlice(f.bytes, HEADER_SIZE, g.bytes, HEADER_SIZE, p.propOff - HEADER_SIZE,
             at - HEADER_SIZE, at + len - HEADER_SIZE);
  }

  /** Values behind the cut move and keep their bytes. */
  lemma TailValue(f: Blob, g: Blob, p: Prop, size: nat, pos: nat, at: nat, len: nat)
    requires Editable(f, p) && size < U32 && pos < U32 && IsRewrite(f, g, p, size, pos)
    requires p.End() <= at && at + len <= f.StructEnd()
    ensures 0 <= at + Delta(p) && at + Delta(p) + len <= |g.bytes| && at + len <= |f.bytes|
    ensures g.bytes[at + Delta(p)..at + Delta(p) + len] == f.bytes[at..at + len]
  {
    hide PropBytes, Pad4;
    SubSlice(f.bytes, p.End(), g.bytes, p.propOff + 32, f.StringsEnd() - p.End(),
             at - p.End(), at + len - p.End());
  }

  lemma PropsInOrder(f: Blob)
    requires WellFormed(f)
    ensures InOrder(f, f.offStruct, PropsWalk(f).props)
  {
    hide WalkFrom, InOrder, NamesInside;
    CompleteWalkInOrder(f, f.offStruct, []);
  }

  lemma OrderAround(f: Blob, props: seq<Prop>, k: nat, i: nat)
    requires InOrder(f, f.offStruct, props) && k < |props| && i < |props| && i != k
    requires Editable(f, props[k])
    ensures var p, q := props[k], props[i];
            && HEADER_SIZE <= q.propOff && q.valOff == q.propOff + 12
            && q.valOff + q.valLen <= f.StructEnd()
            && if i < k then q.valOff + q.valLen <= p.propOff else p.End() <= q.propOff
  {
    assert if i < k then props[i].End() <= props[k].propOff else props[k].End() <= props[i].propOff;
  }

  /** Every other value survives the rewrite of entry k. */
  lemma ValueMoves(f: Blob, g: Blob, props: seq<Prop>, k: nat, i: nat, size: nat, pos: nat)
    requires InOrder(f, f.offStruct, props) && k < |props| && i < |props| && i != k
    requires Editable(f, props[k]) && size < U32 && pos < U32 && IsRewrite(f, g, props[k], size, pos)
    ensures var at, len := MovedTo(props, k, i), props[i].valLen;
            && 0 <= at && at + len <= |g.bytes|
            && g.bytes[at..at + len] == Value(f, props[i])
            && |Value(f, props[i])| == len
    ensures props[i].valOff == props[i].propOff + 12
    ensures i > k ==> props[i].propOff + Delta(props[k]) >= 0
  {
    hide InOrder, IsRewrite, Value, Editable, Pad4;
    OrderAround(f, props, k, i);
    OneValueMoves(f, g, props[k], props[i], i < k, size, pos);
  }

  lemma OneValueMoves(f: Blob, g: Blob, p: Prop, q: Prop, front: bool, size: nat, pos: nat)
    requires Editable(f, p) && size < U32 && pos < U32 && IsRewrite(f, g, p, size, pos)
    requires HEADER_SIZE <= q.propOff && q.valOff == q.propOff + 12 && q.valOff + q.valLen <= f.StructEnd()
    requires if front then q.valOff + q.valLen <= p.propOff else p.End() <= q.propOff
    ensures var at, len := if front then q.valOff else q.valOff + Delta(p), q.valLen;
            && 0 <= at && at + len <= |g.bytes|
            && g.bytes[at..at + len] == Value(f, q)
            && |Value(f, q)| == len
    ensures !front ==> q.propOff + Delta(p) >= 0
  {
    hide *;
    if front {
      HeadValue(f, g, p, size, pos, q.valOff, q.valLen);
    } else {
      TailValue(f, g, p, size, pos, q.valOff, q.valLen);
      EndMoved(p);
    }
    ValueInside(f, q);
  }

  lemma EndMoved(p: Prop)
    ensures p.End() + Delta(p) == p.propOff + 32
  {
  }

  lemma ValueInside(f: Blob, p: Prop)
    requires p.valOff + p.valLen <= |f.bytes|
    ensures Value(f, p) == f.bytes[p.valOff..p.valOff + p.valLen] && |Value(f, p)| == p.valLen
  {
  }

  /** The rewritten blob, opened. */
  function RewrittenBlob(f: Blob, k: nat, size: nat, pos: nat): (g: Blob)
    requires WellFormed(f) && k < |PropsWalk(f).props| && Fits(f, PropsWalk(f).props[k])
    requires size < U32 && pos < U32
    ensures Open(g.bytes) == Ok(g) && Ordered(g)
    ensures Editable(f, PropsWalk(f).props[k]) && IsRewrite(f, g, PropsWalk(f).props[k], size, pos)
  {
    WellFormedCuttable(f, k);
    RewrittenIsRewrite(f, PropsWalk(f).props[k], size, pos);
    Open(Rewritten(f, PropsWalk(f).props[k], size, pos)).value
  }

  /** Its property list, independent of the position written. */
  lemma RewrittenProps(f: Blob, k: nat, size: nat, pos: nat)
    requires WellFormed(f) && k < |PropsWalk(f).props| && Fits(f, PropsWalk(f).props[k])
    requires size < U32 && pos < U32
    ensures var props, g := PropsWalk(f).props, RewrittenBlob(f, k, size, pos);
            && props[k].valOff == props[k].propOff + 12 && AllBehind(props[k + 1..], props[k].End())
            && PropsWalk(g) == Walk(Replaced(props, k), None)
  {
    var p := PropsWalk(f).props[k];
    WellFormedCuttable(f, k);
    var g := RewrittenBlob(f, k, size, pos);
    hide RewrittenBlob, IsRewrite, Editable, Walkable, StringsCarried, WellFormed;
    RewriteCarriesStrings(f, g, p, size, pos);
    EntryAt(f, f.offStruct, [], k);
    RewriteWalk(f, g, f.offStruct, [], k, size, pos);
  }

  /**
   The rewrite preserves meaning: walking the rewritten blob yields the original entries in order,
   with entry k alone replaced, in place, by the two accessors.
   */
  lemma RewritePreservesMeaning(f: Blob, k: nat, size: nat, pos: nat)
    requires WellFormed(f) && k < |PropsWalk(f).props| && Fits(f, PropsWalk(f).props[k])
    requires size < U32 && pos < U32
    ensures var node := PropsWalk(f).props[k].path;
            Meaning(RewrittenBlob(f, k, size, pos)) ==
            Meaning(f)[..k]
            + [Entry(node, DATA_POSITION, Pack32(pos)), Entry(node, DATA_SIZE, Pack32(size))]
            + Meaning(f)[k + 1..]
  {
    RewrittenProps(f, k, size, pos);
    PropsInOrder(f);
    var g := RewrittenBlob(f, k, size, pos);
    var props := PropsWalk(f).props;
    AccessorValues(f, g, props[k], size, pos);
    RewrittenEntries(f, g, props, k, size, pos);
    hide RewrittenBlob, WellFormed, PropsWalk, InOrder, IsRewrite, Replaced, Editable;
    assert Meaning(f)[k].path == props[k].path;
    assert Meaning(g)[..] == Meaning(g);
  }

  lemma RewrittenEntries(f: Blob, g: Blob, props: seq<Prop>, k: nat, size: nat, pos: nat)
    requires InOrder(f, f.offStruct, props) && k < |props| && props == PropsWalk(f).props
    requires Editable(f, props[k]) && size < U32 && pos < U32 && IsRewrite(f, g, props[k], size, pos)
    requires AllBehind(props[k + 1..], props[k].End()) && PropsWalk(g).props == Replaced(props, k)
    ensures Meaning(g) ==
            Meaning(f)[..k] + [EntryOf(g, PositionProp(props[k])), EntryOf(g, SizeProp(props[k]))] + Meaning(f)[k + 1..]
  {
    forall i | 0 <= i < |props| && i != k
      ensures Meaning(g)[if i < k then i else i + 1] == Meaning(f)[i]
    {
      EntryMoves(f, g, props, k, i, size, pos);
    }
    var a, b := Meaning(f), Meaning(g);
    assert b[k] == EntryOf(g, PositionProp(props[k])) && b[k + 1] == EntryOf(g, SizeProp(props[k]));
    hide *;
    forall i | k + 1 < i < |b|
      ensures b[i] == a[i - 1]
    {
      assert i - 1 != k;
    }
    SeqReplaced(a, b, k);
  }

  lemma EntryMoves(f: Blob, g: Blob, props: seq<Prop>, k: nat, i: nat, size: nat, pos: nat)
    requires InOrder(f, f.offStruct, props) && k < |props| && props == PropsWalk(f).props
    requires Editable(f, props[k]) && size < U32 && pos < U32 && IsRewrite(f, g, props[k], size, pos)
    requires props[k].valOff == props[k].propOff + 12
    requires AllBehind(props[k + 1..], props[k].End()) && PropsWalk(g).props == Replaced(props, k)
    requires i < |props| && i != k
    ensures Meaning(g)[if i < k then i else i + 1] == Meaning(f)[i]
  {
    hide InOrder, IsRewrite, Editable, PropsWalk, Delta, Slice;
    ValueMoves(f, g, props, k, i, size, pos);
    var at, len := MovedTo(props, k, i), props[i].valLen;
    SliceInside(g.bytes, at, at + len);
    if i > k {
      assert Replaced(props, k)[i + 1] == Move(props[k + 1..][i - k - 1], Delta(props[k]));
    }
  }

  lemma SeqReplaced<T>(a: seq<T>, b: seq<T>, k: nat)
    requires |b| == |a| + 1 && k < |a|
    requires forall i :: 0 <= i < k ==> b[i] == a[i]
    requires forall i :: k + 1 < i < |b| ==> b[i] == a[i - 1]
    ensures b == a[..k] + [b[k], b[k + 1]] + a[k + 1..]
  {
  }

  lemma AccessorValues(f: Blob, g: Blob, p: Prop, size: nat, pos: nat)
    requires Editable(f, p) && size < U32 && pos < U32 && IsRewrite(f, g, p, size, pos)
    ensures Value(g, PositionProp(p)) == Pack32(pos) && Value(g, SizeProp(p)) == Pack32(size)
    ensures p.propOff + 32 <= |g.bytes|
  {
    hide Unpack;
    FourChunks(Pack32(FDT_PROP), Pack32(4), Pack32(f.sizeStrings), Pack32(pos));
    FourChunks(Pack32(FDT_PROP), Pack32(4), Pack32(f.sizeStrings + |DATA_POSITION| + 1), Pack32(size));
    SliceOfSlice(g.bytes, p.propOff, p.propOff + 16, 12, 16);
    SliceOfSlice(g.bytes, p.propOff + 16, p.propOff + 32, 12, 16);
  }

  // ---------------------------------------------------------------- patching the position

  lemma PutCommutes(s: seq<Byte>, a: nat, x: nat, b: nat, y: nat)
    requires a + 4 <= b && b + 4 <= |s| && x < U32 && y < U32
    ensures Put32(Put32(s, a, x), b, y) == Put32(Put32(s, b, y), a, x)
  {
    hide Unpack;
  }

  /** Patching the placeholder gives the blob that would have been built with the position known. */
  lemma PatchIsRewrite(f: Blob, p: Prop, size: nat, pos: nat)
    requires Editable(f, p) && size < U32 && pos < U32
    ensures p.propOff + 16 <= |Rewritten(f, p, size, 0)|
    ensures Put32(Rewritten(f, p, size, 0), p.propOff + 12, pos) == Rewritten(f, p, size, pos)
  {
    SplicedAtPosition(f, p, size, pos);
    var s := Spliced(f, p, size, 0);
    PatchedCommutes(s, |s|, f.offStrings + Delta(p), f.sizeStrings + |NEW_STRINGS|, f.sizeStruct + Delta(p),
                    p.propOff + 12, pos);
    hide Put32, Spliced, Patched, Pad4;
  }

  lemma PatchedCommutes(s: seq<Byte>, n: nat, o: nat, z: nat, t: nat, at: nat, pos: nat)
    requires HEADER_SIZE <= at && at + 4 <= |s| && n < U32 && o < U32 && z < U32 && t < U32 && pos < U32
    ensures Put32(Patched(s, n, o, z, t), at, pos) == Patched(Put32(s, at, pos), n, o, z, t)
  {
    hide Put32;
    PutCommutes(Put32(Put32(Put32(s, 4, n), 12, o), 32, z), 36, t, at, pos);
    PutCommutes(Put32(Put32(s, 4, n), 12, o), 32, z, at, pos);
    PutCommutes(Put32(s, 4, n), 12, o, at, pos);
    PutCommutes(s, 4, n, at, pos);
  }

  lemma SplicedAtPosition(f: Blob, p: Prop, size: nat, pos: nat)
    requires Editable(f, p) && size < U32 && pos < U32
    ensures p.propOff + 16 <= |Spliced(f, p, size, 0)|
    ensures Put32(Spliced(f, p, size, 0), p.propOff + 12, pos) == Spliced(f, p, size, pos)
  {
    hide Unpack;
    var h := f.bytes[..p.propOff];
    var w := Pack32(FDT_PROP) + Pack32(4) + Pack32(f.sizeStrings);
    var rest := PropBytes(f.sizeStrings + |DATA_POSITION| + 1, size) + f.bytes[p.End()..f.StringsEnd()] + NEW_STRINGS;
    assert forall v: nat :: v < U32 ==> Spliced(f, p, size, v) == (h + w) + Pack32(v) + rest;
  }

  // ---------------------------------------------------------------- the whole run

  ghost predicate SecondData(props: seq<Prop>, k: nat, path: Text) {
    exists i :: k < i < |props| && Matches(props[i], path, DATA)
  }

  ghost predicate NoAccessorsBefore(props: seq<Prop>, k: nat, path: Text) {
    forall i :: 0 <= i < k && i < |props| ==> !Matches(props[i], path, DATA_POSITION) && !Matches(props[i], path, DATA_SIZE)
  }

  predicate SameKey(p: Prop, q: Prop) { p.path == q.path && p.name == q.name }

  /** q is props with entry k replaced by two others. */
  ghost predicate KeysReplaced(props: seq<Prop>, q: seq<Prop>, k: nat) {
    && k < |props| && |q| == |props| + 1
    && (forall j {:trigger q[j]} :: 0 <= j < k ==> SameKey(q[j], props[j]))
    && (forall j :: k + 2 <= j < |q| ==> SameKey(q[j], props[j - 1]))
  }

  lemma ReplacedKeys(props: seq<Prop>, k: nat)
    requires k < |props| && props[k].valOff == props[k].propOff + 12 && AllBehind(props[k + 1..], props[k].End())
    ensures var q := Replaced(props, k);
            && |q| == |props| + 1
            && q[k] == PositionProp(props[k]) && q[k + 1] == SizeProp(props[k])
            && KeysReplaced(props, q, k)
  {
    var q := Replaced(props, k);
    forall j | k + 2 <= j < |q|
      ensures SameKey(q[j], props[j - 1])
    {
      assert q[j] == Move(props[k + 1..][j - k - 2], Delta(props[k]));
    }
  }

  lemma SameKeyMatches(p: Prop, q: Prop, path: Text, name: Text)
    requires SameKey(p, q)
    ensures Matches(p, path, name) == Matches(q, path, name)
  {
  }

  /** A lookup that neither the old entry nor the new ones answer finds the same property. */
  lemma LookupElsewhere(props: seq<Prop>, q: seq<Prop>, k: nat, path: Text, name: Text)
    requires KeysReplaced(props, q, k)
    requires !Matches(q[k], path, name) && !Matches(q[k + 1], path, name) && !Matches(props[k], path, name)
    requires FirstIndex(props, path, name) < |props|
    ensures var m := FirstIndex(props, path, name); m != k && FirstIndex(q, path, name) == if m < k then m else m + 1
  {
    hide FirstIndex, SameKey, Matches;
    var m := FirstIndex(props, path, name);
    var r := FirstIndex(q, path, name);
    var n := if m < k then m else m + 1;
    assert n >= k + 2 ==> SameKey(q[n], props[n - 1]);
    SameKeyMatches(q[n], props[m], path, name);
    if r < n {
      SameKeyMatches(q[r], props[if r < k then r else r - 1], path, name);
    }
  }

  /** A lookup the old entry answered is answered by a later duplicate, if there is one. */
  lemma LookupGone(props: seq<Prop>, q: seq<Prop>, k: nat, path: Text, name: Text)
    requires KeysReplaced(props, q, k)
    requires !Matches(q[k], path, name) && !Matches(q[k + 1], path, name)
    requires FirstIndex(props, path, name) == k
    ensures FirstIndex(q, path, name) < |q| <==> exists i :: k < i < |props| && Matches(props[i], path, name)
  {
    hide FirstIndex, SameKey, Matches;
    var r := FirstIndex(q, path, name);
    if i :| k < i < |props| && Matches(props[i], path, name) {
      assert SameKey(q[i + 1], props[i + 1 - 1]);
      SameKeyMatches(q[i + 1], props[i], path, name);
    }
    if r < |q| {
      SameKeyMatches(q[r], props[if r < k then r else r - 1], path, name);
      assert Matches(props[r - 1], path, name);
    }
  }

  /** A lookup only the new entries answer. */
  lemma LookupNew(props: seq<Prop>, q: seq<Prop>, k: nat, path: Text, name: Text, at: nat)
    requires KeysReplaced(props, q, k) && k <= at <= k + 1 && Matches(q[at], path, name)
    requires at == k + 1 ==> !Matches(q[k], path, name)
    requires forall i :: 0 <= i < k ==> !Matches(props[i], path, name)
    ensures FirstIndex(q, path, name) == at
  {
    hide FirstIndex, SameKey, Matches;
    var r := FirstIndex(q, path, name);
    if r < k {
      SameKeyMatches(q[r], props[r], path, name);
    }
  }

  /** The lookups of the alias on a rewritten property list. */
  lemma AliasLookups(props: seq<Prop>, k: nat, alias: Text)
    requires k < |props| && props[k].valOff == props[k].propOff + 12 && AllBehind(props[k + 1..], props[k].End())
    requires k == FirstIndex(props, alias, DATA) && NoAccessorsBefore(props, k, alias)
    ensures var q := Replaced(props, k);
            && FirstIndex(q, alias, DATA_POSITION) == k
            && FirstIndex(q, alias, DATA_SIZE) == k + 1
            && (FirstIndex(q, alias, DATA) < |q| <==> SecondData(props, k, alias))
  {
    ReplacedKeys(props, k);
    var q := Replaced(props, k);
    hide Replaced, AllBehind, FirstIndex, SameKey, KeysReplaced;
    LookupNew(props, q, k, alias, DATA_POSITION, k);
    LookupNew(props, q, k, alias, DATA_SIZE, k + 1);
    LookupGone(props, q, k, alias, DATA);
  }

  /** The lookup of the source on a rewritten property list. */
  lemma SourceLookup(props: seq<Prop>, k: nat, alias: Text, source: Text)
    requires k < |props| && props[k].valOff == props[k].propOff + 12 && AllBehind(props[k + 1..], props[k].End())
    requires k == FirstIndex(props, alias, DATA) && alias != source
    requires FirstIndex(props, source, DATA) < |props|
    ensures var m := FirstIndex(props, source, DATA);
            m != k && FirstIndex(Replaced(props, k), source, DATA) == if m < k then m else m + 1
  {
    ReplacedKeys(props, k);
    KeysDiffer(props, k, alias, source);
    hide *;
    LookupElsewhere(props, Replaced(props, k), k, source, DATA);
  }

  lemma SourceMoves(props: seq<Prop>, k: nat, m: nat)
    requires k < |props| && props[k].valOff == props[k].propOff + 12 && AllBehind(props[k + 1..], props[k].End())
    requires m < |props| && m != k
    ensures var q := Replaced(props, k)[if m < k then m else m + 1];
            q.valOff == MovedTo(props, k, m) && q.valLen == props[m].valLen
  {
    hide Pad4;
    if m > k {
      assert Replaced(props, k)[m + 1] == Move(props[k + 1..][m - k - 1], Delta(props[k]));
    }
  }

  /** Neither accessor nor the alias's own entry answers a lookup of another node's data. */
  lemma KeysDiffer(props: seq<Prop>, k: nat, alias: Text, source: Text)
    requires k < |props| && Matches(props[k], alias, DATA) && alias != source
    ensures !Matches(props[k], source, DATA)
    ensures !Matches(PositionProp(props[k]), source, DATA) && !Matches(SizeProp(props[k]), source, DATA)
  {
  }

  /** Index of a node's data property. */
  function DataIndex(f: Blob, node: Text): nat { FirstIndex(PropsWalk(f).props, ImagePath(node), DATA) }

  /** A payload can be aliased: what the caller can read off the two nodes before the run. */
  ghost predicate Aliasable(f: Blob, alias: Text, source: Text) {
    var props, k, m := PropsWalk(f).props, DataIndex(f, alias), DataIndex(f, source);
    && k < |props| && m < |props|
    && Value(f, props[k]) == Value(f, props[m])
    && alias != source
    && !SecondData(props, k, ImagePath(alias))
    && Fits(f, props[k])
  }

  /** All of that, but alias has a second data property. */
  ghost predicate AliasedTwice(f: Blob, alias: Text, source: Text) {
    var props, k, m := PropsWalk(f).props, DataIndex(f, alias), DataIndex(f, source);
    && k < |props| && m < |props|
    && Value(f, props[k]) == Value(f, props[m])
    && alias != source
    && SecondData(props, k, ImagePath(alias))
    && Fits(f, props[k])
  }

  /** The written file is the rewrite of alias's data entry, with source's offset and length in it. */
  ghost predicate Written(f: Blob, alias: Text, source: Text, out: seq<Byte>) {
    var props, k, m := PropsWalk(f).props, DataIndex(f, alias), DataIndex(f, source);
    && WellFormed(f) && k < |props| && m < |props| && Fits(f, props[k])
    && 0 <= MovedTo(props, k, m) < U32 && props[m].valLen < U32
    && out == RewrittenBlob(f, k, props[m].valLen, MovedTo(props, k, m)).bytes
  }

  /**
   The written file's meaning: every entry of the original, in order, with alias's data entry
   replaced, in place, by its two accessors.
   */
  lemma WrittenFileMeaning(f: Blob, alias: Text, source: Text, out: seq<Byte>)
    requires Written(f, alias, source, out)
    ensures Open(out).Ok? && Ordered(Open(out).value)
    ensures var props, k, m := PropsWalk(f).props, DataIndex(f, alias), DataIndex(f, source);
            && 0 <= MovedTo(props, k, m) < U32
            && Meaning(Open(out).value) ==
                 Meaning(f)[..k]
                 + [Entry(ImagePath(alias), DATA_POSITION, Pack32(MovedTo(props, k, m))),
                    Entry(ImagePath(alias), DATA_SIZE, Pack32(props[m].valLen))]
                 + Meaning(f)[k + 1..]
  {
    var props, k, m := PropsWalk(f).props, DataIndex(f, alias), DataIndex(f, source);
    assert props[k].path == ImagePath(alias);
    hide *;
    RewritePreservesMeaning(f, k, props[m].valLen, MovedTo(props, k, m));
  }

  /**
   The bytes the accessors name are alias's original payload, whichever of the two nodes comes first.
   */
  lemma WrittenFileServesThePayload(f: Blob, alias: Text, source: Text, out: seq<Byte>)
    requires Written(f, alias, source, out) && Aliasable(f, alias, source)
    ensures var props, k, m := PropsWalk(f).props, DataIndex(f, alias), DataIndex(f, source);
            var pos, size := MovedTo(props, k, m), props[m].valLen;
            && 0 <= pos && pos + size <= |out|
            && out[pos..pos + size] == Value(f, props[k])
  {
    hide WellFormed, PropsWalk, RewrittenBlob, Value, MovedTo, Fits, FirstIndex, SecondData;
    var props, k, m := PropsWalk(f).props, DataIndex(f, alias), DataIndex(f, source);
    DifferentNodes(props, k, m, alias, source);
    PayloadFollows(f, k, m, props[m].valLen, MovedTo(props, k, m));
  }

  /** The source's bytes sit at the position computed for them, whatever accessors are written. */
  lemma PayloadFollows(f: Blob, k: nat, m: nat, size: nat, pos: nat)
    requires WellFormed(f) && k < |PropsWalk(f).props| && Fits(f, PropsWalk(f).props[k])
    requires m < |PropsWalk(f).props| && m != k && size < U32 && pos < U32
    ensures var props, g := PropsWalk(f).props, RewrittenBlob(f, k, size, pos);
            var at := MovedTo(props, k, m);
            && 0 <= at && at + props[m].valLen <= |g.bytes|
            && g.bytes[at..at + props[m].valLen] == Value(f, props[m])
            && |Value(f, props[m])| == props[m].valLen
  {
    PropsInOrder(f);
    var g := RewrittenBlob(f, k, size, pos);
    hide *;
    ValueMoves(f, g, PropsWalk(f).props, k, m, size, pos);
  }

  lemma DifferentNodes(props: seq<Prop>, k: nat, m: nat, alias: Text, source: Text)
    requires k < |props| && m < |props| && alias != source
    requires Matches(props[k], ImagePath(alias), DATA) && Matches(props[m], ImagePath(source), DATA)
    ensures k != m
  {
    if k == m { ImagePathInjective(alias, source); }
  }

  // ---------------------------------------------------------------- the program

  /** struct.pack(">I", n) on any integer. */
  function TryPack(n: int): Result<seq<Byte>, Failure> {
    if 0 <= n < U32 then Ok(Pack32(n)) else Err(StructError)
  }

  function PropBuild(nameoff: int, value: int): (r: Result<seq<Byte>, Failure>)
    ensures 0 <= nameoff < U32 && 0 <= value < U32 ==> r == Ok(PropBytes(nameoff, value))
    ensures !(0 <= nameoff < U32 && 0 <= value < U32) ==> r == Err(StructError)
  {
    var n, v := TryPack(nameoff), TryPack(value);
    if n.Err? then Err(n.error)
    else if v.Err? then Err(v.error)
    else Ok(Pack32(FDT_PROP) + Pack32(4) + n.value + v.value)
  }

  lemma AssembledIsSpliced(f: Blob, p: Prop, size: nat, pos: nat)
    requires Editable(f, p) && size < U32 && pos < U32
    ensures Slice(f.bytes, 0, p.propOff)
            + (PropBytes(f.sizeStrings, pos) + PropBytes(f.sizeStrings + |DATA_POSITION| + 1, size))
            + Slice(f.bytes, p.End(), f.StringsEnd())
            + NEW_STRINGS == Spliced(f, p, size, pos)
  {
    hide PropBytes, Pad4;
  }

  lemma AssembledLength(f: Blob, p: Prop)
    requires Cuttable(f, p)
    ensures |Slice(f.bytes, 0, p.propOff)| + 32 + |Slice(f.bytes, p.End(), f.StringsEnd())|
            == f.StringsEnd() + Delta(p)
  {
    hide Pad4;
  }

  /** Cut the property, splice the accessors, append their names, patch the header. */
  method Splice(f: Blob, ali: Prop, srcLen: nat) returns (r: Result<seq<Byte>, Failure>)
    ensures srcLen < U32 && Editable(f, ali) ==> r == Ok(Rewritten(f, ali, srcLen, 0))
    ensures Cuttable(f, ali) && !Fits(f, ali) ==> r.Err?
    ensures r.Ok? ==> |r.value| >= HEADER_SIZE
  {
    hide Unpack, Pad4, PropBytes, PropBuild, Slice, Spliced, Put32;
    if Cuttable(f, ali) { AssembledLength(f, ali); }
    if srcLen < U32 && Editable(f, ali) { AssembledIsSpliced(f, ali, srcLen, 0); }
    var position := PropBuild(f.sizeStrings, 0);
    if position.Err? { return Err(position.error); }
    var size := PropBuild(f.sizeStrings + |DATA_POSITION| + 1, srcLen);
    if size.Err? { return Err(size.error); }
    var aliEnd := ali.valOff + Pad4(ali.valLen);
    var newProps := position.value + size.value;
    var delta := |newProps| - (aliEnd - ali.propOff);
    var out := Slice(f.bytes, 0, ali.propOff);
    out := out + newProps;
    out := out + Slice(f.bytes, aliEnd, f.StringsEnd());
    out := out + NEW_STRINGS;
    var total, offStrings := TryPack(|out|), TryPack(f.offStrings + delta);
    var sizeStrings, sizeStruct := TryPack(f.sizeStrings + |NEW_STRINGS|), TryPack(f.sizeStruct + delta);
    if total.Err? { return Err(total.error); }
    if offStrings.Err? { return Err(offStrings.error); }
    if sizeStrings.Err? { return Err(sizeStrings.error); }
    if sizeStruct.Err? { return Err(sizeStruct.error); }
    out := Put32(out, 4, |out|);
    out := Put32(out, 12, f.offStrings + delta);
    out := Put32(out, 32, f.sizeStrings + |NEW_STRINGS|);
    out := Put32(out, 36, f.sizeStruct + delta);
    return Ok(out);
  }

  /** f has an alias data entry k that can be cut, with no accessor of its own in front of it. */
  ghost predicate Prepared(f: Blob, alias: Text, k: nat, size: nat) {
    && WellFormed(f) && size < U32
    && k < |PropsWalk(f).props| && k == DataIndex(f, alias)
    && NoAccessorsBefore(PropsWalk(f).props, k, ImagePath(alias))
    && Fits(f, PropsWalk(f).props[k])
  }

  /** prop_find on a rewritten blob, for the alias. */
  lemma AliasFound(f: Blob, alias: Text, k: nat, size: nat, pos: nat)
    requires Prepared(f, alias, k, size) && pos < U32
    ensures var p, w := PropsWalk(f).props[k], PropsWalk(RewrittenBlob(f, k, size, pos));
            && FirstMatch(w, ImagePath(alias), DATA_POSITION) == Ok(Some(PositionProp(p)))
            && FirstMatch(w, ImagePath(alias), DATA_SIZE) == Ok(Some(SizeProp(p)))
            && FirstMatch(w, ImagePath(alias), DATA).Ok?
            && (FirstMatch(w, ImagePath(alias), DATA).value.Some? <==> SecondData(PropsWalk(f).props, k, ImagePath(alias)))
  {
    hide WellFormed, WalkFrom, Fits, FirstIndex, RewrittenBlob, Replaced, AllBehind, FirstMatch, ImagePath,
         NoAccessorsBefore, KeysReplaced, SecondData;
    RewrittenProps(f, k, size, pos);
    var props, w := PropsWalk(f).props, PropsWalk(RewrittenBlob(f, k, size, pos));
    ReplacedKeys(props, k);
    hide *;
    AliasLookups(props, k, ImagePath(alias));
    FirstMatchIsFirstIndex(w, ImagePath(alias), DATA_POSITION);
    FirstMatchIsFirstIndex(w, ImagePath(alias), DATA_SIZE);
    FirstMatchIsFirstIndex(w, ImagePath(alias), DATA);
  }

  /** prop_find on a rewritten blob, for another node. */
  lemma SourceFound(f: Blob, alias: Text, source: Text, k: nat, size: nat, pos: nat)
    requires Prepared(f, alias, k, size) && pos < U32 && alias != source
    requires DataIndex(f, source) < |PropsWalk(f).props|
    ensures var props := PropsWalk(f).props;
            var m := FirstIndex(props, ImagePath(source), DATA);
            var r := FirstMatch(PropsWalk(RewrittenBlob(f, k, size, pos)), ImagePath(source), DATA);
            && r.Ok? && r.value.Some?
            && r.value.value.valOff == MovedTo(props, k, m) && r.value.value.valLen == props[m].valLen
  {
    hide WellFormed, WalkFrom, Fits, FirstIndex, NoAccessorsBefore, RewrittenBlob, Replaced, AllBehind, FirstMatch, ImagePath;
    RewrittenProps(f, k, size, pos);
    PathsDiffer(alias, source);
    var props, w := PropsWalk(f).props, PropsWalk(RewrittenBlob(f, k, size, pos));
    SourceFoundIn(props, w, k, ImagePath(alias), ImagePath(source));
  }

  lemma PathsDiffer(alias: Text, source: Text)
    requires alias != source
    ensures ImagePath(alias) != ImagePath(source)
  {
    if ImagePath(alias) == ImagePath(source) { ImagePathInjective(alias, source); }
  }

  lemma SourceFoundIn(props: seq<Prop>, w: Walk, k: nat, alias: Text, source: Text)
    requires k < |props| && props[k].valOff == props[k].propOff + 12 && AllBehind(props[k + 1..], props[k].End())
    requires w == Walk(Replaced(props, k), None)
    requires k == FirstIndex(props, alias, DATA) && alias != source
    requires FirstIndex(props, source, DATA) < |props|
    ensures var m, r := FirstIndex(props, source, DATA), FirstMatch(w, source, DATA);
            && r.Ok? && r.value.Some?
            && r.value.value.valOff == MovedTo(props, k, m) && r.value.value.valLen == props[m].valLen
  {
    hide *;
    SourceLookup(props, k, alias, source);
    SourceMoves(props, k, FirstIndex(props, source, DATA));
    ReplacedLength(props, k);
    FirstMatchIsFirstIndex(w, source, DATA);
  }

  lemma ReplacedLength(props: seq<Prop>, k: nat)
    requires k < |props| && props[k].valOff == props[k].propOff + 12 && AllBehind(props[k + 1..], props[k].End())
    ensures |Replaced(props, k)| == |props| + 1
  {
  }

  /** The accessors of a rewritten blob hold what was put there, and patching replaces the position. */
  lemma AccessorsRead(f: Blob, k: nat, size: nat, pos: nat)
    requires WellFormed(f) && k < |PropsWalk(f).props| && Fits(f, PropsWalk(f).props[k])
    requires size < U32 && pos < U32
    ensures var p, out := PropsWalk(f).props[k], RewrittenBlob(f, k, size, pos).bytes;
            && p.propOff + 32 <= |out|
            && Be32(out, p.propOff + 12) == pos && Be32(out, p.propOff + 28) == size
  {
    var p, g := PropsWalk(f).props[k], RewrittenBlob(f, k, size, pos);
    AccessorValues(f, g, p, size, pos);
    hide RewrittenBlob, IsRewrite, Editable, Be32, WellFormed, PropsWalk, Slice;
    SliceInside(g.bytes, p.propOff + 12, p.propOff + 16);
    SliceInside(g.bytes, p.propOff + 28, p.propOff + 32);
    PackedWordReads(pos, g.bytes, p.propOff + 12);
    PackedWordReads(size, g.bytes, p.propOff + 28);
  }

  lemma PatchIsRewrittenBlob(f: Blob, k: nat, size: nat, pos: nat)
    requires WellFormed(f) && k < |PropsWalk(f).props| && Fits(f, PropsWalk(f).props[k])
    requires size < U32 && pos < U32
    ensures var p, out := PropsWalk(f).props[k], RewrittenBlob(f, k, size, 0).bytes;
            p.propOff + 16 <= |out| && Put32(out, p.propOff + 12, pos) == RewrittenBlob(f, k, size, pos).bytes
  {
    WellFormedCuttable(f, k);
    RewrittenBytes(f, k, size, 0);
    RewrittenBytes(f, k, size, pos);
    hide WellFormed, PropsWalk, RewrittenBlob, Ordered;
    PatchIsRewrite(f, PropsWalk(f).props[k], size, pos);
    hide *;
  }

  lemma RewrittenBytes(f: Blob, k: nat, size: nat, pos: nat)
    requires WellFormed(f) && k < |PropsWalk(f).props| && Fits(f, PropsWalk(f).props[k])
    requires size < U32 && pos < U32
    ensures Editable(f, PropsWalk(f).props[k])
    ensures RewrittenBlob(f, k, size, pos).bytes == Rewritten(f, PropsWalk(f).props[k], size, pos)
  {
    WellFormedCuttable(f, k);
    RewrittenIsRewrite(f, PropsWalk(f).props[k], size, pos);
    hide Rewritten, WellFormed, PropsWalk, IsRewrite, Ordered, Cuttable;
  }

  /** A lookup whose result is unpacked at once. */
  method MustFind(f: Blob, path: Text, name: Text) returns (r: Result<Prop, Failure>)
    ensures var m := FirstMatch(PropsWalk(f), path, name);
            r == if m.Err? then Err(m.error) else if m.value.None? then Err(NoneUnpacked) else Ok(m.value.value)
  {
    var m := PropFind(f, path, name);
    if m.Err? { return Err(m.error); }
    if m.value.None? { return Err(NoneUnpacked); }
    return Ok(m.value.value);
  }

  method OpenChecked(bytes: seq<Byte>) returns (r: Result<Blob, Failure>)
    ensures r.Ok? <==> && |bytes| >= 40 && Be32(bytes, 0) == 0xD00DFEED
                       && Be32(bytes, 16) < Be32(bytes, 8) < Be32(bytes, 12)
                       && Be32(bytes, 12) + Be32(bytes, 32) <= Be32(bytes, 4) == |bytes|
    ensures r.Ok? ==> r == Ok(Blob(bytes, Be32(bytes, 4), Be32(bytes, 8), Be32(bytes, 12), Be32(bytes, 16),
                                   Be32(bytes, 32), Be32(bytes, 36)))
    ensures r.Ok? <==> Open(bytes).Ok? && Ordered(Open(bytes).value)
    ensures r.Ok? ==> r == Open(bytes)
    ensures r.Err? ==> r.error == if |bytes| < 4 then StructError
                                  else if Be32(bytes, 0) != 0xD00DFEED then BadMagic
                                  else if |bytes| < 40 then StructError
                                  else if Be32(bytes, 16) < Be32(bytes, 8) < Be32(bytes, 12)
                                          && Be32(bytes, 12) + Be32(bytes, 32) <= Be32(bytes, 4) then SizeMismatch
                                  else BadLayout
  {
    hide Be32;
    var f := Open(bytes);
    if f.Err? { return f; }
    var layout := LayoutCheck(f.value);
    if layout.Some? { return Err(layout.value); }
    return f;
  }

  /** What the self-checks ask of a finished file: no data left on alias, and accessors with these values. */
  predicate SelfConsistent(out: seq<Byte>, alias: Text, pos: nat, size: nat) {
    && Open(out).Ok? && Ordered(Open(out).value)
    && var w := PropsWalk(Open(out).value);
       && FirstMatch(w, ImagePath(alias), DATA) == Ok(None)
       && Reads(out, FirstMatch(w, ImagePath(alias), DATA_POSITION), pos)
       && Reads(out, FirstMatch(w, ImagePath(alias), DATA_SIZE), size)
  }

  /** The lookup found a property whose value starts with the word n. */
  predicate Reads(out: seq<Byte>, found: Result<Option<Prop>, Failure>, n: nat) {
    found.Ok? && found.value.Some? && found.value.value.valOff + 4 <= |out| && Be32(out, found.value.value.valOff) == n
  }

  /** Left-over data and accessors with other values are each told apart. */
  predicate FailsAs(out: seq<Byte>, alias: Text, pos: nat, size: nat, failure: Option<Failure>) {
    Open(out).Ok? && Ordered(Open(out).value) ==>
      var w := PropsWalk(Open(out).value);
      var still, position := FirstMatch(w, ImagePath(alias), DATA), FirstMatch(w, ImagePath(alias), DATA_POSITION);
      var length := FirstMatch(w, ImagePath(alias), DATA_SIZE);
      && (still.Ok? && still.value.Some? ==> failure == Some(DataStillPresent))
      && (still == Ok(None) && Readable(out, position) && Readable(out, length) ==>
            failure == if Reads(out, position, pos) && Reads(out, length, size) then None else Some(AccessorMismatch))
  }

  /** The lookup found a property whose value starts with a word. */
  predicate Readable(out: seq<Byte>, found: Result<Option<Prop>, Failure>) {
    found.Ok? && found.value.Some? && found.value.value.valOff + 4 <= |out|
  }

  /** The self-checks on the finished file; on any file they pass exactly when it is consistent. */
  method SelfCheck(out: seq<Byte>, alias: Text, srcVal: nat, srcLen: nat) returns (failure: Option<Failure>)
    ensures failure.None? <==> SelfConsistent(out, alias, srcVal, srcLen)
    ensures FailsAs(out, alias, srcVal, srcLen, failure)
  {
    hide Open, Ordered, FirstMatch, PropsWalk, Be32, ImagePath;
    var final := OpenChecked(out);
    if final.Err? { return Some(final.error); }
    var still := PropFind(final.value, ImagePath(alias), DATA);
    if still.Err? { return Some(still.error); }
    if still.value.Some? { return Some(DataStillPresent); }
    var position := MustFind(final.value, ImagePath(alias), DATA_POSITION);
    if position.Err? { return Some(position.error); }
    if position.value.valOff + 4 > |out| { return Some(StructError); }
    var gotPos := Be32(out, position.value.valOff);
    var size' := MustFind(final.value, ImagePath(alias), DATA_SIZE);
    if size'.Err? { return Some(size'.error); }
    if size'.value.valOff + 4 > |out| { return Some(StructError); }
    var gotSize := Be32(out, size'.value.valOff);
    if gotPos != srcVal || gotSize != srcLen { return Some(AccessorMismatch); }
    return None;
  }

  /** A rewritten file passes them exactly when alias had one data property and the length recorded is the one checked. */
  lemma RewrittenChecks(f: Blob, alias: Text, k: nat, size: nat, pos: nat, len: nat)
    requires Prepared(f, alias, k, size) && pos < U32
    ensures var out, twice := RewrittenBlob(f, k, size, pos).bytes, SecondData(PropsWalk(f).props, k, ImagePath(alias));
            && (SelfConsistent(out, alias, pos, len) <==> !twice && len == size)
            && (forall failure :: twice && FailsAs(out, alias, pos, len, failure) ==> failure == Some(DataStillPresent))
  {
    AliasFound(f, alias, k, size, pos);
    AccessorsRead(f, k, size, pos);
    hide WellFormed, Fits, SecondData, NoAccessorsBefore, RewrittenBlob, PropsWalk, FirstMatch, ImagePath, Be32, Open, Ordered;
  }

  /** The rewrite with the placeholder, for a source payload of the recorded length. */
  ghost predicate Placeheld(built: seq<Byte>, f: Blob, alias: Text, source: Text, k: nat, size: nat) {
    && Prepared(f, alias, k, size) && built == RewrittenBlob(f, k, size, 0).bytes
    && DataIndex(f, source) < |PropsWalk(f).props|
    && PropsWalk(f).props[DataIndex(f, source)].valLen == size
  }

  /** What the re-walk finds in it. */
  lemma PlaceheldReads(built: seq<Byte>, f: Blob, alias: Text, source: Text, k: nat, size: nat)
    requires Placeheld(built, f, alias, source, k, size)
    ensures Open(built).Ok? && Ordered(Open(built).value)
    ensures var w, src := PropsWalk(Open(built).value), FirstMatch(PropsWalk(Open(built).value), ImagePath(source), DATA);
            var position := FirstMatch(w, ImagePath(alias), DATA_POSITION);
            && position.Ok? && position.value.Some? && position.value.value.valOff == PropsWalk(f).props[k].propOff + 12
            && (alias != source ==>
                  && src.Ok? && src.value.Some? && src.value.value.valLen == size
                  && src.value.value.valOff == MovedTo(PropsWalk(f).props, k, DataIndex(f, source)) < U32)
            && (alias == source && !SecondData(PropsWalk(f).props, k, ImagePath(alias)) ==> src == Ok(None))
  {
    AliasFound(f, alias, k, size, 0);
    PositionFits(f, alias, source, k, DataIndex(f, source), size);
    if alias != source { SourceFound(f, alias, source, k, size, 0); }
    hide WellFormed, Fits, SecondData, NoAccessorsBefore, RewrittenBlob, PropsWalk, FirstMatch, ImagePath, Open, Ordered, MovedTo,
         FirstIndex;
  }

  /** Patched at the position found, it is the rewrite with that position. */
  lemma PlaceheldPatched(built: seq<Byte>, f: Blob, alias: Text, source: Text, k: nat, size: nat, pos: nat, len: nat)
    requires Placeheld(built, f, alias, source, k, size) && pos < U32
    ensures var props := PropsWalk(f).props;
            var m, twice := DataIndex(f, source), SecondData(props, k, ImagePath(alias));
            && props[k].propOff + 16 <= |built|
            && var out := Put32(built, props[k].propOff + 12, pos);
               && (SelfConsistent(out, alias, pos, len) <==> !twice && len == size)
               && (forall failure :: twice && FailsAs(out, alias, pos, len, failure) ==> failure == Some(DataStillPresent))
               && (pos == MovedTo(props, k, m) ==> Written(f, alias, source, out))
  {
    hide SelfConsistent, FailsAs, WellFormed, SecondData, RewrittenBlob, PropsWalk, ImagePath, FirstIndex, NoAccessorsBefore;
    PatchIsRewrittenBlob(f, k, size, pos);
    RewrittenChecks(f, alias, k, size, pos, len);
    if pos == MovedTo(PropsWalk(f).props, k, DataIndex(f, source)) {
      WrittenBy(f, alias, source, k, DataIndex(f, source), size, Put32(built, PropsWalk(f).props[k].propOff + 12, pos));
    }
  }

  /** Re-walk the rewritten blob, patch the real position, check the result. */
  method PatchPosition(built: seq<Byte>, alias: Text, source: Text, ghost f: Blob, ghost k: nat, ghost size: nat)
    returns (r: Result<seq<Byte>, Failure>)
    requires |built| >= HEADER_SIZE
    ensures Placeheld(built, f, alias, source, k, size)
            ==> && (r.Ok? <==> alias != source && !SecondData(PropsWalk(f).props, k, ImagePath(alias)))
                && (r.Ok? ==> Written(f, alias, source, r.value))
                && (alias != source && SecondData(PropsWalk(f).props, k, ImagePath(alias)) ==> r == Err(DataStillPresent))
    ensures r.Ok? ==> exists pos: nat, len: nat :: SelfConsistent(r.value, alias, pos, len)
  {
    hide *;
    if Placeheld(built, f, alias, source, k, size) { PlaceheldReads(built, f, alias, source, k, size); }
    var g := OpenChecked(built);
    if g.Err? { return Err(g.error); }
    var src := MustFind(g.value, ImagePath(source), DATA);
    if src.Err? { return Err(src.error); }
    var srcVal := src.value.valOff;
    if srcVal >= U32 { return Err(OffsetTooLarge); }
    var position := MustFind(g.value, ImagePath(alias), DATA_POSITION);
    if position.Err? { return Err(position.error); }
    if Placeheld(built, f, alias, source, k, size) {
      PlaceheldPatched(built, f, alias, source, k, size, srcVal, src.value.valLen);
    }
    if position.value.valOff + 4 > |built| { return Err(StructError); }
    var out := Put32(built, position.value.valOff, srcVal);
    var failure := SelfCheck(out, alias, srcVal, src.value.valLen);
    if failure.Some? { return Err(failure.value); }
    return Ok(out);
  }

  /** The position fits 32 bits, so the range check cannot fire on a file that fits. */
  lemma PositionFits(f: Blob, alias: Text, source: Text, k: nat, m: nat, size: nat)
    requires Prepared(f, alias, k, size) && m == DataIndex(f, source)
    requires m < |PropsWalk(f).props|
    ensures alias != source ==> 0 <= MovedTo(PropsWalk(f).props, k, m) < U32
  {
    if alias != source {
      var props := PropsWalk(f).props;
      DifferentNodes(props, k, m, alias, source);
      PropsInOrder(f);
      OrderAround(f, props, k, m);
      hide WellFormed, PropsWalk, InOrder, FirstIndex, NoAccessorsBefore, Pad4;
      ValueMoves(f, RewrittenBlob(f, k, size, 0), props, k, m, size, 0);
    }
  }

  lemma WrittenBy(f: Blob, alias: Text, source: Text, k: nat, m: nat, size: nat, out: seq<Byte>)
    requires Prepared(f, alias, k, size) && m == DataIndex(f, source)
    requires m < |PropsWalk(f).props| && PropsWalk(f).props[m].valLen == size
    requires 0 <= MovedTo(PropsWalk(f).props, k, m) < U32
    requires out == RewrittenBlob(f, k, size, MovedTo(PropsWalk(f).props, k, m)).bytes
    ensures Written(f, alias, source, out)
  {
    hide RewrittenBlob, WellFormed, PropsWalk, FirstIndex, Fits;
  }

  /** No accessor of alias stands in front of its data entry. */
  ghost predicate NotYetAliased(f: Blob, alias: Text) {
    var props := PropsWalk(f).props;
    NoAccessorsBefore(props, FirstIndex(props, ImagePath(alias), DATA), ImagePath(alias))
  }

  lemma LengthsFit(f: Blob)
    requires WellFormed(f)
    ensures forall i :: 0 <= i < |PropsWalk(f).props| ==> PropsWalk(f).props[i].valLen < U32
  {
    PropsInOrder(f);
    Be32Bound(f.bytes, 4);
    hide WalkFrom, Be32;
  }

  /** What every run that writes has seen in its input. */
  predicate SamePayload(f: Blob, alias: Text, source: Text) {
    var a, b := FirstMatch(PropsWalk(f), ImagePath(alias), DATA), FirstMatch(PropsWalk(f), ImagePath(source), DATA);
    && Ordered(f)
    && a.Ok? && a.value.Some? && b.Ok? && b.value.Some? && Value(f, a.value.value) == Value(f, b.value.value)
  }

  /** Why nothing is rewritten: source is looked for first, a failure of either walk shows before a missing payload. */
  function Stopped(f: Blob, alias: Text, source: Text): Option<Failure> {
    var a, b := FirstMatch(PropsWalk(f), ImagePath(alias), DATA), FirstMatch(PropsWalk(f), ImagePath(source), DATA);
    if b.Err? then Some(b.error)
    else if a.Err? then Some(a.error)
    else if b.value.None? then Some(NoSourceData)
    else if a.value.None? then Some(NoAliasData)
    else if Value(f, a.value.value) != Value(f, b.value.value) then Some(PayloadsDiffer)
    else None
  }

  /**
   The program on the file's bytes: what it would write back, or why it stops.
   On a well-formed file whose alias node has no accessor yet, it writes exactly when the payload can
   be aliased, and then writes the rewrite that serves it. So the self-checks never fire on a file
   that meets the condition. On any file at all, it writes only when the two payloads are equal, and only a
   file that passes the self-checks.
   */
  method Dedup(bytes: seq<Byte>, alias: Text, source: Text) returns (r: Result<seq<Byte>, Failure>)
    ensures Open(bytes).Ok? && WellFormed(Open(bytes).value) && NotYetAliased(Open(bytes).value, alias)
            ==> var f := Open(bytes).value;
                && (r.Ok? <==> Aliasable(f, alias, source))
                && (r.Ok? ==> Written(f, alias, source, r.value))
                && (AliasedTwice(f, alias, source) ==> r == Err(DataStillPresent))
    ensures r.Ok? ==> Open(bytes).Ok? && SamePayload(Open(bytes).value, alias, source)
    ensures r.Ok? ==> exists pos: nat, len: nat :: SelfConsistent(r.value, alias, pos, len)
    ensures Open(bytes).Ok? && Ordered(Open(bytes).value) && Stopped(Open(bytes).value, alias, source).Some?
            ==> r == Err(Stopped(Open(bytes).value, alias, source).value)
  {
    hide SelfConsistent, Be32, Matches;
    hide WellFormed, WalkFrom, RewrittenBlob, Ordered, Fits, FirstIndex, FirstMatch, SecondData, Cuttable,
         NoAccessorsBefore, Written, Slice, Open, Pad4;
    if Open(bytes).Ok? && WellFormed(Open(bytes).value) { WalkEnds(Open(bytes).value); }
    var checked := OpenChecked(bytes);
    if checked.Err? { return Err(checked.error); }
    var f := checked.value;
    ghost var w := PropsWalk(f);
    ghost var aliPath, srcPath := ImagePath(alias), ImagePath(source);
    ghost var k, m := FirstIndex(w.props, aliPath, DATA), FirstIndex(w.props, srcPath, DATA);
    FirstMatchIsFirstIndex(w, aliPath, DATA);
    FirstMatchIsFirstIndex(w, srcPath, DATA);
    ghost var good := WellFormed(f) && NotYetAliased(f, alias);
    if good { LengthsFit(f); }
    var src := PropFind(f, ImagePath(source), DATA);
    if src.Err? { return Err(src.error); }
    var ali := PropFind(f, ImagePath(alias), DATA);
    if ali.Err? { return Err(ali.error); }
    if src.value.None? { return Err(NoSourceData); }
    if ali.value.None? { return Err(NoAliasData); }
    var s, a := src.value.value, ali.value.value;
    if Slice(f.bytes, s.valOff, s.valOff + s.valLen) != Slice(f.bytes, a.valOff, a.valOff + a.valLen) {
      return Err(PayloadsDiffer);
    }
    var built := Splice(f, a, s.valLen);
    if good {
      WellFormedCuttable(f, k);
      if Fits(f, a) { BuiltIsRewritten(f, k, s.valLen, built); }
    }
    if built.Err? { return Err(built.error); }
    r := PatchPosition(built.value, alias, source, f, k, s.valLen);
  }

  lemma WalkEnds(f: Blob)
    requires WellFormed(f)
    ensures PropsWalk(f).failure.None? && Ordered(f)
  {
  }

  lemma BuiltIsRewritten(f: Blob, k: nat, size: nat, built: Result<seq<Byte>, Failure>)
    requires WellFormed(f) && k < |PropsWalk(f).props| && Fits(f, PropsWalk(f).props[k]) && size < U32
    requires Editable(f, PropsWalk(f).props[k]) ==> built == Ok(Rewritten(f, PropsWalk(f).props[k], size, 0))
    ensures built == Ok(RewrittenBlob(f, k, size, 0).bytes)
  {
    WellFormedCuttable(f, k);
    RewrittenIsRewrite(f, PropsWalk(f).props[k], size, 0);
    hide Rewritten, PropsWalk, WellFormed, IsRewrite, Ordered, Cuttable, Fits;
  }
}
