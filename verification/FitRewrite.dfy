/**
 The blob that cascade/image/srg-fit-dedup.py builds: one property cut out, two spliced in, two
 names appended, four header words patched. Walking it yields the old walk with that one entry
 replaced in place.
 */
module FitRewrite {
  import opened Wrappers
  import opened Fdt

  // "data", "data-position" and "data-size"
  const DATA: Text := [100, 97, 116, 97]
  const DATA_POSITION: Text := DATA + [45, 112, 111, 115, 105, 116, 105, 111, 110]
  const DATA_SIZE: Text := DATA + [45, 115, 105, 122, 101]
  const NEW_STRINGS: seq<Byte> := DATA_POSITION + [0] + DATA_SIZE + [0]

  function PropBytes(nameoff: nat, value: nat): (s: seq<Byte>)
    requires nameoff < U32 && value < U32
    ensures |s| == 16
  {
    Pack32(FDT_PROP) + Pack32(4) + Pack32(nameoff) + Pack32(value)
  }

  function Put32(s: seq<Byte>, off: nat, n: nat): (t: seq<Byte>)
    requires off + 4 <= |s| && n < U32
    ensures |t| == |s|
  {
    s[..off] + Pack32(n) + s[off + 4..]
  }

  /** How far everything behind the cut moves. */
  function Delta(p: Prop): int { 32 - (p.End() - p.propOff) }

  /** p lies behind the header and before the end of the structure block. */
  predicate Cuttable(f: Blob, p: Prop) {
    && HEADER_SIZE <= f.offStruct <= p.propOff
    && p.valOff == p.propOff + 12
    && p.End() <= f.StructEnd() <= f.offStrings
    && f.StringsEnd() <= |f.bytes|
    && f.offRsvmap < f.offStruct
  }

  /** The rewritten file still fits the format's 32-bit sizes. */
  predicate Fits(f: Blob, p: Prop) { f.StringsEnd() + Delta(p) + |NEW_STRINGS| < U32 }

  predicate Editable(f: Blob, p: Prop) { Cuttable(f, p) && Fits(f, p) }

  function Spliced(f: Blob, p: Prop, size: nat, pos: nat): (out: seq<Byte>)
    requires Editable(f, p) && size < U32 && pos < U32
    ensures |out| == f.StringsEnd() + Delta(p) + |NEW_STRINGS|
  {
    f.bytes[..p.propOff]
    + (PropBytes(f.sizeStrings, pos) + PropBytes(f.sizeStrings + |DATA_POSITION| + 1, size))
    + f.bytes[p.End()..f.StringsEnd()]
    + NEW_STRINGS
  }

  function Patched(out: seq<Byte>, total: nat, offStrings: nat, sizeStrings: nat, sizeStruct: nat): (r: seq<Byte>)
    requires |out| >= HEADER_SIZE
    requires total < U32 && offStrings < U32 && sizeStrings < U32 && sizeStruct < U32
    ensures |r| == |out|
  {
    Put32(Put32(Put32(Put32(out, 4, total), 12, offStrings), 32, sizeStrings), 36, sizeStruct)
  }

  function Rewritten(f: Blob, p: Prop, size: nat, pos: nat): seq<Byte>
    requires Editable(f, p) && size < U32 && pos < U32
  {
    var out := Spliced(f, p, size, pos);
    Patched(out, |out|, f.offStrings + Delta(p), f.sizeStrings + |NEW_STRINGS|, f.sizeStruct + Delta(p))
  }

  /** What the rewritten blob looks like, region by region. */
  ghost predicate IsRewrite(f: Blob, g: Blob, p: Prop, size: nat, pos: nat)
    requires Editable(f, p) && size < U32 && pos < U32
  {
    && g.offStruct == f.offStruct && g.offRsvmap == f.offRsvmap
    && g.offStrings == f.offStrings + Delta(p)
    && g.sizeStrings == f.sizeStrings + |NEW_STRINGS|
    && g.sizeStruct == f.sizeStruct + Delta(p)
    && g.totalSize == |g.bytes| == g.StringsEnd()
    && g.bytes[HEADER_SIZE..p.propOff] == f.bytes[HEADER_SIZE..p.propOff]
    && g.bytes[p.propOff..p.propOff + 16] == PropBytes(f.sizeStrings, pos)
    && g.bytes[p.propOff + 16..p.propOff + 32] == PropBytes(f.sizeStrings + |DATA_POSITION| + 1, size)
    && g.bytes[p.propOff + 32..f.StringsEnd() + Delta(p)] == f.bytes[p.End()..f.StringsEnd()]
    && g.bytes[f.StringsEnd() + Delta(p)..] == NEW_STRINGS
  }

  lemma PutReads(s: seq<Byte>, off: nat, n: nat, at: nat)
    requires off + 4 <= |s| && n < U32
    requires at + 4 <= |s|
    ensures at == off ==> Be32(Put32(s, off, n), at) == n
    ensures at + 4 <= off || off + 4 <= at ==> Be32(Put32(s, off, n), at) == Be32(s, at)
    ensures Put32(s, off, n)[off + 4..] == s[off + 4..]
  {
    hide Word, Unpack;
    var t := Put32(s, off, n);
    if at == off {
      assert t[off..off + 4] == Pack32(n);
      PackedWordReads(n, t, off);
    } else if at + 4 <= off || off + 4 <= at {
      assert t[at..at + 4] == s[at..at + 4];
    }
  }

  lemma PatchedReads(out: seq<Byte>, total: nat, offStrings: nat, sizeStrings: nat, sizeStruct: nat)
    requires |out| >= HEADER_SIZE
    requires total < U32 && offStrings < U32 && sizeStrings < U32 && sizeStruct < U32
    ensures var r := Patched(out, total, offStrings, sizeStrings, sizeStruct);
            && Be32(r, 0) == Be32(out, 0) && Be32(r, 8) == Be32(out, 8) && Be32(r, 16) == Be32(out, 16)
            && Be32(r, 4) == total && Be32(r, 12) == offStrings
            && Be32(r, 32) == sizeStrings && Be32(r, 36) == sizeStruct
            && r[HEADER_SIZE..] == out[HEADER_SIZE..]
  {
    hide Put32, Be32, Word;
    var a := Put32(out, 4, total);
    var b := Put32(a, 12, offStrings);
    var c := Put32(b, 32, sizeStrings);
    forall at | at in {0, 8, 16, 4}
      ensures Be32(Put32(c, 36, sizeStruct), at) == Be32(a, at)
    {
      PutReads(a, 12, offStrings, at);
      PutReads(b, 32, sizeStrings, at);
      PutReads(c, 36, sizeStruct, at);
    }
    forall at | at in {0, 8, 16, 4}
      ensures at != 4 ==> Be32(a, at) == Be32(out, at)
      ensures at == 4 ==> Be32(a, at) == total
    {
      PutReads(out, 4, total, at);
    }
    PutReads(a, 12, offStrings, 12);
    PutReads(b, 32, sizeStrings, 12);
    PutReads(c, 36, sizeStruct, 12);
    PutReads(b, 32, sizeStrings, 32);
    PutReads(c, 36, sizeStruct, 32);
    PutReads(c, 36, sizeStruct, 36);
    PatchedTail(out, total, offStrings, sizeStrings, sizeStruct);
  }

  lemma PatchedTail(out: seq<Byte>, total: nat, offStrings: nat, sizeStrings: nat, sizeStruct: nat)
    requires |out| >= HEADER_SIZE
    requires total < U32 && offStrings < U32 && sizeStrings < U32 && sizeStruct < U32
    ensures Patched(out, total, offStrings, sizeStrings, sizeStruct)[HEADER_SIZE..] == out[HEADER_SIZE..]
  {
    hide Unpack;
    var a := Put32(out, 4, total);
    var b := Put32(a, 12, offStrings);
    var c := Put32(b, 32, sizeStrings);
    assert a[HEADER_SIZE..] == out[HEADER_SIZE..];
    assert b[HEADER_SIZE..] == a[HEADER_SIZE..];
    assert c[HEADER_SIZE..] == b[HEADER_SIZE..];
  }

  /** A slice of a concatenation, chunk by chunk. */
  lemma FourChunks(a: seq<Byte>, b: seq<Byte>, c: seq<Byte>, d: seq<Byte>)
    ensures var s := a + b + c + d;
            && s[..|a|] == a
            && s[|a|..|a| + |b|] == b
            && s[|a| + |b|..|a| + |b| + |c|] == c
            && s[|a| + |b| + |c|..] == d
  {
  }

  /** The regions behind the header, as the splice leaves them. */
  lemma SplicedRegions(f: Blob, p: Prop, size: nat, pos: nat)
    requires Editable(f, p) && size < U32 && pos < U32
    ensures var s := Spliced(f, p, size, pos);
            && s[..p.propOff] == f.bytes[..p.propOff]
            && s[p.propOff..p.propOff + 16] == PropBytes(f.sizeStrings, pos)
            && s[p.propOff + 16..p.propOff + 32] == PropBytes(f.sizeStrings + |DATA_POSITION| + 1, size)
            && s[p.propOff + 32..f.StringsEnd() + Delta(p)] == f.bytes[p.End()..f.StringsEnd()]
            && s[f.StringsEnd() + Delta(p)..] == NEW_STRINGS
  {
    hide PropBytes;
    var x, y := PropBytes(f.sizeStrings, pos), PropBytes(f.sizeStrings + |DATA_POSITION| + 1, size);
    var s := Spliced(f, p, size, pos);
    FourChunks(f.bytes[..p.propOff], x + y, f.bytes[p.End()..f.StringsEnd()], NEW_STRINGS);
    assert s[p.propOff..p.propOff + 32] == x + y;
    assert s[p.propOff..p.propOff + 16] == s[p.propOff..p.propOff + 32][..16];
    assert s[p.propOff + 16..p.propOff + 32] == s[p.propOff..p.propOff + 32][16..];
  }

  lemma SliceOfSlice(s: seq<Byte>, a: nat, b: nat, i: nat, j: nat)
    requires a <= b <= |s| && i <= j <= b - a
    ensures s[a..b][i..j] == s[a + i..a + j]
  {
    assert forall k :: 0 <= k < j - i ==> s[a..b][i..j][k] == s[a + i..a + j][k];
  }

  lemma SameTail(s: seq<Byte>, t: seq<Byte>, n: nat, a: nat, b: nat)
    requires n <= |s| == |t| && s[n..] == t[n..]
    requires n <= a <= b <= |s|
    ensures s[a..b] == t[a..b]
  {
    assert s[n..] == s[n..|s|] && t[n..] == t[n..|t|];
    SliceOfSlice(s, n, |s|, a - n, b - n);
    SliceOfSlice(t, n, |t|, a - n, b - n);
  }

  lemma SameHead(s: seq<Byte>, t: seq<Byte>, n: nat, at: nat)
    requires at + 4 <= n <= |s| && n <= |t| && s[..n] == t[..n]
    ensures Be32(s, at) == Be32(t, at)
  {
    assert s[at..at + 4] == s[..n][at..at + 4];
    assert t[at..at + 4] == t[..n][at..at + 4];
  }

  /** Its header, word by word. */
  lemma RewrittenHeader(f: Blob, p: Prop, size: nat, pos: nat)
    requires Editable(f, p) && size < U32 && pos < U32
    ensures var r := Rewritten(f, p, size, pos);
            && |r| == f.StringsEnd() + Delta(p) + |NEW_STRINGS|
            && Be32(r, 0) == Be32(f.bytes, 0) && Be32(r, 8) == Be32(f.bytes, 8) && Be32(r, 16) == Be32(f.bytes, 16)
            && Be32(r, 4) == |r| && Be32(r, 12) == f.offStrings + Delta(p)
            && Be32(r, 32) == f.sizeStrings + |NEW_STRINGS| && Be32(r, 36) == f.sizeStruct + Delta(p)
  {
    hide Be32, Put32, PropBytes, Pad4;
    var s := Spliced(f, p, size, pos);
    SplicedRegions(f, p, size, pos);
    hide Spliced;
    PatchedReads(s, |s|, f.offStrings + Delta(p), f.sizeStrings + |NEW_STRINGS|, f.sizeStruct + Delta(p));
    SameHead(s, f.bytes, p.propOff, 0);
    SameHead(s, f.bytes, p.propOff, 8);
    SameHead(s, f.bytes, p.propOff, 16);
    hide Patched;
  }

  /** What is behind it. */
  lemma RewrittenRegions(f: Blob, p: Prop, size: nat, pos: nat)
    requires Editable(f, p) && size < U32 && pos < U32
    ensures var r := Rewritten(f, p, size, pos);
            && r[HEADER_SIZE..p.propOff] == f.bytes[HEADER_SIZE..p.propOff]
            && r[p.propOff..p.propOff + 16] == PropBytes(f.sizeStrings, pos)
            && r[p.propOff + 16..p.propOff + 32] == PropBytes(f.sizeStrings + |DATA_POSITION| + 1, size)
            && r[p.propOff + 32..f.StringsEnd() + Delta(p)] == f.bytes[p.End()..f.StringsEnd()]
            && r[f.StringsEnd() + Delta(p)..] == NEW_STRINGS
  {
    hide Be32, Put32, PropBytes, Pad4;
    var s := Spliced(f, p, size, pos);
    SplicedRegions(f, p, size, pos);
    hide Spliced;
    PatchedReads(s, |s|, f.offStrings + Delta(p), f.sizeStrings + |NEW_STRINGS|, f.sizeStruct + Delta(p));
    RegionsSurvive(s, Rewritten(f, p, size, pos), p.propOff, f.StringsEnd() + Delta(p));
    hide Patched;
    assert s[HEADER_SIZE..p.propOff] == s[..p.propOff][HEADER_SIZE..];
    assert f.bytes[HEADER_SIZE..p.propOff] == f.bytes[..p.propOff][HEADER_SIZE..];
  }

  lemma RewrittenIsRewrite(f: Blob, p: Prop, size: nat, pos: nat)
    requires Open(f.bytes) == Ok(f)
    requires Editable(f, p) && size < U32 && pos < U32
    ensures Open(Rewritten(f, p, size, pos)).Ok?
    ensures IsRewrite(f, Open(Rewritten(f, p, size, pos)).value, p, size, pos)
    ensures LayoutCheck(Open(Rewritten(f, p, size, pos)).value) == None
  {
    hide Be32, PropBytes, Rewritten, Pad4;
    RewrittenHeader(f, p, size, pos);
    RewrittenRegions(f, p, size, pos);
  }

  /** Regions behind the header do not change when only the header does. */
  lemma RegionsSurvive(s: seq<Byte>, r: seq<Byte>, x: nat, e: nat)
    requires |s| == |r| && HEADER_SIZE <= x && x + 32 <= e <= |s| && s[HEADER_SIZE..] == r[HEADER_SIZE..]
    ensures r[HEADER_SIZE..x] == s[HEADER_SIZE..x]
    ensures r[x..x + 16] == s[x..x + 16] && r[x + 16..x + 32] == s[x + 16..x + 32]
    ensures r[x + 32..e] == s[x + 32..e] && r[e..] == s[e..]
  {
    SameTail(r, s, HEADER_SIZE, HEADER_SIZE, x);
    SameTail(r, s, HEADER_SIZE, x, x + 16);
    SameTail(r, s, HEADER_SIZE, x + 16, x + 32);
    SameTail(r, s, HEADER_SIZE, x + 32, e);
    SameTail(r, s, HEADER_SIZE, e, |s|);
    assert r[e..|s|] == r[e..] && s[e..|s|] == s[e..];
  }

  // ---------------------------------------------------------------- steps over carried bytes

  /** Property name offsets that resolve inside the strings block. */
  predicate NameInside(f: Blob, propOff: nat) {
    && propOff + 12 <= |f.bytes|
    && var end := NextNul(f.bytes, f.offStrings + Be32(f.bytes, propOff + 8));
       end.Some? && end.value < f.StringsEnd()
  }

  /** g holds f's strings block at its own strings offset. */
  predicate StringsCarried(f: Blob, g: Blob) {
    && f.StringsEnd() <= |f.bytes|
    && g.offStrings + f.sizeStrings <= |g.bytes|
    && g.bytes[g.offStrings..g.offStrings + f.sizeStrings] == f.bytes[f.offStrings..f.StringsEnd()]
  }

  function Move(p: Prop, d: int): Prop
    requires p.propOff + d >= 0 && p.valOff + d >= 0
  {
    p.(propOff := p.propOff + d, valOff := p.valOff + d)
  }

  lemma SubSlice(s: seq<Byte>, a: nat, t: seq<Byte>, c: nat, n: nat, i: nat, j: nat)
    requires a + n <= |s| && c + n <= |t| && s[a..a + n] == t[c..c + n]
    requires i <= j <= n
    ensures s[a + i..a + j] == t[c + i..c + j]
  {
    SliceOfSlice(s, a, a + n, i, j);
    SliceOfSlice(t, c, c + n, i, j);
  }

  /** t is the step s, taken at another offset. */
  ghost predicate StepMoved(s: Step, t: Step, off: nat, at: nat) {
    && (s.Stop? ==> t.Stop?)
    && (s.Go? ==> t.Go? && t.off == s.off + at - off && t.path == s.path)
    && (s.Go? && s.yielded.None? ==> t.yielded.None?)
    && (s.Go? && s.yielded.Some? ==>
          && s.yielded.value.propOff == off && s.yielded.value.valOff == off + 12
          && t.yielded == Some(Move(s.yielded.value, at - off)))
  }

  /** End of the bytes one step reads, names in the strings block apart. */
  function Reach(f: Blob, off: nat, path: seq<Text>): nat {
    var s := StepAt(f, off, path);
    if s.Go? then s.off else off + 4
  }

  /** A step reads only its own bytes and its name, so it commutes with moving both. */
  lemma StepCarries(f: Blob, g: Blob, off: nat, at: nat, path: seq<Text>)
    requires !StepAt(f, off, path).Die?
    requires var n := Reach(f, off, path) - off;
             && off + n <= |f.bytes| && at + n <= |g.bytes|
             && f.bytes[off..off + n] == g.bytes[at..at + n]
    requires var s := StepAt(f, off, path); s.Go? && s.yielded.Some? ==> NameInside(f, off) && StringsCarried(f, g)
    ensures StepMoved(StepAt(f, off, path), StepAt(g, at, path), off, at)
  {
    hide *;
    StepReads(f, off, path);
    var n := Reach(f, off, path) - off;
    WordCarries(f, g, off, at, n, 0);
    var token := Be32(f.bytes, off);
    if token == FDT_BEGIN_NODE {
      NodeNameCarries(f, g, off, at, n);
      BeginCarries(f, g, off, at, path);
    } else if token == FDT_PROP {
      WordCarries(f, g, off, at, n, 4);
      WordCarries(f, g, off, at, n, 8);
      PropNameCarries(f, g, off);
      PropCarries(f, g, off, at, path);
    } else {
      PlainCarries(f, g, off, at, path);
    }
  }

  /** What a step that does not fail has found in its own bytes. */
  lemma StepReads(f: Blob, off: nat, path: seq<Text>)
    requires !StepAt(f, off, path).Die?
    ensures Reach(f, off, path) >= off + 4 && off + 4 <= |f.bytes|
    ensures var token := Be32(f.bytes, off);
            && (token == FDT_BEGIN_NODE ==>
                  NameAt(f.bytes, off + 4).Ok? && Reach(f, off, path) >= off + 4 + |NameAt(f.bytes, off + 4).value| + 1)
            && (token == FDT_PROP ==>
                  && off + 12 <= |f.bytes| && Reach(f, off, path) >= off + 12
                  && StepAt(f, off, path).Go? && StepAt(f, off, path).yielded.Some?)
  {
    hide Be32, NameAt, PathText;
  }

  lemma BeginCarries(f: Blob, g: Blob, off: nat, at: nat, path: seq<Text>)
    requires off + 4 <= |f.bytes| && at + 4 <= |g.bytes|
    requires Be32(f.bytes, off) == FDT_BEGIN_NODE == Be32(g.bytes, at)
    requires NameAt(g.bytes, at + 4) == NameAt(f.bytes, off + 4)
    ensures StepMoved(StepAt(f, off, path), StepAt(g, at, path), off, at)
  {
    hide Be32, NameAt, Pad4;
  }

  lemma PropCarries(f: Blob, g: Blob, off: nat, at: nat, path: seq<Text>)
    requires off + 12 <= |f.bytes| && at + 12 <= |g.bytes|
    requires Be32(f.bytes, off) == FDT_PROP == Be32(g.bytes, at)
    requires Be32(f.bytes, off + 4) == Be32(g.bytes, at + 4)
    requires var n := Be32(f.bytes, off + 8);
             Be32(g.bytes, at + 8) == n && NameAt(g.bytes, g.offStrings + n) == NameAt(f.bytes, f.offStrings + n)
    ensures StepMoved(StepAt(f, off, path), StepAt(g, at, path), off, at)
  {
    hide Be32, NameAt, PathText, Pad4;
  }

  lemma PlainCarries(f: Blob, g: Blob, off: nat, at: nat, path: seq<Text>)
    requires off + 4 <= |f.bytes| && at + 4 <= |g.bytes| && !StepAt(f, off, path).Die?
    requires Be32(f.bytes, off) == Be32(g.bytes, at)
    requires Be32(f.bytes, off) != FDT_BEGIN_NODE && Be32(f.bytes, off) != FDT_PROP
    ensures StepMoved(StepAt(f, off, path), StepAt(g, at, path), off, at)
  {
    hide Be32, NameAt;
  }

  lemma WordCarries(f: Blob, g: Blob, off: nat, at: nat, n: nat, i: nat)
    requires off + n <= |f.bytes| && at + n <= |g.bytes| && f.bytes[off..off + n] == g.bytes[at..at + n]
    requires i + 4 <= n
    ensures Be32(g.bytes, at + i) == Be32(f.bytes, off + i)
  {
    SubSlice(f.bytes, off, g.bytes, at, n, i, i + 4);
  }

  lemma NodeNameCarries(f: Blob, g: Blob, off: nat, at: nat, n: nat)
    requires off + n <= |f.bytes| && at + n <= |g.bytes| && f.bytes[off..off + n] == g.bytes[at..at + n]
    requires var name := NameAt(f.bytes, off + 4); name.Ok? && n >= 4 + |name.value| + 1
    ensures NameAt(g.bytes, at + 4) == NameAt(f.bytes, off + 4)
  {
    var len := NextNul(f.bytes, off + 4).value - (off + 4);
    assert |NameAt(f.bytes, off + 4).value| == len;
    SubSlice(f.bytes, off, g.bytes, at, n, 4, 4 + len + 1);
    NameCarries(f.bytes, off + 4, g.bytes, at + 4);
  }

  lemma PropNameCarries(f: Blob, g: Blob, off: nat)
    requires StringsCarried(f, g) && NameInside(f, off)
    ensures var nameoff := Be32(f.bytes, off + 8);
            NameAt(g.bytes, g.offStrings + nameoff) == NameAt(f.bytes, f.offStrings + nameoff)
  {
    hide Be32, NextNul, NameAt;
    NameInBlockCarries(f.bytes, f.offStrings, g.bytes, g.offStrings, f.sizeStrings, Be32(f.bytes, off + 8));
  }

  lemma NameInBlockCarries(s: seq<Byte>, a: nat, t: seq<Byte>, c: nat, n: nat, i: nat)
    requires a + n <= |s| && c + n <= |t| && s[a..a + n] == t[c..c + n]
    requires NextNul(s, a + i).Some? && NextNul(s, a + i).value < a + n
    ensures NameAt(t, c + i) == NameAt(s, a + i)
  {
    hide NextNul, NameAt;
    var len := NextNul(s, a + i).value - (a + i);
    SubSlice(s, a, t, c, n, i, i + len + 1);
    NameCarries(s, a + i, t, c + i);
  }

  // ---------------------------------------------------------------- the walk of the rewritten blob

  ghost predicate NamesInside(f: Blob, props: seq<Prop>) {
    forall i :: 0 <= i < |props| ==> NameInside(f, props[i].propOff)
  }

  /** A complete walk from off whose names all resolve inside the strings block. */
  ghost predicate Walkable(f: Blob, off: nat, path: seq<Text>) {
    && Aligned4(f.StructEnd() - off)
    && f.StructEnd() <= f.offStrings && f.StringsEnd() <= |f.bytes|
    && WalkFrom(f, off, path).failure.None?
    && NamesInside(f, WalkFrom(f, off, path).props)
  }

  /** Walkable passes from a step to what follows it, and the step stays inside the block. */
  lemma WalkableStep(f: Blob, off: nat, path: seq<Text>)
    requires Walkable(f, off, path)
    ensures off + 4 <= f.StructEnd()
    ensures var s := StepAt(f, off, path);
            && !s.Die?
            && (s.Go? ==> Walkable(f, s.off, s.path) && s.off + 4 <= f.StructEnd())
            && (s.Go? && s.yielded.Some? ==>
                  && s.yielded.value.propOff == off && s.yielded.value.valOff == off + 12
                  && s.yielded.value.End() == s.off
                  && NameInside(f, off)
                  && WalkFrom(f, off, path).props == [s.yielded.value] + WalkFrom(f, s.off, s.path).props)
            && (s.Go? && s.yielded.None? ==> WalkFrom(f, off, path) == WalkFrom(f, s.off, s.path))
  {
    hide InOrder;
    CompleteWalkInOrder(f, off, path);
    WalkUnfolds(f, off, path);
    var s := StepAt(f, off, path);
    hide StepAt, NamesInside, NameInside, Pad4, Aligned4, WalkFrom;
    if s.Go? {
      StepKeepsAlignment(f, off, path);
      CompleteWalkInOrder(f, s.off, s.path);
      NamesOfRest(f, WalkFrom(f, off, path).props, s.yielded, WalkFrom(f, s.off, s.path).props);
    }
  }

  lemma NamesOfRest(f: Blob, props: seq<Prop>, y: Option<Prop>, rest: seq<Prop>)
    requires props == (if y.Some? then [y.value] + rest else rest)
    requires NamesInside(f, props)
    ensures NamesInside(f, rest)
    ensures y.Some? ==> NameInside(f, y.value.propOff)
  {
    hide NameInside;
    if y.Some? {
      assert props[0] == y.value;
      forall i | 0 <= i < |rest|
        ensures NameInside(f, rest[i].propOff)
      {
        assert rest[i] == props[i + 1];
      }
    }
  }

  lemma WalkUnfolds(f: Blob, off: nat, path: seq<Text>)
    requires off < f.StructEnd()
    ensures var s, w := StepAt(f, off, path), WalkFrom(f, off, path);
            && (s.Stop? ==> w == Walk([], None))
            && (s.Die? ==> w == Walk([], Some(s.failure)))
            && (s.Go? && s.yielded.None? ==> w == WalkFrom(f, s.off, s.path))
            && (s.Go? && s.yielded.Some? ==>
                  w == Walk([s.yielded.value] + WalkFrom(f, s.off, s.path).props, WalkFrom(f, s.off, s.path).failure))
  {
    hide StepAt;
  }

  function MoveAll(props: seq<Prop>, d: int): (r: seq<Prop>)
    requires forall i :: 0 <= i < |props| ==> props[i].propOff + d >= 0 && props[i].valOff + d >= 0
    ensures |r| == |props|
    ensures forall i :: 0 <= i < |props| ==> r[i] == Move(props[i], d)
  {
    seq(|props|, i requires 0 <= i < |props| => Move(props[i], d))
  }

  ghost predicate AllBehind(props: seq<Prop>, off: nat) {
    forall i :: 0 <= i < |props| ==> props[i].propOff >= off && props[i].valOff >= off
  }

  lemma WalkBehind(f: Blob, off: nat, path: seq<Text>)
    requires Walkable(f, off, path)
    ensures AllBehind(WalkFrom(f, off, path).props, off)
  {
    hide WalkFrom, Pad4, Aligned4, NamesInside;
    CompleteWalkInOrder(f, off, path);
  }

  /** The walk of a moved structure block is the moved walk. */
  lemma {:induction false} SuffixCarries(f: Blob, g: Blob, off: nat, at: nat, path: seq<Text>)
    requires Walkable(f, off, path) && StringsCarried(f, g)
    requires g.StructEnd() == f.StructEnd() + at - off && g.StructEnd() <= |g.bytes|
    requires f.bytes[off..f.StructEnd()] == g.bytes[at..g.StructEnd()]
    ensures AllBehind(WalkFrom(f, off, path).props, off)
    ensures WalkFrom(g, at, path) == Walk(MoveAll(WalkFrom(f, off, path).props, at - off), None)
    decreases f.StructEnd() - off
  {
    hide StepAt, StringsCarried, WalkFrom, MoveAll, AllBehind, Walkable, NameInside;
    WalkBehind(f, off, path);
    WalkableStep(f, off, path);
    var s := StepAt(f, off, path);
    var n := Reach(f, off, path) - off;
    StructInside(f, off, path);
    SubSlice(f.bytes, off, g.bytes, at, f.StructEnd() - off, 0, n);
    StepCarries(f, g, off, at, path);
    WalkUnfolds(f, off, path);
    WalkUnfolds(g, at, path);
    if s.Go? {
      SubSlice(f.bytes, off, g.bytes, at, f.StructEnd() - off, n, f.StructEnd() - off);
      SuffixCarries(f, g, s.off, at + n, s.path);
      if s.yielded.Some? {
        MoveAllCons(s.yielded.value, WalkFrom(f, s.off, s.path).props, at - off, off);
      }
    } else {
      MoveAllNil(at - off);
    }
  }

  lemma StructInside(f: Blob, off: nat, path: seq<Text>)
    requires Walkable(f, off, path)
    ensures f.StructEnd() <= |f.bytes|
  {
  }

  lemma MoveAllNil(d: int)
    ensures MoveAll([], d) == []
  {
  }

  lemma MoveAllCons(y: Prop, rest: seq<Prop>, d: int, off: nat)
    requires off + d >= 0 && AllBehind([y] + rest, off)
    ensures y.propOff >= off && y.valOff >= off && AllBehind(rest, off)
    ensures MoveAll([y] + rest, d) == [Move(y, d)] + MoveAll(rest, d)
  {
    var all := [y] + rest;
    assert all[0] == y;
    assert forall i :: 0 <= i < |rest| ==> rest[i] == all[i + 1];
  }

  /** The two properties that replace p. */
  function PositionProp(p: Prop): Prop { Prop(p.path, DATA_POSITION, p.propOff, p.propOff + 12, 4) }
  function SizeProp(p: Prop): Prop { Prop(p.path, DATA_SIZE, p.propOff + 16, p.propOff + 28, 4) }

  lemma NameIs(s: seq<Byte>, i: nat, name: Text)
    requires i + |name| < |s| && s[i..i + |name|] == name && s[i + |name|] == 0
    requires forall k :: 0 <= k < |name| ==> 0 < name[k] < 0x80
    ensures NameAt(s, i) == Ok(name)
  {
    AsciiIsUtf8(name);
    forall k | i <= k < i + |name|
      ensures s[k] != 0
    {
      assert s[k] == s[i..i + |name|][k - i];
    }
    assert NextNul(s, i) == Some(i + |name|);
  }

  lemma AccessorsAreAscii()
    ensures forall k :: 0 <= k < |DATA_POSITION| ==> 0 < DATA_POSITION[k] < 0x80
    ensures forall k :: 0 <= k < |DATA_SIZE| ==> 0 < DATA_SIZE[k] < 0x80
  {
    assert DATA_POSITION == [100, 97, 116, 97, 45, 112, 111, 115, 105, 116, 105, 111, 110];
    assert DATA_SIZE == [100, 97, 116, 97, 45, 115, 105, 122, 101];
  }

  /** Both appended names resolve behind the old strings block. */
  lemma NewNames(f: Blob, g: Blob)
    requires g.offStrings + f.sizeStrings <= |g.bytes|
    requires g.bytes[g.offStrings + f.sizeStrings..] == NEW_STRINGS
    ensures NameAt(g.bytes, g.offStrings + f.sizeStrings) == Ok(DATA_POSITION)
    ensures NameAt(g.bytes, g.offStrings + f.sizeStrings + |DATA_POSITION| + 1) == Ok(DATA_SIZE)
  {
    var e := g.offStrings + f.sizeStrings;
    var n := |DATA_POSITION|;
    FourChunks(DATA_POSITION, [0], DATA_SIZE, [0]);
    AccessorsAreAscii();
    assert g.bytes[e..] == g.bytes[e..|g.bytes|];
    SliceOfSlice(g.bytes, e, |g.bytes|, 0, n);
    SliceOfSlice(g.bytes, e, |g.bytes|, n + 1, n + 1 + |DATA_SIZE|);
    assert g.bytes[e + n] == g.bytes[e..][n];
    assert g.bytes[e + n + 1 + |DATA_SIZE|] == g.bytes[e..][n + 1 + |DATA_SIZE|];
    NameIs(g.bytes, e, DATA_POSITION);
    NameIs(g.bytes, e + n + 1, DATA_SIZE);
  }

  /** A property built by PropBytes is read back by one step of the walk. */
  lemma BuiltPropSteps(g: Blob, at: nat, nameoff: nat, value: nat, name: Text, path: seq<Text>)
    requires nameoff < U32 && value < U32 && at + 16 <= |g.bytes|
    requires g.bytes[at..at + 16] == PropBytes(nameoff, value)
    requires NameAt(g.bytes, g.offStrings + nameoff) == Ok(name)
    ensures StepAt(g, at, path) == Go(at + 16, path, Some(Prop(PathText(path), name, at, at + 12, 4)))
    ensures g.bytes[at + 12..at + 16] == Pack32(value)
  {
    hide NameAt, PathText, Word, Unpack;
    FourChunks(Pack32(FDT_PROP), Pack32(4), Pack32(nameoff), Pack32(value));
    SliceOfSlice(g.bytes, at, at + 16, 0, 4);
    SliceOfSlice(g.bytes, at, at + 16, 4, 8);
    SliceOfSlice(g.bytes, at, at + 16, 8, 12);
    SliceOfSlice(g.bytes, at, at + 16, 12, 16);
    PackedWordReads(FDT_PROP, g.bytes, at);
    PackedWordReads(4, g.bytes, at + 4);
    PackedWordReads(nameoff, g.bytes, at + 8);
  }

  /** From the cut on: the two new properties, then the moved rest. */
  lemma SpliceWalk(f: Blob, g: Blob, p: Prop, size: nat, pos: nat, path: seq<Text>)
    requires Editable(f, p) && size < U32 && pos < U32
    requires IsRewrite(f, g, p, size, pos) && StringsCarried(f, g)
    requires Walkable(f, p.End(), path) && p.path == PathText(path)
    ensures AllBehind(WalkFrom(f, p.End(), path).props, p.End())
    ensures WalkFrom(g, p.propOff, path) ==
            Walk([PositionProp(p), SizeProp(p)] + MoveAll(WalkFrom(f, p.End(), path).props, Delta(p)), None)
  {
    hide StepAt, PropBytes, Walkable, StringsCarried, PathText, NameAt, Pad4, AllBehind, MoveAll;
    WalkBehind(f, p.End(), path);
    CompleteAfter(f, p.End(), path);
    var x := p.propOff;
    NewNames(f, g);
    BuiltPropSteps(g, x, f.sizeStrings, pos, DATA_POSITION, path);
    BuiltPropSteps(g, x + 16, f.sizeStrings + |DATA_POSITION| + 1, size, DATA_SIZE, path);
    SubSlice(f.bytes, p.End(), g.bytes, x + 32, f.StringsEnd() - p.End(), 0, f.StructEnd() - p.End());
    SuffixCarries(f, g, p.End(), x + 32, path);
    WalkUnfolds(g, x, path);
    WalkUnfolds(g, x + 16, path);
    hide IsRewrite, WalkFrom;
    assert [PositionProp(p)] + ([SizeProp(p)] + WalkFrom(g, x + 32, path).props)
        == [PositionProp(p), SizeProp(p)] + WalkFrom(g, x + 32, path).props;
  }

  lemma CompleteAfter(f: Blob, off: nat, path: seq<Text>)
    requires Walkable(f, off, path)
    ensures off + 4 <= f.StructEnd()
  {
    CompleteWalkInOrder(f, off, path);
  }

  /** The props of the rewritten blob, given those of the original and the index that is replaced. */
  function Replaced(props: seq<Prop>, k: nat): seq<Prop>
    requires k < |props| && AllBehind(props[k + 1..], props[k].End())
    requires props[k].valOff == props[k].propOff + 12
  {
    props[..k] + [PositionProp(props[k]), SizeProp(props[k])] + MoveAll(props[k + 1..], Delta(props[k]))
  }

  lemma EntryAt(f: Blob, off: nat, path: seq<Text>, k: nat)
    requires Walkable(f, off, path) && k < |WalkFrom(f, off, path).props|
    ensures var p := WalkFrom(f, off, path).props[k]; off <= p.propOff && p.valOff == p.propOff + 12
  {
    CompleteWalkInOrder(f, off, path);
  }

  /** The step that yields the property to be cut. */
  lemma CutStep(f: Blob, off: nat, path: seq<Text>)
    requires var s := StepAt(f, off, path); s.Go? && s.yielded.Some?
    ensures var s := StepAt(f, off, path); s.yielded.value.path == PathText(path) && s.path == path
  {
  }

  /** A step before the cut reads the same bytes in both blobs. */
  lemma HeadStep(f: Blob, g: Blob, off: nat, path: seq<Text>, p: Prop, size: nat, pos: nat)
    requires Editable(f, p) && size < U32 && pos < U32 && IsRewrite(f, g, p, size, pos) && StringsCarried(f, g)
    requires HEADER_SIZE <= off
    requires var s := StepAt(f, off, path);
             s.Go? && s.off <= p.propOff && (s.yielded.Some? ==> NameInside(f, off))
    ensures var s := StepAt(f, off, path);
            WalkFrom(g, off, path) ==
              if s.yielded.Some? then Walk([s.yielded.value] + WalkFrom(g, s.off, s.path).props,
                                           WalkFrom(g, s.off, s.path).failure)
              else WalkFrom(g, s.off, s.path)
  {
    hide StepAt, NameInside, StringsCarried, Pad4;
    var s := StepAt(f, off, path);
    SubSlice(f.bytes, HEADER_SIZE, g.bytes, HEADER_SIZE, p.propOff - HEADER_SIZE,
             off - HEADER_SIZE, s.off - HEADER_SIZE);
    StepCarries(f, g, off, off, path);
    WalkUnfolds(g, off, path);
  }

  /** Main step: from any point before the cut, the rewritten walk is the old one with entry k replaced. */
  lemma {:induction false} RewriteWalk(f: Blob, g: Blob, off: nat, path: seq<Text>, k: nat, size: nat, pos: nat)
    requires Walkable(f, off, path) && HEADER_SIZE <= off
    requires k < |WalkFrom(f, off, path).props|
    requires var p := WalkFrom(f, off, path).props[k];
             Editable(f, p) && size < U32 && pos < U32 && IsRewrite(f, g, p, size, pos)
    requires StringsCarried(f, g)
    ensures var props := WalkFrom(f, off, path).props;
            && AllBehind(props[k + 1..], props[k].End())
            && WalkFrom(g, off, path) == Walk(Replaced(props, k), None)
    decreases f.StructEnd() - off
  {
    hide *;
    var props := WalkFrom(f, off, path).props;
    var p := props[k];
    var s := StepAt(f, off, path);
    EntryAt(f, off, path, k);
    WalkableStep(f, off, path);
    WalkUnfolds(f, off, path);
    var rest := WalkFrom(f, s.off, s.path).props;
    if s.yielded.Some? && k == 0 {
      CutStep(f, off, path);
      SpliceWalk(f, g, p, size, pos, path);
      ReplacedFirst(p, rest);
    } else {
      var j := if s.yielded.Some? then k - 1 else k;
      assert rest[j] == p;
      EntryAt(f, s.off, s.path, j);
      RewriteWalk(f, g, s.off, s.path, j, size, pos);
      HeadStep(f, g, off, path, p, size, pos);
      if s.yielded.Some? {
        ReplacedLater(s.yielded.value, rest, j);
      }
    }
  }

  lemma ReplacedFirst(p: Prop, rest: seq<Prop>)
    requires AllBehind(rest, p.End()) && p.valOff == p.propOff + 12
    ensures ([p] + rest)[1..] == rest
    ensures Replaced([p] + rest, 0) == [PositionProp(p), SizeProp(p)] + MoveAll(rest, Delta(p))
  {
    hide MoveAll, Delta, AllBehind;
    assert ([p] + rest)[1..] == rest;
    assert ([p] + rest)[..0] == [];
  }

  lemma ReplacedLater(y: Prop, rest: seq<Prop>, j: nat)
    requires j < |rest| && AllBehind(rest[j + 1..], rest[j].End()) && rest[j].valOff == rest[j].propOff + 12
    ensures ([y] + rest)[j + 2..] == rest[j + 1..]
    ensures Replaced([y] + rest, j + 1) == [y] + Replaced(rest, j)
  {
    hide MoveAll, Delta, AllBehind;
    assert ([y] + rest)[j + 2..] == rest[j + 1..];
    assert ([y] + rest)[..j + 1] == [y] + rest[..j];
  }
}
