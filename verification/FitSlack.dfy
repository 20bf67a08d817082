/**
 Slack behind the strings block (srg-fit-dedup.py, layout_check): mkimage leaves some, so a file with any bytes there, counted
 in its total size, is as good as one without, and what is written for it is the same.
 */
module FitSlack {
  import opened Wrappers
  import opened Fdt
  import opened FitRewrite
  import opened FitDedup

  /** The file with other bytes behind its strings block, and the total size that counts them. */
  function WithSlack(f: Blob, slack: seq<Byte>): (s: seq<Byte>)
    requires HEADER_SIZE <= f.offStruct <= f.offStrings && f.StringsEnd() <= |f.bytes|
    requires f.StringsEnd() + |slack| < U32
    ensures |s| == f.StringsEnd() + |slack|
  {
    Put32(f.bytes[..f.StringsEnd()] + slack, 4, f.StringsEnd() + |slack|)
  }

  /** It opens as the same blocks, with a total size of its own. */
  function Slacked(f: Blob, slack: seq<Byte>): Blob
    requires HEADER_SIZE <= f.offStruct <= f.offStrings && f.StringsEnd() <= |f.bytes|
    requires f.StringsEnd() + |slack| < U32
  {
    f.(bytes := WithSlack(f, slack), totalSize := f.StringsEnd() + |slack|)
  }

  /** Bytes other than those of the total size. */
  lemma SameBytes(f: Blob, slack: seq<Byte>, a: nat, b: nat)
    requires HEADER_SIZE <= f.offStruct <= f.offStrings && f.StringsEnd() <= |f.bytes|
    requires f.StringsEnd() + |slack| < U32
    requires a <= b <= f.StringsEnd() && (b <= 4 || 8 <= a)
    ensures b <= |WithSlack(f, slack)| && WithSlack(f, slack)[a..b] == f.bytes[a..b]
  {
    var s := f.bytes[..f.StringsEnd()] + slack;
    assert s[a..b] == f.bytes[a..b];
  }

  lemma SlackOpens(f: Blob, slack: seq<Byte>)
    requires WellFormed(f) && f.StringsEnd() + |slack| < U32
    ensures Open(WithSlack(f, slack)) == Ok(Slacked(f, slack)) && Ordered(Slacked(f, slack))
  {
    hide WithSlack, Be32, WalkFrom, NamesInside;
    var g := WithSlack(f, slack);
    forall off | off in [0, 8, 12, 16, 32, 36]
      ensures Be32(g, off) == Be32(f.bytes, off)
    {
      SameWord(f, slack, off);
    }
    assert [0, 8, 12, 16, 32, 36][0] == 0 && [0, 8, 12, 16, 32, 36][1] == 8 && [0, 8, 12, 16, 32, 36][2] == 12;
    assert [0, 8, 12, 16, 32, 36][3] == 16 && [0, 8, 12, 16, 32, 36][4] == 32 && [0, 8, 12, 16, 32, 36][5] == 36;
    TotalWord(f, slack);
  }

  lemma SameWord(f: Blob, slack: seq<Byte>, off: nat)
    requires HEADER_SIZE <= f.offStruct <= f.offStrings && f.StringsEnd() <= |f.bytes|
    requires f.StringsEnd() + |slack| < U32 && (off + 4 <= 4 || 8 <= off) && off + 4 <= f.StringsEnd()
    ensures Be32(WithSlack(f, slack), off) == Be32(f.bytes, off)
  {
    SameBytes(f, slack, off, off + 4);
    hide WithSlack;
  }

  lemma TotalWord(f: Blob, slack: seq<Byte>)
    requires HEADER_SIZE <= f.offStruct <= f.offStrings && f.StringsEnd() <= |f.bytes|
    requires f.StringsEnd() + |slack| < U32
    ensures Be32(WithSlack(f, slack), 4) == f.StringsEnd() + |slack|
  {
    PutReads(f.bytes[..f.StringsEnd()] + slack, 4, f.StringsEnd() + |slack|, 4);
    hide Be32, Put32;
  }

  /** The tree is the same, property for property. */
  lemma SlackKeepsTree(f: Blob, slack: seq<Byte>)
    requires WellFormed(f) && f.StringsEnd() + |slack| < U32
    ensures WellFormed(Slacked(f, slack)) && PropsWalk(Slacked(f, slack)) == PropsWalk(f)
    ensures forall i :: 0 <= i < |PropsWalk(f).props| ==>
              Value(Slacked(f, slack), PropsWalk(f).props[i]) == Value(f, PropsWalk(f).props[i])
  {
    var g := Slacked(f, slack);
    SlackOpens(f, slack);
    SlackKeepsWalk(f, slack);
    SlackKeepsNames(f, slack);
    SlackKeepsWellFormed(f, slack);
    forall i | 0 <= i < |PropsWalk(f).props|
      ensures Value(g, PropsWalk(f).props[i]) == Value(f, PropsWalk(f).props[i])
    {
      SlackKeepsValue(f, slack, i);
    }
    hide *;
  }

  lemma SlackKeepsWellFormed(f: Blob, slack: seq<Byte>)
    requires WellFormed(f) && f.StringsEnd() + |slack| < U32
    requires Open(Slacked(f, slack).bytes) == Ok(Slacked(f, slack)) && Ordered(Slacked(f, slack))
    requires PropsWalk(Slacked(f, slack)) == PropsWalk(f)
    requires NamesInside(Slacked(f, slack), PropsWalk(f).props)
    ensures WellFormed(Slacked(f, slack))
  {
    hide WithSlack, WalkFrom, Open, NamesInside;
  }

  lemma SlackKeepsValue(f: Blob, slack: seq<Byte>, i: nat)
    requires WellFormed(f) && f.StringsEnd() + |slack| < U32 && i < |PropsWalk(f).props|
    ensures Value(Slacked(f, slack), PropsWalk(f).props[i]) == Value(f, PropsWalk(f).props[i])
  {
    PropsInOrder(f);
    hide WithSlack, WalkFrom, Open, Be32, Pad4, NamesInside;
    var g, p := Slacked(f, slack), PropsWalk(f).props[i];
    assert p.End() + 4 <= f.StructEnd() && f.offStruct <= p.propOff && p.valOff == p.propOff + 12;
    SameBytes(f, slack, p.valOff, p.valOff + p.valLen);
    SliceInside(f.bytes, p.valOff, p.valOff + p.valLen);
    SliceInside(g.bytes, p.valOff, p.valOff + p.valLen);
  }

  lemma SlackKeepsWalk(f: Blob, slack: seq<Byte>)
    requires WellFormed(f) && f.StringsEnd() + |slack| < U32
    ensures PropsWalk(Slacked(f, slack)) == PropsWalk(f)
  {
    var g := Slacked(f, slack);
    WellFormedWalkable(f);
    SameBytes(f, slack, f.offStruct, f.StructEnd());
    SameBytes(f, slack, f.offStrings, f.StringsEnd());
    hide WithSlack, WalkFrom, Walkable, Open;
    SuffixCarries(f, g, f.offStruct, f.offStruct, []);
    MoveNothing(PropsWalk(f).props);
  }

  lemma WellFormedWalkable(f: Blob)
    requires WellFormed(f)
    ensures Walkable(f, f.offStruct, []) && PropsWalk(f).failure.None?
  {
    hide WalkFrom, NamesInside;
  }

  lemma MoveNothing(props: seq<Prop>)
    requires AllBehind(props, 0)
    ensures MoveAll(props, 0) == props
  {
  }

  lemma SlackKeepsNames(f: Blob, slack: seq<Byte>)
    requires WellFormed(f) && f.StringsEnd() + |slack| < U32
    ensures NamesInside(Slacked(f, slack), PropsWalk(f).props)
  {
    var g := Slacked(f, slack);
    PropsInOrder(f);
    hide WithSlack, WalkFrom, Open, NameInside, Pad4;
    forall i | 0 <= i < |PropsWalk(f).props|
      ensures NameInside(g, PropsWalk(f).props[i].propOff)
    {
      var p := PropsWalk(f).props[i];
      assert NameInside(f, p.propOff) && f.offStruct <= p.propOff && p.End() + 4 <= f.StructEnd();
      SlackKeepsName(f, slack, p.propOff);
    }
  }

  lemma SlackKeepsName(f: Blob, slack: seq<Byte>, propOff: nat)
    requires HEADER_SIZE <= f.offStruct <= f.offStrings && f.StringsEnd() <= |f.bytes|
    requires f.StringsEnd() + |slack| < U32
    requires NameInside(f, propOff) && f.offStruct <= propOff && propOff + 12 <= f.StringsEnd()
    ensures NameInside(Slacked(f, slack), propOff)
  {
    var i := f.offStrings + Be32(f.bytes, propOff + 8);
    SameWord(f, slack, propOff + 8);
    var e := NextNul(f.bytes, i).value;
    SameBytes(f, slack, i, e + 1);
    hide WithSlack, Be32;
    NameCarries(f.bytes, i, WithSlack(f, slack), i);
  }

  /** The rewrite is the same, byte for byte: it drops the slack and counts its own length. */
  lemma SlackKeepsRewrite(f: Blob, slack: seq<Byte>, k: nat, size: nat, pos: nat)
    requires WellFormed(f) && f.StringsEnd() + |slack| < U32 && WellFormed(Slacked(f, slack))
    requires PropsWalk(Slacked(f, slack)) == PropsWalk(f)
    requires k < |PropsWalk(f).props| && Fits(f, PropsWalk(f).props[k]) && size < U32 && pos < U32
    ensures Fits(Slacked(f, slack), PropsWalk(f).props[k])
    ensures RewrittenBlob(Slacked(f, slack), k, size, pos).bytes == RewrittenBlob(f, k, size, pos).bytes
  {
    var g, p := Slacked(f, slack), PropsWalk(f).props[k];
    WellFormedCuttable(f, k);
    WellFormedCuttable(g, k);
    RewrittenIsRewrite(f, p, size, pos);
    RewrittenIsRewrite(g, p, size, pos);
    hide WellFormed, PropsWalk, IsRewrite, Ordered, WithSlack;
    SameRewritten(f, slack, p, size, pos);
    hide Rewritten;
  }

  lemma SameRewritten(f: Blob, slack: seq<Byte>, p: Prop, size: nat, pos: nat)
    requires f.StringsEnd() + |slack| < U32 && Editable(f, p) && size < U32 && pos < U32
    ensures Editable(Slacked(f, slack), p) && Rewritten(Slacked(f, slack), p, size, pos) == Rewritten(f, p, size, pos)
  {
    var g := Slacked(f, slack);
    SplicedSame(f, slack, p, size, pos);
    hide Spliced, WithSlack, Pad4;
    PutOver(Spliced(f, p, size, pos), Spliced(g, p, size, pos), |Spliced(f, p, size, pos)|);
    hide Put32;
  }

  /** What stands behind the cut. */
  function Behind(f: Blob, p: Prop, size: nat, pos: nat): seq<Byte>
    requires Editable(f, p) && size < U32 && pos < U32
  {
    PropBytes(f.sizeStrings, pos) + PropBytes(f.sizeStrings + |DATA_POSITION| + 1, size) + f.bytes[p.End()..f.StringsEnd()]
    + NEW_STRINGS
  }

  lemma SplicedForm(f: Blob, p: Prop, size: nat, pos: nat)
    requires Editable(f, p) && size < U32 && pos < U32
    ensures p.propOff <= |f.bytes| && Spliced(f, p, size, pos) == f.bytes[..p.propOff] + Behind(f, p, size, pos)
  {
    hide PropBytes, Pad4;
    Associate(f.bytes[..p.propOff], PropBytes(f.sizeStrings, pos), PropBytes(f.sizeStrings + |DATA_POSITION| + 1, size),
              f.bytes[p.End()..f.StringsEnd()], NEW_STRINGS);
  }

  lemma Associate(a: seq<Byte>, b: seq<Byte>, c: seq<Byte>, d: seq<Byte>, e: seq<Byte>)
    ensures a + (b + c) + d + e == a + (b + c + d + e)
  {
  }

  lemma HeadsAgree(a: seq<Byte>, b: seq<Byte>, tail: seq<Byte>)
    requires |a| == |b| >= HEADER_SIZE && a[..4] == b[..4] && a[8..] == b[8..]
    ensures (a + tail)[..4] == (b + tail)[..4] && (a + tail)[8..] == (b + tail)[8..]
  {
    assert (a + tail)[8..] == a[8..] + tail && (b + tail)[8..] == b[8..] + tail;
    assert (a + tail)[..4] == a[..4] && (b + tail)[..4] == b[..4];
  }

  /** In front of any cut the file with slack differs in its total size only. */
  lemma HeadSame(f: Blob, slack: seq<Byte>, n: nat)
    requires f.StringsEnd() + |slack| < U32 && HEADER_SIZE <= f.offStruct <= n <= f.StringsEnd() <= |f.bytes|
    requires f.offStruct <= f.offStrings
    ensures n <= |WithSlack(f, slack)|
    ensures f.bytes[..n][..4] == WithSlack(f, slack)[..n][..4] && f.bytes[..n][8..] == WithSlack(f, slack)[..n][8..]
  {
    SameBytes(f, slack, 0, 4);
    SameBytes(f, slack, 8, n);
    hide WithSlack;
    var t := WithSlack(f, slack);
    assert f.bytes[..n][..4] == f.bytes[0..4] && t[..n][..4] == t[0..4];
    assert f.bytes[..n][8..] == f.bytes[8..n] && t[..n][8..] == t[8..n];
  }

  lemma BehindSame(f: Blob, slack: seq<Byte>, p: Prop, size: nat, pos: nat)
    requires f.StringsEnd() + |slack| < U32 && Editable(f, p) && size < U32 && pos < U32
    ensures Editable(Slacked(f, slack), p) && Behind(Slacked(f, slack), p, size, pos) == Behind(f, p, size, pos)
  {
    SameBytes(f, slack, p.End(), f.StringsEnd());
    hide WithSlack, PropBytes, Pad4;
  }

  lemma SplicedSame(f: Blob, slack: seq<Byte>, p: Prop, size: nat, pos: nat)
    requires f.StringsEnd() + |slack| < U32 && Editable(f, p) && size < U32 && pos < U32
    ensures Editable(Slacked(f, slack), p)
    ensures var s, t := Spliced(f, p, size, pos), Spliced(Slacked(f, slack), p, size, pos);
            |s| == |t| >= HEADER_SIZE && s[..4] == t[..4] && s[8..] == t[8..]
  {
    hide WithSlack, PropBytes, Pad4, Spliced, Behind;
    var g := Slacked(f, slack);
    BehindSame(f, slack, p, size, pos);
    SplicedForm(f, p, size, pos);
    SplicedForm(g, p, size, pos);
    HeadSame(f, slack, p.propOff);
    HeadsAgree(f.bytes[..p.propOff], g.bytes[..p.propOff], Behind(f, p, size, pos));
  }

  lemma PutOver(s: seq<Byte>, t: seq<Byte>, n: nat)
    requires |s| == |t| >= HEADER_SIZE && s[..4] == t[..4] && s[8..] == t[8..] && n < U32
    ensures Put32(s, 4, n) == Put32(t, 4, n)
  {
  }

  /**
   So two runs, on files that differ in their slack only, end alike: the one writes exactly when the other does, and
   then the same bytes. What is said of each result is what Dedup promises.
   */
  lemma SlackKeepsOutcome(f: Blob, slack: seq<Byte>, alias: Text, source: Text,
                          r: Result<seq<Byte>, Failure>, r': Result<seq<Byte>, Failure>)
    requires WellFormed(f) && NotYetAliased(f, alias) && f.StringsEnd() + |slack| < U32
    requires (r.Ok? <==> Aliasable(f, alias, source)) && (r.Ok? ==> Written(f, alias, source, r.value))
    requires var g := Slacked(f, slack);
             WellFormed(g) && NotYetAliased(g, alias) ==>
               (r'.Ok? <==> Aliasable(g, alias, source)) && (r'.Ok? ==> Written(g, alias, source, r'.value))
    ensures r'.Ok? <==> r.Ok?
    ensures r.Ok? ==> r'.value == r.value
  {
    SlackKeepsTree(f, slack);
    var props, k, m := PropsWalk(f).props, DataIndex(f, alias), DataIndex(f, source);
    hide WithSlack, WellFormed, WalkFrom, Value, RewrittenBlob, FirstIndex, NoAccessorsBefore, SecondData, Pad4;
    if k < |props| && m < |props| && Fits(f, props[k]) && 0 <= MovedTo(props, k, m) < U32 && props[m].valLen < U32 {
      SlackKeepsRewrite(f, slack, k, props[m].valLen, MovedTo(props, k, m));
    }
  }
}
