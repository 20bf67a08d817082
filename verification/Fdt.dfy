/**
 Flattened device tree blobs as cascade/image/srg-fit-dedup.py reads them: big-endian words,
 NUL-terminated names and the property walk (Devicetree Specification v0.4, sections 5.2, 5.4, 5.5).
 */
module Fdt {
  import opened Wrappers

  type Byte = b: int | 0 <= b < 256
  /** A string, by its UTF-8 encoding. */
  type Text = seq<Byte>

  const U32: int := 0x1_0000_0000
  const FDT_MAGIC: nat := 0xD00DFEED
  const FDT_BEGIN_NODE: nat := 0x1
  const FDT_END_NODE: nat := 0x2
  const FDT_PROP: nat := 0x3
  const FDT_NOP: nat := 0x4
  const FDT_END: nat := 0x9
  const HEADER_SIZE: nat := 40
  const SLASH: Byte := 47

  /** Every way the tool can stop without writing: its own messages and the Python exceptions. */
  datatype Failure =
    | BadMagic | BadLayout | SizeMismatch | BadToken | EndMissing
    | StructError | NulMissing | BadUtf8 | PopFromEmpty | NoneUnpacked
    | NoSourceData | NoAliasData | PayloadsDiffer | OffsetTooLarge
    | DataStillPresent | AccessorMismatch

  // ---------------------------------------------------------------- words

  /** Value of a big-endian byte string. */
  function Word(s: seq<Byte>): nat {
    if |s| == 0 then 0 else Word(s[..|s| - 1]) * 0x100 + s[|s| - 1] as int
  }

  function Power256(n: nat): nat {
    if n == 0 then 1 else Power256(n - 1) * 0x100
  }

  lemma {:induction false} WordBound(s: seq<Byte>)
    ensures Word(s) < Power256(|s|)
    decreases |s|
  {
    if |s| > 0 { WordBound(s[..|s| - 1]); }
  }

  function Unpack(n: nat, len: nat): (s: seq<Byte>)
    ensures |s| == len
  {
    if len == 0 then [] else Unpack(n / 0x100, len - 1) + [n % 0x100]
  }

  lemma {:induction false} UnpackedReads(n: nat, len: nat)
    requires n < Power256(len)
    ensures Word(Unpack(n, len)) == n
  {
    if len > 0 {
      UnpackedReads(n / 0x100, len - 1);
      assert Unpack(n, len)[..len - 1] == Unpack(n / 0x100, len - 1);
    }
  }

  /** struct.unpack_from(">I", s, off) */
  function Be32(s: seq<Byte>, off: nat): nat
    requires off + 4 <= |s|
  {
    Word(s[off..off + 4])
  }

  lemma Be32Bound(s: seq<Byte>, off: nat)
    requires off + 4 <= |s|
    ensures Be32(s, off) < U32
  {
    WordBound(s[off..off + 4]);
    assert Power256(4) == U32;
  }

  /** struct.pack(">I", n) */
  function Pack32(n: nat): (s: seq<Byte>)
    requires n < U32
    ensures |s| == 4
  {
    Unpack(n, 4)
  }

  lemma PackedWordReads(n: nat, s: seq<Byte>, off: nat)
    requires n < U32
    requires off + 4 <= |s|
    requires s[off..off + 4] == Pack32(n)
    ensures Be32(s, off) == n
  {
    assert Power256(4) == U32;
    UnpackedReads(n, 4);
  }

  predicate Aligned4(n: int) { n % 4 == 0 }

  function Pad4(n: nat): (m: nat)
    ensures n <= m < n + 4 && m % 4 == 0
  {
    (n + 3) / 4 * 4
  }

  // ---------------------------------------------------------------- names

  /** Position of the first NUL at or after i, as bytes.index finds it. */
  function NextNul(s: seq<Byte>, i: nat): (r: Option<nat>)
    ensures r.Some? ==> i <= r.value < |s| && s[r.value] == 0
    ensures r.Some? ==> forall k :: i <= k < r.value ==> s[k] != 0
    ensures r.None? ==> forall k :: i <= k < |s| ==> s[k] != 0
    decreases |s| - i
  {
    if i >= |s| then None
    else if s[i] == 0 then Some(i)
    else NextNul(s, i + 1)
  }

  predicate Tail(b: Byte) { 0x80 <= b < 0xC0 }

  /** What bytes.decode accepts (RFC 3629, section 4). */
  predicate Utf8(s: Text) {
    if |s| == 0 then true
    else if s[0] < 0x80 then Utf8(s[1..])
    else if |s| >= 2 && 0xC2 <= s[0] < 0xE0 then Tail(s[1]) && Utf8(s[2..])
    else if |s| >= 3 && 0xE0 <= s[0] < 0xF0 then
      && Tail(s[1]) && Tail(s[2])
      && (s[0] == 0xE0 ==> s[1] >= 0xA0)
      && (s[0] == 0xED ==> s[1] < 0xA0)
      && Utf8(s[3..])
    else if |s| >= 4 && 0xF0 <= s[0] < 0xF5 then
      && Tail(s[1]) && Tail(s[2]) && Tail(s[3])
      && (s[0] == 0xF0 ==> s[1] >= 0x90)
      && (s[0] == 0xF4 ==> s[1] < 0x90)
      && Utf8(s[4..])
    else false
  }

  lemma AsciiIsUtf8(s: Text)
    requires forall k :: 0 <= k < |s| ==> s[k] < 0x80
    ensures Utf8(s)
  {
  }

  /** blob.index(b"\0", i) followed by decode. */
  function NameAt(s: seq<Byte>, i: nat): (r: Result<Text, Failure>)
    ensures r.Ok? ==> i + |r.value| < |s| && s[i..i + |r.value|] == r.value && s[i + |r.value|] == 0
  {
    match NextNul(s, i)
    case None => Err(NulMissing)
    case Some(e) => if Utf8(s[i..e]) then Ok(s[i..e]) else Err(BadUtf8)
  }

  /** A name depends only on the bytes up to its NUL. */
  lemma NameCarries(s: seq<Byte>, i: nat, t: seq<Byte>, j: nat)
    requires NextNul(s, i).Some?
    requires var len := NextNul(s, i).value - i; j + len < |t| && s[i..i + len + 1] == t[j..j + len + 1]
    ensures NextNul(t, j) == Some(j + NextNul(s, i).value - i)
    ensures NameAt(t, j) == NameAt(s, i)
  {
    hide Utf8;
    var len := NextNul(s, i).value - i;
    forall k | j <= k <= j + len
      ensures t[k] == s[i + (k - j)]
    {
      assert s[i..i + len + 1][k - j] == t[j..j + len + 1][k - j];
    }
    assert t[j + len] == 0;
    assert s[i..i + len] == s[i..i + len + 1][..len];
    assert t[j..j + len] == t[j..j + len + 1][..len];
  }

  function Join(names: seq<Text>): Text {
    if |names| == 0 then [] else [SLASH] + names[0] + Join(names[1..])
  }

  /** "/" + "/".join(path[1:]) */
  function PathText(path: seq<Text>): Text {
    if |path| <= 1 then [SLASH] else Join(path[1..])
  }

  // ---------------------------------------------------------------- blobs

  datatype Blob = Blob(bytes: seq<Byte>, totalSize: nat, offStruct: nat, offStrings: nat,
                       offRsvmap: nat, sizeStrings: nat, sizeStruct: nat)
  {
    function StructEnd(): nat { offStruct + sizeStruct }
    function StringsEnd(): nat { offStrings + sizeStrings }
  }

  function Open(bytes: seq<Byte>): (r: Result<Blob, Failure>)
    ensures r.Ok? ==> r.value.bytes == bytes && |bytes| >= HEADER_SIZE
  {
    if |bytes| < 4 then Err(StructError)
    else if Be32(bytes, 0) != FDT_MAGIC then Err(BadMagic)
    else if |bytes| < HEADER_SIZE then Err(StructError)
    else Ok(Blob(bytes, Be32(bytes, 4), Be32(bytes, 8), Be32(bytes, 12), Be32(bytes, 16),
                 Be32(bytes, 32), Be32(bytes, 36)))
  }

  function LayoutCheck(f: Blob): Option<Failure> {
    if !(f.offRsvmap < f.offStruct < f.offStrings) || f.StringsEnd() > f.totalSize then Some(BadLayout)
    else if |f.bytes| != f.totalSize then Some(SizeMismatch)
    else None
  }

  // ---------------------------------------------------------------- the property walk

  datatype Prop = Prop(path: Text, name: Text, propOff: nat, valOff: nat, valLen: nat)
  {
    function End(): nat { valOff + Pad4(valLen) }
  }

  datatype Step =
    | Stop
    | Die(failure: Failure)
    | Go(off: nat, path: seq<Text>, yielded: Option<Prop>)

  /** One turn of the walk's loop at an offset inside the structure block. */
  function StepAt(f: Blob, off: nat, path: seq<Text>): (s: Step)
    ensures s.Go? ==> s.off >= off + 4
  {
    if off + 4 > |f.bytes| then Die(StructError)
    else
      var token := Be32(f.bytes, off);
      if token == FDT_BEGIN_NODE then
        match NameAt(f.bytes, off + 4) {
          case Err(e) => Die(e)
          case Ok(name) => Go(off + 4 + Pad4(|name| + 1), path + [name], None)
        }
      else if token == FDT_END_NODE then
        if |path| == 0 then Die(PopFromEmpty) else Go(off + 4, path[..|path| - 1], None)
      else if token == FDT_PROP then
        if off + 12 > |f.bytes| then Die(StructError)
        else
          var valLen := Be32(f.bytes, off + 4);
          match NameAt(f.bytes, f.offStrings + Be32(f.bytes, off + 8)) {
            case Err(e) => Die(e)
            case Ok(name) =>
              Go(off + 12 + Pad4(valLen), path, Some(Prop(PathText(path), name, off, off + 12, valLen)))
          }
      else if token == FDT_NOP then Go(off + 4, path, None)
      else if token == FDT_END then Stop
      else Die(BadToken)
  }

  /** The generator: the properties it yields, and the failure that ends it if one does. */
  datatype Walk = Walk(props: seq<Prop>, failure: Option<Failure>)

  function WalkFrom(f: Blob, off: nat, path: seq<Text>): (w: Walk)
    decreases f.StructEnd() - off
  {
    if off >= f.StructEnd() then Walk([], Some(EndMissing))
    else
      match StepAt(f, off, path)
      case Stop => Walk([], None)
      case Die(e) => Walk([], Some(e))
      case Go(next, path', yielded) =>
        var rest := WalkFrom(f, next, path');
        if yielded.Some? then Walk([yielded.value] + rest.props, rest.failure) else rest
  }

  function PropsWalk(f: Blob): Walk { WalkFrom(f, f.offStruct, []) }

  predicate Matches(p: Prop, path: Text, name: Text) { p.path == path && p.name == name }

  /** prop_find over a lazy walk: a failure after the first match is never reached. */
  function FirstMatch(w: Walk, path: Text, name: Text): Result<Option<Prop>, Failure>
    decreases |w.props|
  {
    if |w.props| == 0 then
      if w.failure.Some? then Err(w.failure.value) else Ok(None)
    else if Matches(w.props[0], path, name) then Ok(Some(w.props[0]))
    else FirstMatch(w.(props := w.props[1..]), path, name)
  }

  /** One turn of the walk, seen by prop_find. */
  lemma FirstMatchStep(f: Blob, off: nat, stack: seq<Text>, path: Text, name: Text)
    requires off < f.StructEnd()
    ensures FirstMatch(WalkFrom(f, off, stack), path, name) ==
            var s := StepAt(f, off, stack);
            if s.Stop? then Ok(None)
            else if s.Die? then Err(s.failure)
            else if s.yielded.Some? && Matches(s.yielded.value, path, name) then Ok(s.yielded)
            else FirstMatch(WalkFrom(f, s.off, s.path), path, name)
  {
    var s := StepAt(f, off, stack);
    hide StepAt;
    if s.Go? && s.yielded.Some? {
      var rest := WalkFrom(f, s.off, s.path);
      assert ([s.yielded.value] + rest.props)[1..] == rest.props;
    }
  }

  lemma FirstMatchAtEnd(f: Blob, off: nat, stack: seq<Text>, path: Text, name: Text)
    requires off >= f.StructEnd()
    ensures FirstMatch(WalkFrom(f, off, stack), path, name) == Err(EndMissing)
  {
  }

  /** prop_find with the walk's own loop and node stack. */
  method PropFind(f: Blob, path: Text, name: Text) returns (r: Result<Option<Prop>, Failure>)
    ensures r == FirstMatch(PropsWalk(f), path, name)
  {
    hide WalkFrom, FirstMatch, NameAt, Be32, PathText, Pad4;
    var off := f.offStruct;
    var stack: seq<Text> := [];
    while off < f.StructEnd()
      invariant FirstMatch(PropsWalk(f), path, name) == FirstMatch(WalkFrom(f, off, stack), path, name)
      decreases f.StructEnd() - off
    {
      FirstMatchStep(f, off, stack, path, name);
      if off + 4 > |f.bytes| { return Err(StructError); }
      var token := Be32(f.bytes, off);
      if token == FDT_BEGIN_NODE {
        var node := NameAt(f.bytes, off + 4);
        if node.Err? { return Err(node.error); }
        off, stack := off + 4 + Pad4(|node.value| + 1), stack + [node.value];
      } else if token == FDT_END_NODE {
        if |stack| == 0 { return Err(PopFromEmpty); }
        off, stack := off + 4, stack[..|stack| - 1];
      } else if token == FDT_PROP {
        if off + 12 > |f.bytes| { return Err(StructError); }
        var valLen := Be32(f.bytes, off + 4);
        var found := NameAt(f.bytes, f.offStrings + Be32(f.bytes, off + 8));
        if found.Err? { return Err(found.error); }
        var p := Prop(PathText(stack), found.value, off, off + 12, valLen);
        if p.path == path && p.name == name { return Ok(Some(p)); }
        off := off + 12 + Pad4(valLen);
      } else if token == FDT_NOP {
        off := off + 4;
      } else if token == FDT_END {
        return Ok(None);
      } else {
        return Err(BadToken);
      }
    }
    FirstMatchAtEnd(f, off, stack, path, name);
    return Err(EndMissing);
  }

  /** Lowest index of a property with this path and name, or the length when there is none. */
  function FirstIndex(props: seq<Prop>, path: Text, name: Text): (k: nat)
    ensures k <= |props|
    ensures k < |props| ==> Matches(props[k], path, name)
    ensures forall i :: 0 <= i < k ==> !Matches(props[i], path, name)
  {
    if |props| == 0 || Matches(props[0], path, name) then 0
    else
      assert forall i :: 0 < i < |props| ==> props[i] == props[1..][i - 1];
      1 + FirstIndex(props[1..], path, name)
  }

  /** prop_find returns the property at that index; only a walk without one reports its failure. */
  lemma {:induction false} FirstMatchIsFirstIndex(w: Walk, path: Text, name: Text)
    ensures var k := FirstIndex(w.props, path, name);
            FirstMatch(w, path, name) ==
              if k < |w.props| then Ok(Some(w.props[k]))
              else if w.failure.Some? then Err(w.failure.value)
              else Ok(None)
    decreases |w.props|
  {
    if |w.props| > 0 {
      FirstMatchIsFirstIndex(w.(props := w.props[1..]), path, name);
    }
  }

  // ---------------------------------------------------------------- geometry of a complete walk

  /** Properties of a walk that reaches FDT_END lie in order inside the structure block. */
  ghost predicate InOrder(f: Blob, off: nat, props: seq<Prop>) {
    && (forall i :: 0 <= i < |props| ==> off <= props[i].propOff && props[i].End() + 4 <= f.StructEnd())
    && (forall i :: 0 <= i < |props| ==> props[i].valOff == props[i].propOff + 12)
    && (forall i, j :: 0 <= i < j < |props| ==> props[i].End() <= props[j].propOff)
  }

  lemma {:induction false} CompleteWalkInOrder(f: Blob, off: nat, path: seq<Text>)
    requires WalkFrom(f, off, path).failure.None?
    requires Aligned4(f.StructEnd() - off)
    ensures off + 4 <= f.StructEnd()
    ensures InOrder(f, off, WalkFrom(f, off, path).props)
    decreases f.StructEnd() - off
  {
    var s := StepAt(f, off, path);
    AlignedRoom(f.StructEnd() - off);
    hide StepAt, Pad4, Aligned4;
    if s.Go? {
      StepKeepsAlignment(f, off, path);
      CompleteWalkInOrder(f, s.off, s.path);
      if s.yielded.Some? {
        var rest := WalkFrom(f, s.off, s.path).props;
        var props := WalkFrom(f, off, path).props;
        assert props == [s.yielded.value] + rest;
        assert forall i :: 0 < i < |props| ==> props[i] == rest[i - 1];
      }
    }
  }

  lemma AlignedRoom(n: int)
    requires Aligned4(n) && n > 0
    ensures n >= 4
  {
  }

  lemma StepKeepsAlignment(f: Blob, off: nat, path: seq<Text>)
    requires StepAt(f, off, path).Go? && Aligned4(f.StructEnd() - off)
    ensures Aligned4(f.StructEnd() - StepAt(f, off, path).off)
  {
    hide Be32, NameAt;
  }
}
