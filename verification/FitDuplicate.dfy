/**
 A file the rewriter gives up on only at the end (srg-fit-dedup.py 153-154): its alias node has two `data`
 properties, so one is left after the rewrite.
 */
module FitDuplicate {
  import opened Wrappers
  import opened Fdt
  import opened FitRewrite
  import opened FitDedup

  const A: Text := [97]
  const B: Text := [98]
  const IMAGES_NAME: Text := [105, 109, 97, 103, 101, 115]
  const SIZE: nat := 165

  /**
   A header, an empty reserve map at 40, a structure block at 56 and the string "data" at 160. The tree is
   / { images { a { data; data; }; b { data; }; }; }, each value four zero bytes.
   */
  function ByteAt(i: nat): Byte {
    if i < 40 then HeaderByte(i)
    else if i < 56 then 0
    else if i < 116 then AliasByte(i)
    else if i < 160 then SourceByte(i)
    else if i == 160 then 100 else if i == 161 then 97 else if i == 162 then 116 else if i == 163 then 97 else 0
  }

  function HeaderByte(i: nat): Byte {
    if i == 0 then 0xD0 else if i == 1 then 0x0D else if i == 2 then 0xFE else if i == 3 then 0xED
    else if i == 7 then 165 else if i == 11 then 56 else if i == 15 then 160 else if i == 19 then 40
    else if i == 23 then 17 else if i == 27 then 16 else if i == 35 then 5 else if i == 39 then 104 else 0
  }

  function AliasByte(i: nat): Byte {
    if i == 59 || i == 67 || i == 79 then 1
    else if i == 68 then 105 else if i == 69 then 109 else if i == 70 then 97 else if i == 71 then 103
    else if i == 72 then 101 else if i == 73 then 115 else if i == 80 then 97
    else if i == 87 || i == 103 then 3
    else if i == 91 || i == 107 then 4
    else 0
  }

  function SourceByte(i: nat): Byte {
    if i == 119 || i == 147 || i == 151 || i == 155 then 2
    else if i == 123 then 1 else if i == 124 then 98
    else if i == 131 then 3 else if i == 135 then 4
    else if i == 159 then 9
    else 0
  }

  function Bytes(): (s: seq<Byte>)
    ensures |s| == SIZE
    ensures forall i :: 0 <= i < SIZE ==> s[i] == ByteAt(i)
  {
    seq(SIZE, i requires 0 <= i < SIZE => ByteAt(i))
  }

  const DATA_A0: Prop := Prop(ImagePath(A), DATA, 84, 96, 4)
  const DATA_A1: Prop := Prop(ImagePath(A), DATA, 100, 112, 4)
  const DATA_B: Prop := Prop(ImagePath(B), DATA, 128, 140, 4)

  function File(): Blob { Blob(Bytes(), 165, 56, 160, 40, 5, 104) }

  lemma WordAt(off: nat, n: nat)
    requires off + 4 <= SIZE
    requires n == ((ByteAt(off) * 0x100 + ByteAt(off + 1)) * 0x100 + ByteAt(off + 2)) * 0x100 + ByteAt(off + 3)
    ensures Be32(Bytes(), off) == n
  {
    hide ByteAt;
    var s := Bytes()[off..off + 4];
    assert s[..3][..2] == s[..2] && s[..2][..1] == s[..1] && s[..1][..0] == [];
    assert Word(s[..1]) == s[0] as int;
    assert Word(s[..2]) == s[0] as int * 0x100 + s[1] as int;
    assert Word(s[..3]) == (s[0] as int * 0x100 + s[1] as int) * 0x100 + s[2] as int;
  }

  lemma NameHere(i: nat, name: Text)
    requires i + |name| < SIZE && ByteAt(i + |name|) == 0
    requires forall k :: 0 <= k < |name| ==> 0 < name[k] < 0x80 && ByteAt(i + k) == name[k]
    ensures NameAt(Bytes(), i) == Ok(name)
  {
    hide ByteAt;
    var s := Bytes();
    AsciiIsUtf8(name);
    hide Utf8;
    var e := NextNul(s, i);
    assert s[i + |name|] == 0;
    forall k | i <= k < i + |name|
      ensures s[k] == name[k - i]
    {
      assert ByteAt(i + (k - i)) == name[k - i];
    }
    assert e == Some(i + |name|);
    assert s[i..i + |name|] == name;
  }

  /** The header. */
  lemma Opens()
    ensures Open(Bytes()) == Ok(File()) && Ordered(File())
  {
    WordAt(0, FDT_MAGIC);
    WordAt(4, 165);
    WordAt(8, 56);
    WordAt(12, 160);
    WordAt(16, 40);
    WordAt(32, 5);
    WordAt(36, 104);
    hide Be32, ByteAt;
  }

  // ---------------------------------------------------------------- the walk, from its end

  function Root(): seq<Text> { [[]] }
  function Images(): seq<Text> { [[], IMAGES_NAME] }

  lemma PathOf(node: Text)
    ensures PathText([[], IMAGES_NAME, node]) == ImagePath(node)
  {
    assert [[], IMAGES_NAME, node][1..] == [IMAGES_NAME, node] && [IMAGES_NAME, node][1..] == [node];
    assert Join([node]) == [SLASH] + node + Join([]);
    assert Join([IMAGES_NAME, node]) == [SLASH] + IMAGES_NAME + Join([node]);
    assert IMAGES == [SLASH] + IMAGES_NAME + [SLASH];
  }

  lemma Enter(off: nat, path: seq<Text>, name: Text)
    requires off + 4 <= SIZE && Be32(Bytes(), off) == FDT_BEGIN_NODE && NameAt(Bytes(), off + 4) == Ok(name)
    requires 56 <= off < 160
    ensures WalkFrom(File(), off, path) == WalkFrom(File(), off + 4 + Pad4(|name| + 1), path + [name])
  {
    hide NameAt, Be32, Bytes, Pad4;
  }

  lemma Leave(off: nat, path: seq<Text>, name: Text)
    requires off + 4 <= SIZE && Be32(Bytes(), off) == FDT_END_NODE
    requires 56 <= off < 160
    ensures WalkFrom(File(), off, path + [name]) == WalkFrom(File(), off + 4, path)
  {
    hide NameAt, Be32, Bytes, Pad4;
    assert (path + [name])[..|path|] == path;
  }

  predicate DataWords(off: nat) {
    && 56 <= off && off + 16 <= 160
    && Be32(Bytes(), off) == FDT_PROP && Be32(Bytes(), off + 4) == 4 && Be32(Bytes(), off + 8) == 0
  }

  lemma YieldStep(off: nat, node: Text)
    requires DataWords(off)
    ensures StepAt(File(), off, [[], IMAGES_NAME, node]) ==
            Go(off + 16, [[], IMAGES_NAME, node], Some(Prop(ImagePath(node), DATA, off, off + 12, 4)))
  {
    NameHere(160, DATA);
    PathOf(node);
    hide NameAt, Be32, Bytes, PathText;
  }

  /** A four-byte data property of a node under /images. */
  lemma Yield(off: nat, node: Text, rest: seq<Prop>)
    requires DataWords(off)
    requires WalkFrom(File(), off + 16, Images() + [node]) == Walk(rest, None)
    ensures WalkFrom(File(), off, Images() + [node]) ==
            Walk([Prop(ImagePath(node), DATA, off, off + 12, 4)] + rest, None)
  {
    YieldStep(off, node);
    hide StepAt, Bytes;
    assert Images() + [node] == [[], IMAGES_NAME, node];
  }

  lemma EndTokens()
    ensures Be32(Bytes(), 144) == FDT_END_NODE && Be32(Bytes(), 148) == FDT_END_NODE
    ensures Be32(Bytes(), 152) == FDT_END_NODE && Be32(Bytes(), 156) == FDT_END
  {
    WordAt(144, FDT_END_NODE);
    WordAt(148, FDT_END_NODE);
    WordAt(152, FDT_END_NODE);
    WordAt(156, FDT_END);
  }

  lemma AtEnd()
    requires Be32(Bytes(), 156) == FDT_END
    ensures WalkFrom(File(), 156, []) == Walk([], None)
  {
    hide Bytes, Be32;
  }

  lemma EndWalk()
    ensures WalkFrom(File(), 144, Images() + [B]) == Walk([], None)
  {
    hide ByteAt, Be32, NameAt, Bytes, WalkFrom;
    EndTokens();
    AtEnd();
    Leave(144, Images(), B);
    Leave(148, Root(), IMAGES_NAME);
    Leave(152, [], []);
    assert Images() == Root() + [IMAGES_NAME] && Root() == [] + [[]];
  }

  lemma SourceNode()
    ensures Be32(Bytes(), 116) == FDT_END_NODE
    ensures Be32(Bytes(), 120) == FDT_BEGIN_NODE && NameAt(Bytes(), 124) == Ok(B)
    ensures DataWords(128)
  {
    WordAt(116, FDT_END_NODE);
    WordAt(120, FDT_BEGIN_NODE);
    NameHere(124, B);
    SourceData();
  }

  lemma SourceData()
    ensures DataWords(128)
  {
    WordAt(128, FDT_PROP);
    WordAt(132, 4);
    WordAt(136, 0);
  }

  lemma SourceWalk()
    ensures WalkFrom(File(), 116, Images() + [A]) == Walk([DATA_B], None)
  {
    hide ByteAt, Be32, NameAt, Bytes, WalkFrom;
    EndWalk();
    SourceNode();
    Leave(116, Images(), A);
    Enter(120, Images(), B);
    Yield(128, B, []);
  }

  lemma AliasNode()
    ensures Be32(Bytes(), 76) == FDT_BEGIN_NODE && NameAt(Bytes(), 80) == Ok(A)
    ensures DataWords(84) && DataWords(100)
  {
    WordAt(76, FDT_BEGIN_NODE);
    NameHere(80, A);
    FirstData();
    WordAt(100, FDT_PROP);
    WordAt(104, 4);
    WordAt(108, 0);
  }

  lemma FirstData()
    ensures DataWords(84)
  {
    WordAt(84, FDT_PROP);
    WordAt(88, 4);
    WordAt(92, 0);
  }

  lemma AliasWalk()
    ensures WalkFrom(File(), 76, Images()) == Walk([DATA_A0, DATA_A1, DATA_B], None)
  {
    hide ByteAt, Be32, NameAt, Bytes, WalkFrom;
    SourceWalk();
    AliasNode();
    Yield(100, A, [DATA_B]);
    Yield(84, A, [DATA_A1] + [DATA_B]);
    Enter(76, Images(), A);
    assert [DATA_A0] + ([DATA_A1] + [DATA_B]) == [DATA_A0, DATA_A1, DATA_B];
  }

  lemma TopNodes()
    ensures Be32(Bytes(), 56) == FDT_BEGIN_NODE && NameAt(Bytes(), 60) == Ok([])
    ensures Be32(Bytes(), 64) == FDT_BEGIN_NODE && NameAt(Bytes(), 68) == Ok(IMAGES_NAME)
  {
    WordAt(56, FDT_BEGIN_NODE);
    NameHere(60, []);
    WordAt(64, FDT_BEGIN_NODE);
    NameHere(68, IMAGES_NAME);
  }

  lemma WholeWalk()
    ensures PropsWalk(File()) == Walk([DATA_A0, DATA_A1, DATA_B], None)
  {
    hide ByteAt, Be32, NameAt, Bytes, WalkFrom;
    AliasWalk();
    TopNodes();
    Enter(64, Root(), IMAGES_NAME);
    Enter(56, [], []);
    assert Images() == Root() + [IMAGES_NAME] && Root() == [] + [[]];
  }

  // ---------------------------------------------------------------- what becomes of it

  /** A well-formed file that meets every condition for aliasing a to b but one: a has a second data property. */
  lemma TwoDataProperties()
    ensures var f := File();
            && Open(f.bytes) == Ok(f) && WellFormed(f) && NotYetAliased(f, A)
            && DataIndex(f, A) == 0 && DataIndex(f, B) == 2 && A != B
            && Value(f, DATA_A0) == Value(f, DATA_B) && Fits(f, DATA_A0) && PropsWalk(f).props == [DATA_A0, DATA_A1, DATA_B]
            && SecondData(PropsWalk(f).props, 0, ImagePath(A)) && !Aliasable(f, A, B)
  {
    Opens();
    WholeWalk();
    NamesHere();
    hide WalkFrom, Open, NameInside;
    var f := File();
    assert Value(f, DATA_A0) == f.bytes[96..100] == [0, 0, 0, 0] && Value(f, DATA_B) == f.bytes[140..144] == [0, 0, 0, 0];
    hide Bytes, ByteAt;
    if ImagePath(A) == ImagePath(B) { ImagePathInjective(A, B); }
    assert Matches(PropsWalk(f).props[1], ImagePath(A), DATA);
  }

  lemma NamesHere()
    ensures NameInside(File(), 84) && NameInside(File(), 100) && NameInside(File(), 128)
  {
    WordAt(92, 0);
    WordAt(108, 0);
    WordAt(136, 0);
  }

  /** Whatever position the finished file records, the self-checks refuse it: a data of the alias node is left. */
  lemma SelfChecksFail(pos: nat, size: nat)
    requires pos < U32
    ensures WellFormed(File()) && |PropsWalk(File()).props| > 0 && Fits(File(), PropsWalk(File()).props[0])
    ensures !SelfConsistent(RewrittenBlob(File(), 0, 4, pos).bytes, A, pos, size)
  {
    TwoDataProperties();
    hide WellFormed, Open, Bytes, WalkFrom, DataIndex, Value, Fits, SecondData, RewrittenBlob, FirstMatch, Ordered;
    AliasFound(File(), A, 0, 4, pos);
  }

  /** The program writes nothing. */
  method Refused() returns (r: Result<seq<Byte>, Failure>)
    ensures r.Err?
  {
    TwoDataProperties();
    hide WellFormed, NotYetAliased, Aliasable, Open, Bytes, PropsWalk, DataIndex, Value, Fits, SecondData, Written, SelfConsistent, SamePayload;
    assert File().bytes == Bytes();
    r := Dedup(Bytes(), A, B);
  }
}
