/**
 The structure block as it is written (Devicetree Specification v0.4, section 5.4): the walk of a tree's tokens gives
 back that tree's properties. Names end in a NUL, names and values are padded to four bytes, and NOPs say nothing.
 */
module FitTree {
  import opened Wrappers
  import opened Fdt
  import opened FitRewrite
  import opened FitDedup

  datatype Token = Begin(name: Text) | End | Property(nameoff: nat, value: seq<Byte>) | Nop

  function Padded(s: seq<Byte>): (r: seq<Byte>)
    ensures |r| % 4 == 0 && |s| <= |r| < |s| + 4 && r[..|s|] == s
  {
    s + seq((4 - |s| % 4) % 4, _ => 0)
  }

  predicate Encodable(t: Token) {
    match t
    case Begin(name) => Utf8(name) && 0 !in name
    case Property(nameoff, value) => nameoff < 0x1_0000_0000 && |value| < 0x1_0000_0000
    case _ => true
  }

  function Encode(t: Token): (s: seq<Byte>)
    requires Encodable(t)
    ensures |s| >= 4
  {
    match t
    case Begin(name) => Pack32(1) + Padded(name + [0])
    case End => Pack32(2)
    case Property(nameoff, value) => Pack32(3) + Pack32(|value|) + Pack32(nameoff) + Padded(value)
    case Nop => Pack32(4)
  }

  predicate AllEncodable(ts: seq<Token>) { forall t :: t in ts ==> Encodable(t) }

  function EncodeAll(ts: seq<Token>): seq<Byte>
    requires AllEncodable(ts)
  {
    if |ts| == 0 then Pack32(9) else Encode(ts[0]) + EncodeAll(ts[1..])
  }

  /** The path of a node from the root down, the root's own name left out. */
  function PathFrom(nodes: seq<Text>): Text {
    if |nodes| <= 1 then [] else PathFrom(nodes[..|nodes| - 1]) + [47] + nodes[|nodes| - 1]
  }

  /** What a tree with these tokens says, below the nodes that are open; each End closes one. */
  function Says(f: Blob, ts: seq<Token>, nodes: seq<Text>): Option<seq<Entry>> {
    if |ts| == 0 then Some([])
    else
      match ts[0]
      case Begin(name) => Says(f, ts[1..], nodes + [name])
      case End => if |nodes| == 0 then None else Says(f, ts[1..], nodes[..|nodes| - 1])
      case Nop => Says(f, ts[1..], nodes)
      case Property(nameoff, value) =>
        var name, rest := NameAt(f.bytes, f.offStrings + nameoff), Says(f, ts[1..], nodes);
        if name.Err? || rest.None? then None
        else Some([Entry(if |nodes| <= 1 then [47] else PathFrom(nodes), name.value, value)] + rest.value)
  }

  function Entries(f: Blob, props: seq<Prop>): (r: seq<Entry>)
    ensures |r| == |props|
  {
    seq(|props|, i requires 0 <= i < |props| => EntryOf(f, props[i]))
  }

  lemma {:induction false} PathIsJoined(nodes: seq<Text>)
    requires |nodes| > 1
    ensures PathText(nodes) == PathFrom(nodes)
    decreases |nodes|
  {
    var n := |nodes| - 1;
    if n > 1 {
      PathIsJoined(nodes[..n]);
      assert nodes[1..] == nodes[..n][1..] + [nodes[n]];
    } else {
      assert nodes[1..] == [] + [nodes[1]] && nodes[..1][1..] == [];
    }
    JoinSnoc(nodes[1..n], nodes[n]);
    assert nodes[1..] == nodes[1..n] + [nodes[n]] && nodes[1..n] == nodes[..n][1..];
  }

  lemma {:induction false} JoinSnoc(names: seq<Text>, name: Text)
    ensures Join(names + [name]) == Join(names) + [SLASH] + name
    decreases |names|
  {
    if |names| == 0 {
      assert ([name])[1..] == [] && [] + [name] == [name];
    } else {
      JoinSnoc(names[1..], name);
      assert (names + [name])[1..] == names[1..] + [name];
    }
  }

  function Ascii(s: string): Text {
    seq(|s|, i requires 0 <= i < |s| => s[i] as int % 0x80)
  }

  /** The names the tool looks for and writes. */
  lemma NamesAre(node: Text)
    ensures DATA == Ascii("data") && DATA_POSITION == Ascii("data-position") && DATA_SIZE == Ascii("data-size")
    ensures NEW_STRINGS == Ascii("data-position\0data-size\0")
    ensures ImagePath(node) == Ascii("/images/") + node
  {
  }

  // ---------------------------------------------------------------- one token

  lemma WordHere(s: seq<Byte>, off: nat, n: nat, rest: seq<Byte>)
    requires n < U32 && off + 4 + |rest| <= |s| && s[off..off + 4 + |rest|] == Pack32(n) + rest
    ensures Be32(s, off) == n && s[off + 4..off + 4 + |rest|] == rest
  {
    assert s[off..off + 4] == s[off..off + 4 + |rest|][..4];
    assert s[off + 4..off + 4 + |rest|] == s[off..off + 4 + |rest|][4..];
    PackedWordReads(n, s, off);
  }

  lemma NameHere(s: seq<Byte>, i: nat, name: Text)
    requires i + |name| < |s| && s[i..i + |name| + 1] == name + [0] && 0 !in name && Utf8(name)
    ensures NameAt(s, i) == Ok(name)
  {
    hide Utf8;
    var t := s[i..i + |name| + 1];
    forall k | i <= k < i + |name|
      ensures s[k] == name[k - i]
    {
      assert t[k - i] == s[k];
    }
    assert t[|name|] == s[i + |name|] == 0;
    assert NextNul(s, i) == Some(i + |name|);
    assert s[i..i + |name|] == name;
  }

  /** A token where it stands, and what one turn of the walk makes of it. */
  ghost predicate Stands(f: Blob, off: nat, t: Token)
    requires Encodable(t)
  {
    off + |Encode(t)| <= |f.bytes| && f.bytes[off..off + |Encode(t)|] == Encode(t)
  }

  lemma BeginSteps(f: Blob, off: nat, t: Token, nodes: seq<Text>)
    requires t.Begin? && Encodable(t) && Stands(f, off, t)
    ensures StepAt(f, off, nodes) == Go(off + |Encode(t)|, nodes + [t.name], None)
  {
    hide Utf8, Be32, NameAt, StepAt, Pack32;
    var p := Padded(t.name + [0]);
    assert Pad4(|t.name| + 1) == |p|;
    assert Encode(t) == Pack32(1) + p;
    hide Encode, Padded, Pad4;
    WordHere(f.bytes, off, 1, p);
    Prefix(f.bytes, off + 4, p, |t.name| + 1);
    NameHere(f.bytes, off + 4, t.name);
    BeginTurn(f, off, nodes, t.name);
  }

  lemma Prefix(s: seq<Byte>, i: nat, p: seq<Byte>, n: nat)
    requires i + |p| <= |s| && s[i..i + |p|] == p && n <= |p|
    ensures s[i..i + n] == p[..n]
  {
  }

  lemma BeginTurn(f: Blob, off: nat, nodes: seq<Text>, name: Text)
    requires off + 4 <= |f.bytes| && Be32(f.bytes, off) == 1 && NameAt(f.bytes, off + 4) == Ok(name)
    ensures StepAt(f, off, nodes) == Go(off + 4 + Pad4(|name| + 1), nodes + [name], None)
  {
    hide Be32, NameAt, Pad4;
  }

  lemma PropertyReads(f: Blob, off: nat, t: Token)
    requires t.Property? && Encodable(t) && Stands(f, off, t)
    ensures |Encode(t)| == 12 + Pad4(|t.value|) && off + 12 + |t.value| <= |f.bytes|
    ensures Be32(f.bytes, off) == 3 && Be32(f.bytes, off + 4) == |t.value| && Be32(f.bytes, off + 8) == t.nameoff
    ensures f.bytes[off + 12..off + 12 + |t.value|] == t.value
  {
    hide Be32, Pack32;
    var p := Padded(t.value);
    var w2 := Pack32(t.nameoff) + p;
    var w1 := Pack32(|t.value|) + w2;
    assert Encode(t) == Pack32(3) + w1;
    assert Pad4(|t.value|) == |p|;
    hide Encode, Pad4, Padded;
    WordHere(f.bytes, off, 3, w1);
    WordHere(f.bytes, off + 4, |t.value|, w2);
    WordHere(f.bytes, off + 8, t.nameoff, p);
    assert f.bytes[off + 12..off + 12 + |t.value|] == f.bytes[off + 12..off + 12 + |p|][..|t.value|];
  }

  lemma PropertyTurn(f: Blob, off: nat, nodes: seq<Text>, len: nat, nameoff: nat, name: Text)
    requires off + 12 <= |f.bytes| && Be32(f.bytes, off) == 3 && Be32(f.bytes, off + 4) == len
    requires Be32(f.bytes, off + 8) == nameoff && NameAt(f.bytes, f.offStrings + nameoff) == Ok(name)
    ensures StepAt(f, off, nodes)
            == Go(off + 12 + Pad4(len), nodes, Some(Prop(PathText(nodes), name, off, off + 12, len)))
  {
    hide Be32, NameAt, PathText, Pad4;
  }

  lemma PropertySteps(f: Blob, off: nat, t: Token, nodes: seq<Text>, name: Text)
    requires t.Property? && Encodable(t) && Stands(f, off, t) && NameAt(f.bytes, f.offStrings + t.nameoff) == Ok(name)
    ensures var s := StepAt(f, off, nodes);
            && s.Go? && s.off == off + |Encode(t)| && s.path == nodes && s.yielded.Some?
            && EntryOf(f, s.yielded.value) == Entry(if |nodes| <= 1 then [47] else PathFrom(nodes), name, t.value)
  {
    hide *;
    PropertyReads(f, off, t);
    if |nodes| > 1 { PathIsJoined(nodes); }
    RootPath(nodes);
    PropertyTurn(f, off, nodes, |t.value|, t.nameoff, name);
    PropertyEntry(f, Prop(PathText(nodes), name, off, off + 12, |t.value|), t.value);
  }

  lemma PropertyEntry(f: Blob, p: Prop, value: seq<Byte>)
    requires p.valOff + p.valLen <= |f.bytes| && f.bytes[p.valOff..p.valOff + p.valLen] == value
    ensures EntryOf(f, p) == Entry(p.path, p.name, value)
  {
    SliceInside(f.bytes, p.valOff, p.valOff + p.valLen);
    hide Slice;
  }

  lemma RootPath(nodes: seq<Text>)
    ensures |nodes| <= 1 ==> PathText(nodes) == [47]
  {
  }

  lemma PlainSteps(f: Blob, off: nat, t: Token, nodes: seq<Text>)
    requires (t.End? || t.Nop?) && Stands(f, off, t) && (t.End? ==> |nodes| > 0)
    ensures StepAt(f, off, nodes) == Go(off + |Encode(t)|, if t.End? then nodes[..|nodes| - 1] else nodes, None)
  {
    PackedWordReads(if t.End? then 2 else 4, f.bytes, off);
    hide Be32;
  }

  // ---------------------------------------------------------------- the whole block

  ghost predicate Reads(f: Blob, off: nat, ts: seq<Token>, nodes: seq<Text>) {
    var w, said := WalkFrom(f, off, nodes), Says(f, ts, nodes);
    w.failure.None? && said.Some? && Entries(f, w.props) == said.value
  }

  lemma ReadsPlain(f: Blob, off: nat, ts: seq<Token>, nodes: seq<Text>, next: nat, nodes': seq<Text>)
    requires off < f.StructEnd() && StepAt(f, off, nodes) == Go(next, nodes', None)
    requires |ts| > 0 && Says(f, ts, nodes) == Says(f, ts[1..], nodes') && Reads(f, next, ts[1..], nodes')
    ensures Reads(f, off, ts, nodes)
  {
    OneTurn(f, off, nodes);
    hide StepAt, WalkFrom, Says, Entries;
  }

  lemma ReadsProperty(f: Blob, off: nat, ts: seq<Token>, nodes: seq<Text>)
    requires off < f.StructEnd() && StepAt(f, off, nodes).Go? && StepAt(f, off, nodes).yielded.Some?
    requires StepAt(f, off, nodes).path == nodes && |ts| > 0 && ts[0].Property? && Says(f, ts, nodes).Some?
    requires NameAt(f.bytes, f.offStrings + ts[0].nameoff).Ok?
    requires EntryOf(f, StepAt(f, off, nodes).yielded.value)
             == Entry(if |nodes| <= 1 then [47] else PathFrom(nodes), NameAt(f.bytes, f.offStrings + ts[0].nameoff).value, ts[0].value)
    requires Reads(f, StepAt(f, off, nodes).off, ts[1..], nodes)
    ensures Reads(f, off, ts, nodes)
  {
    OneTurn(f, off, nodes);
    hide StepAt, WalkFrom, Entries, EntryOf, PathFrom, NameAt;
  }

  /** Walking a tree's tokens gives what the tree says, whatever the block is in. */
  lemma WalkReadsTree(f: Blob, off: nat, ts: seq<Token>, nodes: seq<Text>)
    requires AllEncodable(ts) && Says(f, ts, nodes).Some?
    requires var n := |EncodeAll(ts)|;
             off + n <= f.StructEnd() && off + n <= |f.bytes| && f.bytes[off..off + n] == EncodeAll(ts)
    ensures var w := WalkFrom(f, off, nodes);
            w.failure.None? && Entries(f, w.props) == Says(f, ts, nodes).value
  {
    TreeReads(f, off, ts, nodes);
    hide WalkFrom, Says, Entries;
  }

  lemma {:induction false} TreeReads(f: Blob, off: nat, ts: seq<Token>, nodes: seq<Text>)
    requires AllEncodable(ts) && Says(f, ts, nodes).Some?
    requires var n := |EncodeAll(ts)|;
             off + n <= f.StructEnd() && off + n <= |f.bytes| && f.bytes[off..off + n] == EncodeAll(ts)
    ensures Reads(f, off, ts, nodes)
    decreases |ts|
  {
    hide *;
    TokenStands(f, off, ts);
    if |ts| == 0 {
      NothingReads(f, off, ts, nodes);
    } else {
      var t := ts[0];
      SaysFirst(f, ts, nodes);
      var next := off + |Encode(t)|;
      match t {
        case Begin(name) =>
          BeginSteps(f, off, t, nodes);
          TreeReads(f, next, ts[1..], nodes + [name]);
          ReadsPlain(f, off, ts, nodes, next, nodes + [name]);
        case End =>
          PlainSteps(f, off, t, nodes);
          TreeReads(f, next, ts[1..], nodes[..|nodes| - 1]);
          ReadsPlain(f, off, ts, nodes, next, nodes[..|nodes| - 1]);
        case Nop =>
          PlainSteps(f, off, t, nodes);
          TreeReads(f, next, ts[1..], nodes);
          ReadsPlain(f, off, ts, nodes, next, nodes);
        case Property(nameoff, value) =>
          PropertySteps(f, off, t, nodes, NameAt(f.bytes, f.offStrings + nameoff).value);
          TreeReads(f, next, ts[1..], nodes);
          ReadsProperty(f, off, ts, nodes);
      }
    }
  }

  lemma NothingReads(f: Blob, off: nat, ts: seq<Token>, nodes: seq<Text>)
    requires ts == [] && off + 4 <= f.StructEnd() && off + 4 <= |f.bytes| && f.bytes[off..off + 4] == EncodeAll(ts)
    ensures Reads(f, off, ts, nodes)
  {
    PackedWordReads(9, f.bytes, off);
    hide Be32;
  }

  lemma TokenStands(f: Blob, off: nat, ts: seq<Token>)
    requires AllEncodable(ts)
    requires var n := |EncodeAll(ts)|; off + n <= |f.bytes| && f.bytes[off..off + n] == EncodeAll(ts)
    ensures |ts| == 0 ==> |EncodeAll(ts)| == 4
    ensures |ts| > 0 ==>
              && Encodable(ts[0]) && AllEncodable(ts[1..]) && Stands(f, off, ts[0])
              && var next, rest := off + |Encode(ts[0])|, EncodeAll(ts[1..]);
                 && |EncodeAll(ts)| == |Encode(ts[0])| + |rest| && |Encode(ts[0])| >= 4
                 && f.bytes[next..next + |rest|] == rest
  {
    hide Encode, Stands;
    if |ts| > 0 {
      var head, rest := Encode(ts[0]), EncodeAll(ts[1..]);
      assert EncodeAll(ts) == head + rest;
      hide *;
      Cut(f.bytes, off, head, rest);
      StandsMeans(f, off, ts[0]);
    }
  }

  lemma Cut(s: seq<Byte>, off: nat, head: seq<Byte>, rest: seq<Byte>)
    requires off + |head + rest| <= |s| && s[off..off + |head + rest|] == head + rest
    ensures s[off..off + |head|] == head && s[off + |head|..off + |head| + |rest|] == rest
  {
    var all := s[off..off + |head + rest|];
    assert s[off..off + |head|] == all[..|head|] && s[off + |head|..off + |head| + |rest|] == all[|head|..];
  }

  lemma StandsMeans(f: Blob, off: nat, t: Token)
    requires Encodable(t)
    ensures Stands(f, off, t) <==> off + |Encode(t)| <= |f.bytes| && f.bytes[off..off + |Encode(t)|] == Encode(t)
  {
  }

  lemma SaysFirst(f: Blob, ts: seq<Token>, nodes: seq<Text>)
    requires |ts| > 0 && Says(f, ts, nodes).Some?
    ensures ts[0].Begin? ==> Says(f, ts, nodes) == Says(f, ts[1..], nodes + [ts[0].name])
    ensures ts[0].End? ==> |nodes| > 0 && Says(f, ts, nodes) == Says(f, ts[1..], nodes[..|nodes| - 1])
    ensures ts[0].Nop? ==> Says(f, ts, nodes) == Says(f, ts[1..], nodes)
    ensures ts[0].Property? ==>
              NameAt(f.bytes, f.offStrings + ts[0].nameoff).Ok? && Says(f, ts[1..], nodes).Some?
  {
    hide NameAt, PathFrom;
  }

  lemma OneTurn(f: Blob, off: nat, nodes: seq<Text>)
    requires off < f.StructEnd() && StepAt(f, off, nodes).Go?
    ensures var s := StepAt(f, off, nodes);
            var w, rest := WalkFrom(f, off, nodes), WalkFrom(f, s.off, s.path);
            && w.failure == rest.failure
            && Entries(f, w.props)
               == if s.yielded.Some? then [EntryOf(f, s.yielded.value)] + Entries(f, rest.props) else Entries(f, rest.props)
  {
    hide StepAt;
  }

  /** Where a walk stops, and how: it ends well at the end token only. */
  lemma WalkStops(f: Blob, off: nat, nodes: seq<Text>)
    ensures var w, n := WalkFrom(f, off, nodes), |f.bytes|;
            && (off >= f.offStruct + f.sizeStruct ==> w == Walk([], Some(EndMissing)))
            && (off < f.offStruct + f.sizeStruct && off + 4 > n ==> w == Walk([], Some(StructError)))
            && (off < f.offStruct + f.sizeStruct && off + 4 <= n ==>
                  var token := Be32(f.bytes, off);
                  && (token == 9 ==> w == Walk([], None))
                  && (token != 1 && token != 2 && token != 3 && token != 4 && token != 9 ==> w == Walk([], Some(BadToken)))
                  && (token == 2 && nodes == [] ==> w == Walk([], Some(PopFromEmpty)))
                  && (token == 3 && off + 12 > n ==> w == Walk([], Some(StructError)))
                  && (token == 1 && NextNul(f.bytes, off + 4).None? ==> w == Walk([], Some(NulMissing)))
                  && (token == 3 && off + 12 <= n && NextNul(f.bytes, f.offStrings + Be32(f.bytes, off + 8)).None? ==>
                        w == Walk([], Some(NulMissing))))
  {
    hide Be32, Utf8;
  }
}
