/** What bytes.decode accepts are exactly the encodings of Unicode text (RFC 3629, section 3). */
module FdtText {
  import opened Fdt

  /** A Unicode scalar value: any code point but the surrogates. */
  type Scalar = c: int | 0 <= c < 0xD800 || 0xE000 <= c < 0x11_0000

  function EncodePoint(c: Scalar): seq<Byte> {
    if c < 0x80 then [c]
    else if c < 0x800 then [0xC0 + c / 0x40, 0x80 + c % 0x40]
    else if c < 0x1_0000 then [0xE0 + c / 0x1000, 0x80 + c / 0x40 % 0x40, 0x80 + c % 0x40]
    else [0xF0 + c / 0x4_0000, 0x80 + c / 0x1000 % 0x40, 0x80 + c / 0x40 % 0x40, 0x80 + c % 0x40]
  }

  function EncodeText(cs: seq<Scalar>): Text {
    if |cs| == 0 then [] else EncodePoint(cs[0]) + EncodeText(cs[1..])
  }

  lemma PointIsAccepted(c: Scalar, rest: Text)
    ensures Utf8(EncodePoint(c) + rest) == Utf8(rest)
  {
    var s, n := EncodePoint(c) + rest, |EncodePoint(c)|;
    assert s[n..] == rest;
  }

  lemma Sextets(x: nat, y: nat, z: nat, w: nat)
    requires y < 0x40 && z < 0x40 && w < 0x40
    ensures var c := ((x * 0x40 + y) * 0x40 + z) * 0x40 + w;
            c / 0x4_0000 == x && c / 0x1000 % 0x40 == y && c / 0x40 % 0x40 == z && c % 0x40 == w
  {
    var c := ((x * 0x40 + y) * 0x40 + z) * 0x40 + w;
    assert c / 0x40 == (x * 0x40 + y) * 0x40 + z && c / 0x1000 == x * 0x40 + y;
  }

  lemma FourBytes(s: Text) returns (c: Scalar)
    requires Utf8(s) && |s| > 0 && s[0] >= 0xF0
    ensures |s| >= 4 && Utf8(s[4..]) && s == EncodePoint(c) + s[4..]
  {
    var x, y, z, w := s[0] as int - 0xF0, s[1] as int - 0x80, s[2] as int - 0x80, s[3] as int - 0x80;
    assert Utf8(s[4..]);
    hide Utf8;
    Sextets(x, y, z, w);
    c := ((x * 0x40 + y) * 0x40 + z) * 0x40 + w;
    assert s == [s[0], s[1], s[2], s[3]] + s[4..];
  }

  /** The first scalar value of an accepted string, and what is left. */
  lemma FirstPoint(s: Text) returns (c: Scalar, rest: Text)
    requires Utf8(s) && |s| > 0
    ensures s == EncodePoint(c) + rest && Utf8(rest) && |rest| < |s|
  {
    var a := s[0] as int;
    if a < 0x80 {
      c, rest := a, s[1..];
    } else if a < 0xE0 {
      c, rest := (a - 0xC0) * 0x40 + (s[1] - 0x80), s[2..];
    } else if a < 0xF0 {
      c, rest := ((a - 0xE0) * 0x40 + (s[1] - 0x80)) * 0x40 + (s[2] - 0x80), s[3..];
    } else {
      c := FourBytes(s);
      rest := s[4..];
    }
  }

  lemma {:induction false} Decodes(s: Text) returns (cs: seq<Scalar>)
    requires Utf8(s)
    ensures EncodeText(cs) == s
    decreases |s|
  {
    if |s| == 0 {
      cs := [];
    } else {
      var c, rest := FirstPoint(s);
      var tail := Decodes(rest);
      cs := [c] + tail;
      assert cs[1..] == tail;
    }
  }

  lemma {:induction false} EncodedIsAccepted(cs: seq<Scalar>)
    ensures Utf8(EncodeText(cs))
    decreases |cs|
  {
    if |cs| > 0 {
      EncodedIsAccepted(cs[1..]);
      PointIsAccepted(cs[0], EncodeText(cs[1..]));
    }
  }

  lemma Utf8IsEncodedText(s: Text)
    ensures Utf8(s) <==> exists cs: seq<Scalar> :: EncodeText(cs) == s
  {
    if Utf8(s) {
      var cs := Decodes(s);
    }
    if cs: seq<Scalar> :| EncodeText(cs) == s { EncodedIsAccepted(cs); }
  }
}
