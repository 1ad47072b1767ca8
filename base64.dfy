/** `base64.b64encode`: the base 64 encoding of section 4 of RFC 4648,
    with its canonical decoder as the partner that proves it loses
    nothing. Bytes are first cut into six-bit values, and the values are
    then written with the alphabet of Table 1. */
module Base64 {
  import opened Wrappers
  import opened Bytes

  /** Six bits: the value of one encoded character. */
  type Sextet = v: int | 0 <= v < 64

  // ---------------------------------------------------------------------
  // The alphabet
  // ---------------------------------------------------------------------

  /** The character of Table 1 of RFC 4648 for value `v`. */
  function CharOf(v: Sextet): char {
    if v < 26 then (65 + v) as char
    else if v < 52 then (97 + v - 26) as char
    else if v < 62 then (48 + v - 52) as char
    else if v == 62 then '+'
    else '/'
  }

  predicate IsAlphabet(c: char) {
    'A' <= c <= 'Z' || 'a' <= c <= 'z' || '0' <= c <= '9' || c == '+' || c == '/'
  }

  /** The pad character. */
  const Pad := '='

  /** The value of an alphabet character, or `None`. */
  function ValueOf(c: char): (v: Option<Sextet>)
    ensures v.Some? <==> IsAlphabet(c)
    ensures v.Some? ==> CharOf(v.value) == c
  {
    if 'A' <= c <= 'Z' then Some(c as int - 65)
    else if 'a' <= c <= 'z' then Some(c as int - 97 + 26)
    else if '0' <= c <= '9' then Some(c as int - 48 + 52)
    else if c == '+' then Some(62)
    else if c == '/' then Some(63)
    else None
  }

  /** Every value has one character, not the pad, and the character gives
      the value back. */
  lemma ValueOfCharOf(v: Sextet)
    ensures IsAlphabet(CharOf(v)) && CharOf(v) != Pad
    ensures ValueOf(CharOf(v)) == Some(v)
  {
  }

  /** The characters of a sequence of values. */
  function Chars(vs: seq<Sextet>): (s: string)
    ensures |s| == |vs|
    ensures forall i :: 0 <= i < |vs| ==> s[i] == CharOf(vs[i])
  {
    if vs == [] then [] else [CharOf(vs[0])] + Chars(vs[1..])
  }

  /** The values of a text of alphabet characters, or `None`. */
  function Values(s: string): (vs: Option<seq<Sextet>>)
    ensures vs.Some? ==> |vs.value| == |s|
  {
    if s == [] then Some([])
    else
      match (ValueOf(s[0]), Values(s[1..]))
      case (Some(v), Some(rest)) => Some([v] + rest)
      case _ => None
  }

  /** Reading the characters of some values gives them back. */
  lemma {:induction false} ValuesOfChars(vs: seq<Sextet>)
    ensures Values(Chars(vs)) == Some(vs)
  {
    if vs != [] {
      ValueOfCharOf(vs[0]);
      assert Chars(vs)[1..] == Chars(vs[1..]);
      ValuesOfChars(vs[1..]);
      assert [vs[0]] + vs[1..] == vs;
    }
  }

  /** Writing the values of a text gives it back. */
  lemma {:induction false} CharsOfValues(s: string)
    requires Values(s).Some?
    ensures Chars(Values(s).value) == s
  {
    if s != [] {
      CharsOfValues(s[1..]);
    }
  }

  // ---------------------------------------------------------------------
  // Bytes and six-bit values
  // ---------------------------------------------------------------------

  /** A 24-bit group of three bytes as four values, most significant bits
      first. */
  function GroupValues(b0: Byte, b1: Byte, b2: Byte): seq<Sextet> {
    [b0 / 4, b0 % 4 * 16 + b1 / 16, b1 % 16 * 4 + b2 / 64, b2 % 64]
  }

  /** One byte left over: its eight bits and four zero bits as two values. */
  function OneValues(b0: Byte): seq<Sextet> {
    [b0 / 4, b0 % 4 * 16]
  }

  /** Two bytes left over: their sixteen bits and two zero bits as three
      values. */
  function TwoValues(b0: Byte, b1: Byte): seq<Sextet> {
    [b0 / 4, b0 % 4 * 16 + b1 / 16, b1 % 16 * 4]
  }

  /** The three bytes of four values. */
  function GroupBytes(v0: Sextet, v1: Sextet, v2: Sextet, v3: Sextet): seq<Byte> {
    [v0 as int * 4 + v1 / 16, v1 % 16 * 16 + v2 / 4, v2 % 4 * 64 + v3]
  }

  lemma GroupBytesOfValues(b0: Byte, b1: Byte, b2: Byte)
    ensures var vs := GroupValues(b0, b1, b2);
            GroupBytes(vs[0], vs[1], vs[2], vs[3]) == [b0, b1, b2]
  {
  }

  lemma GroupValuesOfBytes(v0: Sextet, v1: Sextet, v2: Sextet, v3: Sextet)
    ensures var bs := GroupBytes(v0, v1, v2, v3);
            GroupValues(bs[0], bs[1], bs[2]) == [v0, v1, v2, v3]
  {
    var bs := GroupBytes(v0, v1, v2, v3);
    assert bs[0] as int / 4 == v0 && bs[0] as int % 4 == v1 as int / 16;
    assert bs[1] as int / 16 == v1 as int % 16 && bs[1] as int % 16 == v2 as int / 4;
    assert bs[2] as int / 64 == v2 as int % 4 && bs[2] as int % 64 == v3;
  }

  /** The values of all of `data`: four per whole group, then two for one
      byte left over or three for two. */
  function EncodeValues(data: seq<Byte>): (vs: seq<Sextet>)
    ensures |vs| == (4 * |data| + 2) / 3
  {
    if |data| == 0 then []
    else if |data| == 1 then OneValues(data[0])
    else if |data| == 2 then TwoValues(data[0], data[1])
    else GroupValues(data[0], data[1], data[2]) + EncodeValues(data[3..])
  }

  /** The bytes of a sequence of values, or `None` when no byte sequence
      gives them: one value left over, or bits after the last byte that
      are not zero. */
  function DecodeValues(vs: seq<Sextet>): (d: Option<seq<Byte>>)
  {
    if |vs| == 0 then Some([])
    else if |vs| == 1 then None
    else if |vs| == 2 then
      if vs[1] % 16 == 0 then Some(GroupBytes(vs[0], vs[1], 0, 0)[..1]) else None
    else if |vs| == 3 then
      if vs[2] % 4 == 0 then Some(GroupBytes(vs[0], vs[1], vs[2], 0)[..2]) else None
    else
      match DecodeValues(vs[4..])
      case None => None
      case Some(rest) => Some(GroupBytes(vs[0], vs[1], vs[2], vs[3]) + rest)
  }

  lemma OneByteOfValues(b0: Byte)
    ensures var vs := OneValues(b0);
            vs[1] % 16 == 0 && GroupBytes(vs[0], vs[1], 0, 0)[..1] == [b0]
  {
    var vs := OneValues(b0);
    assert vs[0] as int * 4 + vs[1] as int / 16 == b0;
  }

  lemma TwoBytesOfValues(b0: Byte, b1: Byte)
    ensures var vs := TwoValues(b0, b1);
            vs[2] % 4 == 0 && GroupBytes(vs[0], vs[1], vs[2], 0)[..2] == [b0, b1]
  {
    var vs := TwoValues(b0, b1);
    assert vs[0] as int * 4 + vs[1] as int / 16 == b0;
    assert vs[1] as int % 16 * 16 + vs[2] as int / 4 == b1;
  }

  lemma {:induction false} DecodeEncodeValues(data: seq<Byte>)
    ensures DecodeValues(EncodeValues(data)) == Some(data)
  {
    if |data| == 1 {
      OneByteOfValues(data[0]);
      assert [data[0]] == data;
    } else if |data| == 2 {
      TwoBytesOfValues(data[0], data[1]);
      assert [data[0], data[1]] == data;
    } else if |data| >= 3 {
      var g := GroupValues(data[0], data[1], data[2]);
      var vs := g + EncodeValues(data[3..]);
      assert vs[..4] == g && vs[4..] == EncodeValues(data[3..]);
      GroupBytesOfValues(data[0], data[1], data[2]);
      DecodeEncodeValues(data[3..]);
      assert [data[0], data[1], data[2]] + data[3..] == data;
    }
  }

  lemma {:induction false} EncodeDecodeValues(vs: seq<Sextet>)
    requires DecodeValues(vs).Some?
    ensures EncodeValues(DecodeValues(vs).value) == vs
  {
    if |vs| == 2 {
      assert vs == [vs[0], vs[1]];
    } else if |vs| == 3 {
      assert vs == [vs[0], vs[1], vs[2]];
    } else if |vs| >= 4 {
      var g := GroupBytes(vs[0], vs[1], vs[2], vs[3]);
      var rest := DecodeValues(vs[4..]).value;
      EncodeDecodeValues(vs[4..]);
      GroupValuesOfBytes(vs[0], vs[1], vs[2], vs[3]);
      var d := g + rest;
      assert d[..3] == g && d[3..] == rest;
      assert vs == vs[..4] + vs[4..];
      assert vs[..4] == [vs[0], vs[1], vs[2], vs[3]];
    }
  }

  /** The number of bytes `DecodeValues` gives for `n` values. */
  lemma DecodeValuesLength(vs: seq<Sextet>)
    requires DecodeValues(vs).Some?
    ensures |vs| % 4 != 1
    ensures |DecodeValues(vs).value| == 3 * |vs| / 4
  {
    EncodeDecodeValues(vs);
    var n := |DecodeValues(vs).value|;
    var q, r := n / 3, n % 3;
    assert n == 3 * q + r;
    assert |vs| == (4 * n + 2) / 3;
    if r == 0 {
      assert |vs| == 4 * q;
    } else if r == 1 {
      assert |vs| == 4 * q + 2;
    } else {
      assert |vs| == 4 * q + 3;
    }
  }

  // ---------------------------------------------------------------------
  // Encoding and decoding text
  // ---------------------------------------------------------------------

  /** The number of pad characters after `n` bytes: none after whole
      24-bit groups, two after one byte left over, one after two. */
  function Padding(n: nat): (p: nat)
    ensures p <= 2
  {
    (3 - n % 3) % 3
  }

  /** `p` pad characters. */
  function Pads(p: nat): (s: string)
    ensures |s| == p && forall i :: 0 <= i < p ==> s[i] == Pad
  {
    seq(p, _ => Pad)
  }

  /** `base64.b64encode(data)`: the characters of the values of `data`,
      then the pads that fill the last quantum. */
  function Encode(data: seq<Byte>): (s: string)
    ensures |s| == 4 * ((|data| + 2) / 3)
  {
    Chars(EncodeValues(data)) + Pads(Padding(|data|))
  }

  /** Every character of an encoding is from the alphabet except the pads,
      and the pads, at most two, come last. */
  lemma EncodeAlphabet(data: seq<Byte>)
    ensures var s := Encode(data);
            forall i :: 0 <= i < |s| ==> (IsAlphabet(s[i]) <==> i < |s| - Padding(|data|))
    ensures var s := Encode(data);
            forall i :: 0 <= i < |s| ==> (s[i] == Pad <==> i >= |s| - Padding(|data|))
  {
    var vs := EncodeValues(data);
    var s := Encode(data);
    forall i | 0 <= i < |vs|
      ensures IsAlphabet(s[i]) && s[i] != Pad
    {
      ValueOfCharOf(vs[i]);
    }
  }

  /** How many pads `s` ends with, up to two. */
  function TrailingPads(s: string): (p: nat)
    ensures p <= 2 && p <= |s|
  {
    if |s| >= 1 && s[|s| - 1] == Pad then
      if |s| >= 2 && s[|s| - 2] == Pad then 2 else 1
    else 0
  }

  /** The bytes of a canonical encoding, or `None`: the text is whole
      quanta, at most two pads end it, the rest is alphabet characters, and
      the bits after the last byte are zero. */
  function Decode(s: string): Option<seq<Byte>> {
    if |s| % 4 != 0 then None
    else
      match Values(s[..|s| - TrailingPads(s)])
      case None => None
      case Some(vs) => DecodeValues(vs)
  }

  /** The characters of values are never pads. */
  lemma CharsHaveNoPad(vs: seq<Sextet>)
    ensures forall i :: 0 <= i < |vs| ==> Chars(vs)[i] != Pad
  {
    forall i | 0 <= i < |vs|
      ensures Chars(vs)[i] != Pad
    {
      ValueOfCharOf(vs[i]);
    }
  }

  /** Pads written after text without pads are counted back exactly. */
  lemma TrailingPadsOf(t: string, p: nat)
    requires p <= 2 && forall i :: 0 <= i < |t| ==> t[i] != Pad
    ensures TrailingPads(t + Pads(p)) == p
    ensures (t + Pads(p))[..|t|] == t
  {
  }

  /** A text is what comes before its trailing pads, then those pads. */
  lemma SplitTrailingPads(s: string)
    ensures s == s[..|s| - TrailingPads(s)] + Pads(TrailingPads(s))
  {
    var p := TrailingPads(s);
    assert s[|s| - p..] == Pads(p);
  }

  /** Whole quanta less `p` pads leave values for `3 * (n - p) / 4` bytes,
      and those bytes call for `p` pads again. */
  lemma PaddingOfDecoded(n: nat, p: nat)
    requires n % 4 == 0 && p <= 2 && p <= n
    ensures Padding(3 * (n - p) / 4) == p
  {
    var m := n / 4;
    assert n == 4 * m;
    if p == 1 {
      assert 3 * (n - p) / 4 == 3 * m - 1;
    } else if p == 2 {
      assert 3 * (n - p) / 4 == 3 * m - 2;
    } else {
      assert 3 * (n - p) / 4 == 3 * m;
    }
  }

  /** Decoding undoes encoding. */
  lemma DecodeEncode(data: seq<Byte>)
    ensures Decode(Encode(data)) == Some(data)
  {
    var vs := EncodeValues(data);
    var t := Chars(vs);
    var p := Padding(|data|);
    var s := Encode(data);
    assert s == t + Pads(p);
    CharsHaveNoPad(vs);
    TrailingPadsOf(t, p);
    assert s[..|s| - TrailingPads(s)] == t;
    var k := (|data| + 2) / 3;
    assert |s| == 4 * k;
    assert |s| % 4 == 0;
    ValuesOfChars(vs);
    assert Decode(s) == DecodeValues(vs);
    DecodeEncodeValues(data);
  }

  /** Encoding undoes decoding: the decoder accepts only what the encoder
      writes. */
  lemma EncodeDecode(s: string)
    requires Decode(s).Some?
    ensures Encode(Decode(s).value) == s
  {
    var p := TrailingPads(s);
    var t := s[..|s| - p];
    var vs := Values(t).value;
    var d := Decode(s).value;
    assert DecodeValues(vs) == Some(d);
    CharsOfValues(t);
    EncodeDecodeValues(vs);
    assert Chars(EncodeValues(d)) == t;
    DecodeValuesLength(vs);
    assert |d| == 3 * (|s| - p) / 4;
    PaddingOfDecoded(|s|, p);
    assert Encode(d) == t + Pads(p);
    SplitTrailingPads(s);
  }
}
