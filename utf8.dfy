/** `str.encode('utf-8')`: the UTF-8 encoding of a string of Unicode
    scalar values (Dafny's `char`), with a decoder as its partner. */
module Utf8 {
  import opened Wrappers
  import opened Bytes

  /** A continuation byte `10xxxxxx` carrying the six bits `v`. */
  function Cont(v: int): Byte
    requires 0 <= v < 64
  {
    0x80 + v
  }

  /** The one to four bytes of a scalar value: seven bits in one byte,
      eleven in two, sixteen in three, twenty-one in four. */
  function EncodeChar(c: char): (bs: seq<Byte>)
    ensures 1 <= |bs| <= 4
    ensures |bs| == 1 <==> c as int < 0x80
    ensures |bs| == 1 ==> bs[0] == c as int
    ensures forall i :: 1 <= i < |bs| ==> 0x80 <= bs[i] < 0xC0
  {
    var n := c as int;
    if n < 0x80 then [n]
    else if n < 0x800 then [0xC0 + n / 64, Cont(n % 64)]
    else if n < 0x10000 then [0xE0 + n / 4096, Cont(n / 64 % 64), Cont(n % 64)]
    else [0xF0 + n / 262144, Cont(n / 4096 % 64), Cont(n / 64 % 64), Cont(n % 64)]
  }

  /** The bytes of `s`, character after character. */
  function Encode(s: string): (bs: seq<Byte>)
    ensures |s| <= |bs| <= 4 * |s|
  {
    if s == [] then [] else EncodeChar(s[0]) + Encode(s[1..])
  }

  /** The encoding of a concatenation is the concatenation of the
      encodings. */
  lemma {:induction false} EncodeAppend(a: string, b: string)
    ensures Encode(a + b) == Encode(a) + Encode(b)
  {
    if a == [] {
      assert a + b == b;
    } else {
      assert (a + b)[1..] == a[1..] + b;
      EncodeAppend(a[1..], b);
    }
  }

  /** A code point that is a Unicode scalar value, as a `char`. */
  function ToChar(n: int): Option<char> {
    if 0 <= n < 0xD800 || 0xE000 <= n < 0x11_0000 then Some(n as char) else None
  }

  /** A code point read from a form of several bytes: a scalar value at
      least `least`, the smallest value that needs that many bytes. A
      smaller one is an overlong form and is refused. */
  function Scalar(n: int, least: int): (c: Option<char>)
    ensures c.Some? ==> c.value as int == n && n >= least
  {
    if n < least then None else ToChar(n)
  }

  /** The value of a continuation byte, or `None`. */
  function ContValue(b: Byte): Option<int> {
    if 0x80 <= b < 0xC0 then Some(b - 0x80) else None
  }

  /** The first character of `bs` and the number of bytes it takes. */
  function DecodeChar(bs: seq<Byte>): Option<(char, nat)>
    requires |bs| > 0
  {
    var b0 := bs[0];
    if b0 < 0x80 then Some((b0 as char, 1))
    else if 0xC0 <= b0 < 0xE0 && |bs| >= 2 then
      match ContValue(bs[1])
      case None => None
      case Some(v1) =>
        match Scalar((b0 - 0xC0) * 64 + v1, 0x80)
        case None => None
        case Some(c) => Some((c, 2))
    else if 0xE0 <= b0 < 0xF0 && |bs| >= 3 then
      match (ContValue(bs[1]), ContValue(bs[2]))
      case (Some(v1), Some(v2)) =>
        (match Scalar((b0 - 0xE0) * 4096 + v1 * 64 + v2, 0x800)
         case None => None
         case Some(c) => Some((c, 3)))
      case _ => None
    else if 0xF0 <= b0 < 0xF8 && |bs| >= 4 then
      match (ContValue(bs[1]), ContValue(bs[2]), ContValue(bs[3]))
      case (Some(v1), Some(v2), Some(v3)) =>
        (match Scalar((b0 - 0xF0) * 262144 + v1 * 4096 + v2 * 64 + v3, 0x10000)
         case None => None
         case Some(c) => Some((c, 4)))
      case _ => None
    else None
  }

  /** The character the decoder reads is encoded by exactly the bytes it
      read: the decoder accepts the shortest form only. */
  lemma EncodeDecodeChar(bs: seq<Byte>)
    requires |bs| > 0 && DecodeChar(bs).Some?
    ensures var (c, k) := DecodeChar(bs).value;
            1 <= k <= |bs| && EncodeChar(c) == bs[..k]
  {
    if bs[0] < 0x80 {
    } else if bs[0] < 0xE0 {
      EncodeDecodeTwo(bs);
    } else if bs[0] < 0xF0 {
      EncodeDecodeThree(bs);
    } else {
      EncodeDecodeFour(bs);
    }
  }

  lemma EncodeDecodeTwo(bs: seq<Byte>)
    requires |bs| > 0 && DecodeChar(bs).Some? && 0x80 <= bs[0] < 0xE0
    ensures var (c, k) := DecodeChar(bs).value;
            k == 2 <= |bs| && EncodeChar(c) == bs[..2]
  {
    var c := DecodeChar(bs).value.0;
    var n, a, v1 := c as int, bs[0] as int - 0xC0, bs[1] as int - 0x80;
    assert n == a * 64 + v1 && 0 <= v1 < 64 && 0x80 <= n < 0x800;
    assert n / 64 == a && n % 64 == v1;
  }

  lemma EncodeDecodeThree(bs: seq<Byte>)
    requires |bs| > 0 && DecodeChar(bs).Some? && 0xE0 <= bs[0] < 0xF0
    ensures var (c, k) := DecodeChar(bs).value;
            k == 3 <= |bs| && EncodeChar(c) == bs[..3]
  {
    var c := DecodeChar(bs).value.0;
    var n, a, v1, v2 := c as int, bs[0] as int - 0xE0, bs[1] as int - 0x80, bs[2] as int - 0x80;
    assert n == a * 4096 + v1 * 64 + v2 && 0 <= v1 < 64 && 0 <= v2 < 64 && 0x800 <= n < 0x10000;
    assert n / 64 == a * 64 + v1 && n % 64 == v2;
    assert n / 4096 == a && n / 64 % 64 == v1;
  }

  lemma EncodeDecodeFour(bs: seq<Byte>)
    requires |bs| > 0 && DecodeChar(bs).Some? && 0xF0 <= bs[0]
    ensures var (c, k) := DecodeChar(bs).value;
            k == 4 <= |bs| && EncodeChar(c) == bs[..4]
  {
    var c := DecodeChar(bs).value.0;
    var n, a := c as int, bs[0] as int - 0xF0;
    var v1, v2, v3 := bs[1] as int - 0x80, bs[2] as int - 0x80, bs[3] as int - 0x80;
    assert n == a * 262144 + v1 * 4096 + v2 * 64 + v3 && 0x10000 <= n;
    assert 0 <= v1 < 64 && 0 <= v2 < 64 && 0 <= v3 < 64;
    assert n / 64 == a * 4096 + v1 * 64 + v2 && n % 64 == v3;
    assert n / 4096 == a * 64 + v1 && n / 64 % 64 == v2;
    assert n / 262144 == a && n / 4096 % 64 == v1;
  }

  /** The characters of `bs`, or `None` when it is not a sequence of
      encoded characters. */
  function Decode(bs: seq<Byte>): Option<string>
    decreases |bs|
  {
    if bs == [] then Some([])
    else
      match DecodeChar(bs)
      case None => None
      case Some((c, n)) =>
        if n == 0 || n > |bs| then None
        else
          match Decode(bs[n..])
          case None => None
          case Some(rest) => Some([c] + rest)
  }

  /** The two-byte form read back. */
  lemma DecodeTwo(c: char, bs: seq<Byte>)
    requires 0x80 <= c as int < 0x800
    requires |bs| >= 2 && bs[0] == 0xC0 + c as int / 64 && bs[1] == Cont(c as int % 64)
    ensures DecodeChar(bs) == Some((c, 2))
  {
    assert ContValue(bs[1]) == Some(c as int % 64);
    assert (bs[0] as int - 0xC0) * 64 + c as int % 64 == c as int;
  }

  /** The three-byte form read back. */
  lemma DecodeThree(c: char, bs: seq<Byte>)
    requires 0x800 <= c as int < 0x10000
    requires |bs| >= 3 && bs[0] == 0xE0 + c as int / 4096
    requires bs[1] == Cont(c as int / 64 % 64) && bs[2] == Cont(c as int % 64)
    ensures DecodeChar(bs) == Some((c, 3))
  {
    var n := c as int;
    assert ContValue(bs[1]) == Some(n / 64 % 64) && ContValue(bs[2]) == Some(n % 64);
    assert (bs[0] as int - 0xE0) * 4096 + (n / 64 % 64) * 64 + n % 64 == n;
  }

  /** The four-byte form read back. */
  lemma DecodeFour(c: char, bs: seq<Byte>)
    requires 0x10000 <= c as int
    requires |bs| >= 4 && bs[0] == 0xF0 + c as int / 262144 && bs[1] == Cont(c as int / 4096 % 64)
    requires bs[2] == Cont(c as int / 64 % 64) && bs[3] == Cont(c as int % 64)
    ensures DecodeChar(bs) == Some((c, 4))
  {
    var n := c as int;
    assert ContValue(bs[1]) == Some(n / 4096 % 64);
    assert ContValue(bs[2]) == Some(n / 64 % 64) && ContValue(bs[3]) == Some(n % 64);
    SixBitGroups(n);
    assert bs[0] as int - 0xF0 == n / 262144;
  }

  /** `n` in groups of six bits. */
  lemma SixBitGroups(n: nat)
    ensures n / 262144 * 262144 + (n / 4096 % 64) * 4096 + (n / 64 % 64) * 64 + n % 64 == n
  {
    assert n == n / 64 * 64 + n % 64;
    assert n / 64 == n / 4096 * 64 + n / 64 % 64;
    assert n / 4096 == n / 262144 * 64 + n / 4096 % 64;
  }

  /** The decoder reads back one encoded character, whatever follows. */
  lemma DecodeEncodeChar(c: char, rest: seq<Byte>)
    ensures DecodeChar(EncodeChar(c) + rest) == Some((c, |EncodeChar(c)|))
  {
    var n := c as int;
    var e := EncodeChar(c);
    assert forall i :: 0 <= i < |e| ==> (e + rest)[i] == e[i];
    if n < 0x80 {
    } else if n < 0x800 {
      DecodeTwo(c, e + rest);
    } else if n < 0x10000 {
      DecodeThree(c, e + rest);
    } else {
      DecodeFour(c, e + rest);
    }
  }

  /** Decoding undoes encoding. */
  lemma {:induction false} DecodeEncode(s: string)
    ensures Decode(Encode(s)) == Some(s)
  {
    if s != [] {
      var e := EncodeChar(s[0]);
      DecodeEncodeChar(s[0], Encode(s[1..]));
      assert (e + Encode(s[1..]))[|e|..] == Encode(s[1..]);
      DecodeEncode(s[1..]);
      assert [s[0]] + s[1..] == s;
    }
  }

  /** Encoding undoes decoding: the decoder accepts only the bytes the
      encoder produces, so `Encode` is a bijection onto its domain. */
  lemma {:induction false} EncodeDecode(bs: seq<Byte>)
    requires Decode(bs).Some?
    ensures Encode(Decode(bs).value) == bs
    decreases |bs|
  {
    if bs != [] {
      var (c, k) := DecodeChar(bs).value;
      EncodeDecodeChar(bs);
      var s := Decode(bs).value;
      EncodeDecode(bs[k..]);
      assert s == [c] + Decode(bs[k..]).value;
      assert s[0] == c && s[1..] == Decode(bs[k..]).value;
      assert bs == bs[..k] + bs[k..];
    }
  }

  /** A string of ASCII characters is encoded one byte per character, each
      byte the character's code. */
  lemma {:induction false} EncodeAscii(s: string)
    requires forall i :: 0 <= i < |s| ==> s[i] as int < 0x80
    ensures |Encode(s)| == |s|
    ensures forall i :: 0 <= i < |s| ==> Encode(s)[i] == s[i] as int
  {
    if s != [] {
      EncodeAscii(s[1..]);
    }
  }
}
