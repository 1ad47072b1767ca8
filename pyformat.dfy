/** The two pieces of Python's string formatting the pull-request listing
    relies on: the decimal text of an integer, and right alignment in a
    field of fixed width. Each comes with a reader as its partner. */
module PyFormat {
  import opened Wrappers

  predicate IsDigit(c: char) {
    '0' <= c <= '9'
  }

  function DigitChar(d: nat): (c: char)
    requires d < 10
    ensures IsDigit(c)
  {
    ('0' as int + d) as char
  }

  /** The decimal digits of `n`, most significant first, without leading
      zeros. */
  function Digits(n: nat): (s: string)
    ensures |s| >= 1
    ensures forall i :: 0 <= i < |s| ==> IsDigit(s[i])
    ensures |s| > 1 ==> s[0] != '0'
  {
    if n < 10 then [DigitChar(n)] else Digits(n / 10) + [DigitChar(n % 10)]
  }

  /** `str(n)`: a minus sign for a negative number, then the digits. */
  function Str(n: int): (s: string)
    ensures |s| >= 1
    ensures n < 0 <==> s[0] == '-'
    ensures forall i :: (if n < 0 then 1 else 0) <= i < |s| ==> IsDigit(s[i])
  {
    if n < 0 then "-" + Digits(-n) else Digits(n)
  }

  function DigitValue(c: char): nat
    requires IsDigit(c)
  {
    c as int - '0' as int
  }

  /** The number a string of digits denotes. */
  function DigitsValue(s: string): nat
    requires forall i :: 0 <= i < |s| ==> IsDigit(s[i])
  {
    if s == [] then 0 else DigitsValue(s[..|s| - 1]) * 10 + DigitValue(s[|s| - 1])
  }

  predicate AllDigits(s: string) {
    forall i :: 0 <= i < |s| ==> IsDigit(s[i])
  }

  /** `int(s)` for the strings `str` gives: an optional minus sign and one
      or more digits. */
  function ParseInt(s: string): Option<int> {
    if |s| >= 2 && s[0] == '-' && AllDigits(s[1..]) then Some(-(DigitsValue(s[1..]) as int))
    else if |s| >= 1 && AllDigits(s) then Some(DigitsValue(s))
    else None
  }

  lemma {:induction false} DigitsValueOf(n: nat)
    ensures DigitsValue(Digits(n)) == n
  {
    if n >= 10 {
      var s := Digits(n);
      assert s[..|s| - 1] == Digits(n / 10);
      DigitsValueOf(n / 10);
    }
  }

  /** Reading `str(n)` back gives `n`. */
  lemma ParseIntOfStr(n: int)
    ensures ParseInt(Str(n)) == Some(n)
  {
    var s := Str(n);
    if n < 0 {
      assert s[1..] == Digits(-n);
      DigitsValueOf(-n);
    } else {
      DigitsValueOf(n);
    }
  }

  /** Different numbers have different decimal forms. */
  lemma StrInjective(m: int, n: int)
    requires Str(m) == Str(n)
    ensures m == n
  {
    ParseIntOfStr(m);
    ParseIntOfStr(n);
  }

  /** `10^k`. */
  function Power10(k: nat): (p: nat)
    ensures p >= 1
  {
    if k == 0 then 1 else 10 * Power10(k - 1)
  }

  /** A number below `10^k` has at most `k` digits (and at least one). */
  lemma {:induction false} DigitsLength(n: nat, k: nat)
    requires k >= 1 && n < Power10(k)
    ensures |Digits(n)| <= k
  {
    if n >= 10 {
      assert Power10(1) == 10;
      assert k != 1;
      DigitsLength(n / 10, k - 1);
    }
  }

  /** `width - |s|` spaces, or none. */
  function Fill(s: string, width: nat): (f: string)
    ensures |f| == if |s| < width then width - |s| else 0
    ensures forall i :: 0 <= i < |f| ==> f[i] == ' '
  {
    if |s| < width then seq(width - |s|, _ => ' ') else ""
  }

  /** Right alignment: `s` right-aligned with spaces in a field of
      `width` characters; a longer `s` is kept whole. */
  function AlignRight(s: string, width: nat): (r: string)
    ensures |r| == if |s| < width then width else |s|
    ensures r[|r| - |s|..] == s
    ensures forall i :: 0 <= i < |r| - |s| ==> r[i] == ' '
  {
    Fill(s, width) + s
  }

  /** The spaces at the start of `s`, dropped. */
  function TrimLeft(s: string): (t: string)
    ensures |t| <= |s| && t == s[|s| - |t|..]
    ensures t == [] || t[0] != ' '
  {
    if s != [] && s[0] == ' ' then TrimLeft(s[1..]) else s
  }

  lemma {:induction false} TrimLeftSpaces(f: string, s: string)
    requires forall i :: 0 <= i < |f| ==> f[i] == ' '
    requires s == [] || s[0] != ' '
    ensures TrimLeft(f + s) == s
  {
    if f != [] {
      assert (f + s)[1..] == f[1..] + s;
      TrimLeftSpaces(f[1..], s);
    } else {
      assert f + s == s;
    }
  }

  /** Aligning never loses text: trimming the fill gives back `s` when it
      does not start with a space. */
  lemma TrimAlignRight(s: string, width: nat)
    requires s == [] || s[0] != ' '
    ensures TrimLeft(AlignRight(s, width)) == s
  {
    TrimLeftSpaces(Fill(s, width), s);
  }
}
