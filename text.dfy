/** The character classes and the greedy repetition used by the regular
    expressions of `bit/git.py` and `bit/bitbucket.py`, written out by hand
    instead of through a regular-expression engine. */
module Text {
  import opened Wrappers

  /** The classes that occur in the patterns. */
  datatype Class =
    | Word      // `\w`: restricted to ASCII letters, digits and `_`
    | Space     // `\s`
    | NonSpace  // `[^\s]`
    | NotDot    // `[^\.]`

  /** ASCII subset of Python's `\w`. */
  predicate IsWordChar(c: char) {
    ('a' <= c <= 'z') || ('A' <= c <= 'Z') || ('0' <= c <= '9') || c == '_'
  }

  /** Python's `\s` on `str` patterns: the characters for which `str.isspace()`
      holds, that is ASCII 9-13 and 28-32, and the Unicode separators. */
  predicate IsSpace(c: char) {
    var n := c as int;
    (9 <= n <= 13) || (28 <= n <= 32) || n == 0x85 || n == 0xA0 || n == 0x1680
    || (0x2000 <= n <= 0x200A) || n == 0x2028 || n == 0x2029 || n == 0x202F
    || n == 0x205F || n == 0x3000
  }

  predicate In(c: char, k: Class) {
    match k
    case Word => IsWordChar(c)
    case Space => IsSpace(c)
    case NonSpace => !IsSpace(c)
    case NotDot => c != '.'
  }

  /** Every character of `s` is in class `k`. */
  predicate All(s: string, k: Class) {
    s == [] || (In(s[0], k) && All(s[1..], k))
  }

  /** `All` character by character. */
  lemma {:induction false} AllAt(s: string, k: Class, i: nat)
    requires All(s, k) && i < |s|
    ensures In(s[i], k)
  {
    if i > 0 {
      AllAt(s[1..], k, i - 1);
    }
  }

  /** Python's `.` outside a class: any character except a line feed. */
  predicate IsAnyChar(c: char) {
    c != '\n'
  }

  /** The length of the longest prefix of `s` in class `k`: how far a greedy
      `k+` (or `k*`) reaches before it stops. */
  function Span(s: string, k: Class): (n: nat)
    ensures n <= |s|
    ensures All(s[..n], k)
    ensures n < |s| ==> !In(s[n], k)
  {
    if s == [] || !In(s[0], k) then 0
    else
      var n := 1 + Span(s[1..], k);
      assert s[..n][1..] == s[1..][..n - 1];
      n
  }

  /** A run of class `k` followed by a character outside it (or by nothing)
      is exactly what `Span` measures. */
  lemma {:induction false} SpanOfRun(a: string, b: string, k: Class)
    requires All(a, k)
    requires b == [] || !In(b[0], k)
    ensures Span(a + b, k) == |a|
    ensures (a + b)[..|a|] == a && (a + b)[|a|..] == b
  {
    if a != [] {
      assert (a + b)[1..] == a[1..] + b;
      SpanOfRun(a[1..], b, k);
    }
  }

  /** A greedy `k+` at the start of `s`: the run it matches and the text
      after it, or `None` when `s` does not start with a character of `k`. */
  function Plus(s: string, k: Class): (r: Option<(string, string)>)
    ensures r.Some? ==> |r.value.0| > 0 && All(r.value.0, k) && s == r.value.0 + r.value.1
    ensures r.Some? ==> r.value.1 == [] || !In(r.value.1[0], k)
    ensures r.None? ==> s == [] || !In(s[0], k)
  {
    var n := Span(s, k);
    if n == 0 then None else Some((s[..n], s[n..]))
  }

  /** A non-empty run of `k` followed by something outside `k` is split by
      `Plus` exactly there. */
  lemma PlusOfRun(a: string, b: string, k: Class)
    requires |a| > 0 && All(a, k)
    requires b == [] || !In(b[0], k)
    ensures Plus(a + b, k) == Some((a, b))
  {
    SpanOfRun(a, b, k);
  }

  /** A prefix of a run is a run. */
  lemma {:induction false} AllPrefix(s: string, k: Class, n: nat)
    requires All(s, k) && n <= |s|
    ensures All(s[..n], k)
  {
    if n > 0 {
      assert s[..n][1..] == s[1..][..n - 1];
      AllPrefix(s[1..], k, n - 1);
    }
  }

  /** A run of `NotDot` holds no dot. */
  lemma {:induction false} NotDotHasNoDot(s: string)
    requires All(s, NotDot)
    ensures '.' !in s
  {
    if s != [] {
      NotDotHasNoDot(s[1..]);
      assert s == [s[0]] + s[1..];
    }
  }

  /** A string without a dot is a run of `NotDot`. */
  lemma {:induction false} NoDotIsNotDot(s: string)
    requires '.' !in s
    ensures All(s, NotDot)
  {
    if s != [] {
      assert s[0] in s;
      assert forall c :: c in s[1..] ==> c in s;
      NoDotIsNotDot(s[1..]);
    }
  }

  /** Python's `re` reading of the literal parts of a pattern: `.` stands
      for any character except a line feed, every other character for
      itself. */
  predicate CharMatches(p: char, c: char) {
    if p == '.' then IsAnyChar(c) else c == p
  }

  /** The pattern text `p` matched at the start of `s`: what is left after
      it, or `None`. The texts that match are those at least as long as
      the pattern text whose every character matches the pattern's
      character at its place. */
  function MatchText(p: string, s: string): (rest: Option<string>)
    ensures rest.Some? <==> |p| <= |s| && forall i :: 0 <= i < |p| ==> CharMatches(p[i], s[i])
    ensures rest.Some? ==> rest.value == s[|p|..]
  {
    if p == [] then Some(s)
    else if s == [] || !CharMatches(p[0], s[0]) then None
    else
      assert forall i :: 1 <= i < |p| ==> p[i] == p[1..][i - 1];
      assert forall i :: 1 <= i < |p| && i < |s| ==> s[i] == s[1..][i - 1];
      MatchText(p[1..], s[1..])
  }

  /** Pattern text without line feeds consumes itself at the start of a
      string. */
  lemma {:induction false} MatchTextSelf(p: string, rest: string)
    requires '\n' !in p
    ensures MatchText(p, p + rest) == Some(rest)
  {
    if p != [] {
      assert p[0] in p;
      assert forall c :: c in p[1..] ==> c in p;
      assert (p + rest)[1..] == p[1..] + rest;
      MatchTextSelf(p[1..], rest);
    }
  }

  /** One position the pattern text does not match makes the match fail. */
  lemma {:induction false} MatchTextMismatch(p: string, s: string, i: nat)
    requires i < |p| && i < |s| && !CharMatches(p[i], s[i])
    ensures MatchText(p, s).None?
  {
    if i > 0 && CharMatches(p[0], s[0]) {
      MatchTextMismatch(p[1..], s[1..], i - 1);
    }
  }

  /** A non-empty string is its first character followed by the rest. */
  lemma Uncons(s: string)
    requires s != []
    ensures s == [s[0]] + s[1..]
  {
  }
}
