/**
 * The few JavaScript string operations the application relies on, with the
 * meaning ECMAScript gives them: `trim`, `startsWith` and `split(sep)[k]`.
 */
module JsText {

  import opened Wrappers

  /** ECMAScript WhiteSpace and LineTerminator code points: exactly what `trim` strips. */
  predicate IsWhitespace(c: char) {
    || c == '\t' || c == '\n' || c == '\U{000B}' || c == '\U{000C}' || c == '\r'
    || c == ' ' || c == '\U{00A0}' || c == '\U{1680}'
    || ('\U{2000}' <= c <= '\U{200A}')
    || c == '\U{2028}' || c == '\U{2029}' || c == '\U{202F}' || c == '\U{205F}'
    || c == '\U{3000}' || c == '\U{FEFF}'
  }

  /** Every character of `s` is whitespace; in JavaScript, `s.trim()` is then falsy. */
  predicate IsBlank(s: string) {
    forall i :: 0 <= i < |s| ==> IsWhitespace(s[i])
  }

  /** `s` neither starts nor ends with whitespace. */
  predicate Trimmed(s: string) {
    s == [] || (!IsWhitespace(s[0]) && !IsWhitespace(s[|s| - 1]))
  }

  /** Number of leading whitespace characters: what `trimStart` drops. */
  function LeadingBlanks(s: string): (n: nat)
    ensures n <= |s|
    ensures forall i :: 0 <= i < n ==> IsWhitespace(s[i])
    ensures n < |s| ==> !IsWhitespace(s[n])
  {
    if s == [] || !IsWhitespace(s[0]) then 0
    else
      var m := LeadingBlanks(s[1..]);
      assert forall i :: 1 <= i < 1 + m ==> s[i] == s[1..][i - 1];
      1 + m
  }

  /** Length of `s` without its trailing whitespace: where `trimEnd` cuts. */
  function ContentEnd(s: string): (n: nat)
    ensures n <= |s|
    ensures forall i :: n <= i < |s| ==> IsWhitespace(s[i])
    ensures n > 0 ==> !IsWhitespace(s[n - 1])
  {
    if s == [] || !IsWhitespace(s[|s| - 1]) then |s|
    else
      var m := ContentEnd(s[..|s| - 1]);
      assert forall i :: m <= i < |s| - 1 ==> s[i] == s[..|s| - 1][i];
      m
  }

  /**
   * `s.trim()`: the contiguous slice of `s` between its leading and trailing
   * whitespace; empty exactly when `s` is blank.
   */
  function Trim(s: string): (r: string)
    ensures LeadingBlanks(s) + |r| <= |s|
    ensures r == s[LeadingBlanks(s)..LeadingBlanks(s) + |r|]
    ensures IsBlank(s[..LeadingBlanks(s)]) && IsBlank(s[LeadingBlanks(s) + |r|..])
    ensures Trimmed(r)
    ensures r == [] <==> IsBlank(s)
  {
    var n := LeadingBlanks(s);
    var m := ContentEnd(s[n..]);
    TrimTailBlank(s, n, m);
    TrimEndsTrimmed(s, n, m);
    TrimEmptyWhenBlank(s, n, m);
    s[n..][..ContentEnd(s[n..])]
  }

  /** What Trim cuts off after the content is whitespace. */
  lemma TrimTailBlank(s: string, n: nat, m: nat)
    requires n == LeadingBlanks(s) && m == ContentEnd(s[n..])
    ensures n + m <= |s| && IsBlank(s[n + m..])
  {
    var t := s[n..];
    var tail := t[m..];
    forall j | 0 <= j < |tail|
      ensures IsWhitespace(tail[j])
    {
      assert tail[j] == t[m + j];
    }
    assert s[n + m..] == tail;
  }

  /** Trim's result starts and ends with the cut points' non-whitespace characters. */
  lemma TrimEndsTrimmed(s: string, n: nat, m: nat)
    requires n == LeadingBlanks(s) && m == ContentEnd(s[n..])
    ensures n + m <= |s| && s[n..][..m] == s[n..n + m] && Trimmed(s[n..n + m])
  {
    if m > 0 {
      assert s[n..n + m][0] == s[n];
      assert s[n..n + m][m - 1] == s[n..][m - 1];
    }
  }

  /** Trim's result is empty exactly when the whole string is whitespace. */
  lemma TrimEmptyWhenBlank(s: string, n: nat, m: nat)
    requires n == LeadingBlanks(s) && m == ContentEnd(s[n..])
    ensures n + m <= |s| && (m == 0 <==> IsBlank(s))
  {
    if n < |s| {
      assert s[n..][0] == s[n];
    }
  }

  /** Trimming a string that has no whitespace at either end changes nothing. */
  lemma {:induction false} TrimOfTrimmed(s: string)
    requires Trimmed(s)
    ensures Trim(s) == s
  {
    if s != [] {
      assert LeadingBlanks(s) == 0;
      assert s[0..] == s;
      assert ContentEnd(s) == |s|;
    }
  }

  /** `trim` is idempotent. */
  lemma TrimIdempotent(s: string)
    ensures Trim(Trim(s)) == Trim(s)
  {
    TrimOfTrimmed(Trim(s));
  }

  /** `s.startsWith(prefix)`. */
  predicate StartsWith(s: string, prefix: string) {
    prefix <= s
  }

  /**
   * `s.split(sep)[0]`: the longest prefix of `s` that does not contain `sep`,
   * which is all of `s` when `sep` does not occur.
   */
  function BeforeFirst(s: string, sep: char): (r: string)
    ensures r <= s
    ensures sep !in r
    ensures |r| < |s| ==> s[|r|] == sep
  {
    if s == [] || s[0] == sep then [] else [s[0]] + BeforeFirst(s[1..], sep)
  }

  /** The three properties of BeforeFirst determine it: no other prefix has them. */
  lemma BeforeFirstUnique(s: string, sep: char, p: string)
    requires p <= s && sep !in p
    requires |p| < |s| ==> s[|p|] == sep
    ensures p == BeforeFirst(s, sep)
  {
  }

  /** When `sep` does not occur, `split(sep)[0]` is the whole string. */
  lemma BeforeFirstAbsent(s: string, sep: char)
    requires sep !in s
    ensures BeforeFirst(s, sep) == s
  {
    BeforeFirstUnique(s, sep, s);
  }

  /**
   * `s.split(sep)[1]`: the piece between the first and second `sep`, or
   * `undefined` (None) when `sep` does not occur in `s`.
   */
  function SecondPiece(s: string, sep: char): (r: Option<string>)
    ensures r.None? <==> sep !in s
    ensures r.Some? ==> sep !in r.value
    ensures r.Some? ==> BeforeFirst(s, sep) + [sep] + r.value <= s
    ensures r.Some? ==>
      var end := |BeforeFirst(s, sep)| + 1 + |r.value|;
      end < |s| ==> s[end] == sep
  {
    var head := BeforeFirst(s, sep);
    if |head| == |s| then
      BeforeFirstAbsent(s, sep);
      None
    else
      var rest := s[|head| + 1..];
      assert s == head + [sep] + rest;
      Some(BeforeFirst(rest, sep))
  }
}
