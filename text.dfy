/**
 * The JavaScript string operations the encrypter relies on: `indexOf`-style
 * search, `String.prototype.split` with a non-empty separator and
 * `Array.prototype.join`, together with the `\s` character class and the
 * ASCII case folding of a case-insensitive regular expression.
 */
module Text {
  import opened Wrappers

  const CRLF: string := "\r\n"
  const BLANK_LINE: string := "\r\n\r\n"

  /** `sep` occurs in `s` starting at index `j`. */
  predicate OccursAt(s: string, sep: string, j: int)
  {
    0 <= j && j + |sep| <= |s| && s[j..j + |sep|] == sep
  }

  /** `sep` occurs nowhere in `s`. */
  predicate Free(s: string, sep: string)
  {
    forall j :: 0 <= j <= |s| ==> !OccursAt(s, sep, j)
  }

  /** The first index at which `sep` occurs in `s`, if any. */
  function IndexOf(s: string, sep: string): (r: Option<nat>)
    requires |sep| > 0
    ensures r.Some? ==> OccursAt(s, sep, r.value)
    ensures r.Some? ==> forall j :: 0 <= j < r.value ==> !OccursAt(s, sep, j)
    ensures r.None? ==> Free(s, sep)
    decreases |s|
  {
    if |s| < |sep| then None
    else if s[..|sep|] == sep then Some(0)
    else
      var rest := IndexOf(s[1..], sep);
      ShiftOccurrence(s, sep);
      match rest
      case None => None
      case Some(k) => Some(k + 1)
  }

  /** An occurrence at `j` in `s`, past its first character, is an
      occurrence at `j - 1` in `s[1..]`. */
  lemma ShiftOccurrence(s: string, sep: string)
    requires |s| > 0
    ensures forall j :: 1 <= j ==> (OccursAt(s, sep, j) <==> OccursAt(s[1..], sep, j - 1))
  {
    forall j | 1 <= j
      ensures OccursAt(s, sep, j) <==> OccursAt(s[1..], sep, j - 1)
    {
      if j + |sep| <= |s| {
        assert s[1..][j - 1..j - 1 + |sep|] == s[j..j + |sep|];
      }
    }
  }

  /** `s.split(sep)` for a non-empty separator. */
  function Split(s: string, sep: string): (parts: seq<string>)
    requires |sep| > 0
    ensures |parts| >= 1
    decreases |s|
  {
    match IndexOf(s, sep)
    case None => [s]
    case Some(i) => [s[..i]] + Split(s[i + |sep|..], sep)
  }

  /** The first part of a split is the text before the first occurrence of
      the separator, and the rest is the split of the text after it. */
  lemma SplitFirstPart(s: string, sep: string)
    requires |sep| > 0
    ensures IndexOf(s, sep).None? <==> |Split(s, sep)| == 1
    ensures IndexOf(s, sep).None? ==> Split(s, sep) == [s]
    ensures IndexOf(s, sep).Some? ==>
              var i := IndexOf(s, sep).value;
              Split(s, sep)[0] == s[..i] && Split(s, sep)[1..] == Split(s[i + |sep|..], sep)
  {
  }

  /** `parts.join(sep)`. */
  function Join(parts: seq<string>, sep: string): string
  {
    if |parts| == 0 then ""
    else if |parts| == 1 then parts[0]
    else parts[0] + sep + Join(parts[1..], sep)
  }

  /** Joining what was split gives back the original string. */
  lemma {:induction false} JoinSplit(s: string, sep: string)
    requires |sep| > 0
    ensures Join(Split(s, sep), sep) == s
    decreases |s|
  {
    match IndexOf(s, sep)
    case None =>
    case Some(i) =>
      var rest := s[i + |sep|..];
      var tail := Split(rest, sep);
      assert Split(s, sep) == [s[..i]] + tail;
      assert ([s[..i]] + tail)[1..] == tail;
      assert Join(Split(s, sep), sep) == s[..i] + sep + Join(tail, sep);
      JoinSplit(rest, sep);
      assert s == s[..i] + sep + rest;
  }

  /** No part produced by `Split` contains the separator. */
  lemma {:induction false} SplitPartsFree(s: string, sep: string)
    requires |sep| > 0
    ensures forall k :: 0 <= k < |Split(s, sep)| ==> Free(Split(s, sep)[k], sep)
    decreases |s|
  {
    match IndexOf(s, sep)
    case None =>
    case Some(i) =>
      var rest := s[i + |sep|..];
      SplitPartsFree(rest, sep);
      forall j | OccursAt(s[..i], sep, j)
        ensures false
      {
        assert s[..i][j..j + |sep|] == s[j..j + |sep|];
        assert OccursAt(s, sep, j);
      }
  }

  /** Join distributes over concatenation of two non-empty lists. */
  lemma {:induction false} JoinAppend(a: seq<string>, b: seq<string>, sep: string)
    requires |a| > 0 && |b| > 0
    ensures Join(a + b, sep) == Join(a, sep) + sep + Join(b, sep)
    decreases |a|
  {
    if |a| == 1 {
      assert (a + b)[1..] == b;
    } else {
      assert (a + b)[1..] == a[1..] + b;
      JoinAppend(a[1..], b, sep);
    }
  }

  /** The characters matched by `\s` in a JavaScript regular expression
      (WhiteSpace and LineTerminator of ECMA-262). */
  predicate IsJsWhitespace(c: char)
  {
    c == '\t' || c == '\n' || c == '\U{000B}' || c == '\U{000C}' || c == '\r' ||
    c == ' ' || c == '\U{00A0}' || c == '\U{1680}' ||
    ('\U{2000}' <= c <= '\U{200A}') ||
    c == '\U{2028}' || c == '\U{2029}' || c == '\U{202F}' || c == '\U{205F}' ||
    c == '\U{3000}' || c == '\U{FEFF}'
  }

  /** `/^\s/.test(line)`. */
  predicate StartsWithWhitespace(line: string)
  {
    |line| > 0 && IsJsWhitespace(line[0])
  }

  /** Case folding of a non-unicode `/i` regular expression restricted to
      what matters for an ASCII pattern: only `A`-`Z` fold onto letters of
      the pattern. */
  function LowerAscii(c: char): char
  {
    if 'A' <= c <= 'Z' then (c as int + 32) as char else c
  }

  /** `line` starts with `prefix`, compared case-insensitively;
      `prefix` is written in lower case. */
  predicate StartsWithIgnoreCase(line: string, prefix: string)
  {
    |prefix| <= |line| && forall i :: 0 <= i < |prefix| ==> LowerAscii(line[i]) == prefix[i]
  }

  /** For a pattern without capitals, a case-insensitive prefix match means
      that each character of the line is the pattern's character or, where
      that is a lower-case letter, its capital. */
  lemma IgnoreCaseMatch(line: string, prefix: string)
    requires forall i :: 0 <= i < |prefix| ==> !('A' <= prefix[i] <= 'Z')
    ensures StartsWithIgnoreCase(line, prefix) <==>
              |prefix| <= |line| &&
              forall i :: 0 <= i < |prefix| ==>
                line[i] == prefix[i] || ('a' <= prefix[i] <= 'z' && line[i] as int == prefix[i] as int - 32)
  {
    if |prefix| <= |line| {
      forall i | 0 <= i < |prefix|
        ensures LowerAscii(line[i]) == prefix[i] <==>
                  line[i] == prefix[i] || ('a' <= prefix[i] <= 'z' && line[i] as int == prefix[i] as int - 32)
      {
      }
    }
  }
}
