/** The text operations the services borrow from Rust's `str`: `trim`,
    `trim_end_matches`, `split`, `find`, `contains`, `strip_prefix`.
    Strings are sequences of Unicode scalar values. */
module Strings {
  import opened Base

  /** `char::is_whitespace`: the Unicode White_Space property. */
  predicate IsWhitespace(c: char) {
    || ('\U{0009}' <= c <= '\U{000D}')
    || c == ' '
    || c == '\U{0085}'
    || c == '\U{00A0}'
    || c == '\U{1680}'
    || ('\U{2000}' <= c <= '\U{200A}')
    || c == '\U{2028}'
    || c == '\U{2029}'
    || c == '\U{202F}'
    || c == '\U{205F}'
    || c == '\U{3000}'
  }

  predicate AllWhitespace(s: string) {
    forall i :: 0 <= i < |s| ==> IsWhitespace(s[i])
  }

  /** `str::trim_start`. The result is the suffix left after dropping leading whitespace. */
  function TrimStart(s: string): (r: string)
    ensures |r| <= |s| && r == s[|s| - |r|..]
    ensures AllWhitespace(s[..|s| - |r|])
    ensures |r| > 0 ==> !IsWhitespace(r[0])
  {
    if |s| > 0 && IsWhitespace(s[0]) then
      var r := TrimStart(s[1..]);
      assert s[1..][..|s[1..]| - |r|] == s[1..|s| - |r|];
      r
    else
      s
  }

  /** `str::trim_end`. The result is the prefix left after dropping trailing whitespace. */
  function TrimEnd(s: string): (r: string)
    ensures |r| <= |s| && r == s[..|r|]
    ensures AllWhitespace(s[|r|..])
    ensures |r| > 0 ==> !IsWhitespace(r[|r| - 1])
  {
    if |s| > 0 && IsWhitespace(s[|s| - 1]) then
      var r := TrimEnd(s[..|s| - 1]);
      assert s[..|s| - 1][|r|..] == s[|r|..|s| - 1];
      r
    else
      s
  }

  /** `str::trim`: whitespace removed at both ends. */
  function Trim(s: string): (r: string)
    ensures |r| <= |s|
    ensures |r| > 0 ==> !IsWhitespace(r[0]) && !IsWhitespace(r[|r| - 1])
  {
    TrimEnd(TrimStart(s))
  }

  /** Text without surrounding whitespace is its own trim. */
  lemma TrimOfTrimmed(s: string)
    requires |s| > 0 && !IsWhitespace(s[0]) && !IsWhitespace(s[|s| - 1])
    ensures Trim(s) == s
  {
  }

  /** Trimming twice is trimming once. */
  lemma TrimIdempotent(s: string)
    ensures Trim(Trim(s)) == Trim(s)
  {
    if |Trim(s)| > 0 {
      TrimOfTrimmed(Trim(s));
    }
  }

  /** `s.trim().is_empty()`, the handlers' test for a blank form field. */
  predicate IsBlank(s: string) {
    |Trim(s)| == 0
  }

  /** A field is blank exactly when every character in it is whitespace. */
  lemma {:induction false} BlankIffAllWhitespace(s: string)
    ensures IsBlank(s) <==> AllWhitespace(s)
  {
    var t := TrimStart(s);
    if AllWhitespace(s) {
      assert AllWhitespace(t);
      assert |t| == 0;
    } else {
      var i :| 0 <= i < |s| && !IsWhitespace(s[i]);
      assert i >= |s| - |t|;
      assert |t| > 0 && !IsWhitespace(t[0]);
      assert |TrimEnd(t)| > 0;
    }
  }

  /** `str::trim_end_matches(c)` with a single character pattern. */
  function TrimEndMatches(s: string, c: char): (r: string)
    ensures |r| <= |s| && r == s[..|r|]
    ensures forall i :: |r| <= i < |s| ==> s[i] == c
    ensures |r| == 0 || r[|r| - 1] != c
  {
    if |s| > 0 && s[|s| - 1] == c then TrimEndMatches(s[..|s| - 1], c) else s
  }

  /** `str::trim_start_matches(c)` with a single character pattern. */
  function TrimStartMatches(s: string, c: char): (r: string)
    ensures |r| <= |s| && r == s[|s| - |r|..]
    ensures forall i :: 0 <= i < |s| - |r| ==> s[i] == c
    ensures |r| == 0 || r[0] != c
  {
    if |s| > 0 && s[0] == c then TrimStartMatches(s[1..], c) else s
  }

  /** `str::strip_prefix`. */
  function StripPrefix(s: string, prefix: string): (r: Option<string>)
    ensures r.Some? <==> prefix <= s
    ensures r.Some? ==> prefix + r.value == s
  {
    if prefix <= s then
      assert prefix + s[|prefix|..] == s;
      Some(s[|prefix|..])
    else
      None
  }

  /** `str::split(sep)` with a single character separator: the maximal
      separator-free pieces, in order. There is always at least one piece. */
  function Split(s: string, sep: char): (parts: seq<string>)
    ensures |parts| >= 1
    ensures forall i :: 0 <= i < |parts| ==> sep !in parts[i]
  {
    if |s| == 0 then
      [""]
    else
      var rest := Split(s[1..], sep);
      if s[0] == sep then [""] + rest else [[s[0]] + rest[0]] + rest[1..]
  }

  /** Pieces glued back together with the separator. */
  function Join(parts: seq<string>, sep: char): string
    requires |parts| >= 1
  {
    if |parts| == 1 then parts[0] else parts[0] + [sep] + Join(parts[1..], sep)
  }

  /** Number of occurrences of `c` in `s`. */
  function Occurrences(s: string, c: char): nat {
    if |s| == 0 then 0 else (if s[0] == c then 1 else 0) + Occurrences(s[1..], c)
  }

  /** Splitting loses nothing: joining the pieces restores the input. */
  lemma {:induction false} JoinSplit(s: string, sep: char)
    ensures Join(Split(s, sep), sep) == s
  {
    if |s| > 0 {
      var rest := Split(s[1..], sep);
      JoinSplit(s[1..], sep);
      if s[0] == sep {
        assert Split(s, sep)[1..] == rest;
      } else if |rest| == 1 {
        assert Join(Split(s, sep), sep) == [s[0]] + rest[0];
      } else {
        var parts := Split(s, sep);
        assert parts[1..] == rest[1..];
        assert Join(rest, sep) == rest[0] + [sep] + Join(rest[1..], sep);
        assert Join(parts, sep) == [s[0]] + rest[0] + [sep] + Join(rest[1..], sep);
        assert s == [s[0]] + s[1..];
      }
    }
  }

  /** There is one more piece than there are separators. */
  lemma {:induction false} SplitCount(s: string, sep: char)
    ensures |Split(s, sep)| == Occurrences(s, sep) + 1
  {
    if |s| > 0 {
      SplitCount(s[1..], sep);
    }
  }

  /** `s.split(sep).next_back()`: the last piece. */
  function LastSegment(s: string, sep: char): string {
    var parts := Split(s, sep);
    parts[|parts| - 1]
  }

  /** The last piece is the longest separator-free suffix of the input:
      it is a suffix, contains no separator, and is either the whole input
      or preceded by a separator. */
  lemma {:induction false} LastSegmentIsMaximalSuffix(s: string, sep: char)
    ensures var r := LastSegment(s, sep);
      && |r| <= |s| && r == s[|s| - |r|..]
      && sep !in r
      && (|r| == |s| || s[|s| - |r| - 1] == sep)
  {
    if |s| > 0 {
      LastSegmentIsMaximalSuffix(s[1..], sep);
      if s[0] == sep || |Split(s[1..], sep)| > 1 {
        LastSegmentOfTail(s, sep);
      } else {
        SingleSplitIffNoSeparator(s[1..], sep);
        SingleSplitIffNoSeparator(s, sep);
        LastSegmentWithoutSeparator(s, sep);
      }
    }
  }

  /** When the first character ends a piece, or a later separator exists,
      the last piece of the input is the last piece of its tail and is
      preceded by a separator. */
  lemma LastSegmentOfTail(s: string, sep: char)
    requires |s| > 0
    requires s[0] == sep || |Split(s[1..], sep)| > 1
    requires var r := LastSegment(s[1..], sep);
      && |r| <= |s| - 1 && r == s[1..][|s| - 1 - |r|..]
      && (|r| == |s| - 1 || s[1..][|s| - 1 - |r| - 1] == sep)
    ensures LastSegment(s, sep) == LastSegment(s[1..], sep)
    ensures var r := LastSegment(s, sep); |r| < |s| && s[|s| - |r| - 1] == sep
  {
    var rest := Split(s[1..], sep);
    var r := rest[|rest| - 1];
    assert Split(s, sep)[|Split(s, sep)| - 1] == r;
    if s[0] != sep {
      SingleSplitIffNoSeparator(s[1..], sep);
      assert |r| < |s| - 1;
    }
    if |r| < |s| - 1 {
      assert s[1..][|s| - 1 - |r| - 1] == s[|s| - |r| - 1];
    }
  }

  /** The input splits into a single piece exactly when it holds no separator. */
  lemma {:induction false} SingleSplitIffNoSeparator(s: string, sep: char)
    ensures |Split(s, sep)| == 1 <==> sep !in s
  {
    if |s| > 0 {
      SingleSplitIffNoSeparator(s[1..], sep);
      assert s == [s[0]] + s[1..];
    }
  }

  /** The last piece is empty exactly when the input is empty or ends with the separator. */
  lemma LastSegmentEmptyIff(s: string, sep: char)
    ensures LastSegment(s, sep) == "" <==> (|s| == 0 || s[|s| - 1] == sep)
  {
    LastSegmentIsMaximalSuffix(s, sep);
    var r := LastSegment(s, sep);
    if |r| > 0 {
      assert s[|s| - 1] == r[|r| - 1];
    }
  }

  /** Without any separator the last piece is the whole input. */
  lemma LastSegmentWithoutSeparator(s: string, sep: char)
    requires sep !in s
    ensures LastSegment(s, sep) == s
  {
    SingleSplitIffNoSeparator(s, sep);
    JoinSplit(s, sep);
  }

  /** Whatever follows the last separator is the last piece. */
  lemma LastSegmentAfterLastSeparator(p: string, sep: char, t: string)
    requires sep !in t
    ensures LastSegment(p + [sep] + t, sep) == t
  {
    var s := p + [sep] + t;
    LastSegmentIsMaximalSuffix(s, sep);
    var r := LastSegment(s, sep);
    assert s[|s| - |t| - 1] == sep;
    assert |r| == |t|;
    assert s[|s| - |t|..] == t;
  }

  /** `sub` occurs in `s` starting at index `i`. */
  predicate OccursAt(s: string, sub: string, i: int) {
    0 <= i && i + |sub| <= |s| && s[i..i + |sub|] == sub
  }

  /** `str::find(sub)`: the first index at or after `from` where `sub` occurs. */
  function FindFrom(s: string, sub: string, from: nat): (r: Option<nat>)
    requires from <= |s|
    ensures r.Some? ==> from <= r.value && OccursAt(s, sub, r.value)
    ensures r.Some? ==> forall j :: from <= j < r.value ==> !OccursAt(s, sub, j)
    ensures r.None? ==> forall j :: from <= j <= |s| ==> !OccursAt(s, sub, j)
    decreases |s| - from
  {
    if OccursAt(s, sub, from) then Some(from)
    else if from == |s| then None
    else FindFrom(s, sub, from + 1)
  }

  function Find(s: string, sub: string): Option<nat> {
    FindFrom(s, sub, 0)
  }

  /** `str::contains(sub)`. */
  predicate Contains(s: string, sub: string) {
    Find(s, sub).Some?
  }

  /** Text missing one of the pattern's characters does not contain the pattern. */
  lemma NotContainsMissingChar(s: string, sub: string, i: nat)
    requires i < |sub| && sub[i] !in s
    ensures !Contains(s, sub)
  {
    forall j | 0 <= j <= |s|
      ensures !OccursAt(s, sub, j)
    {
      if j + |sub| <= |s| {
        assert s[j..j + |sub|][i] == s[j + i] != sub[i];
      }
    }
  }

  /** `str::find(&[..])` with a set of single-character patterns. */
  function FindAnyFrom(s: string, cs: set<char>, from: nat): (r: Option<nat>)
    requires from <= |s|
    ensures r.Some? ==> from <= r.value < |s| && s[r.value] in cs
    ensures r.Some? ==> forall j :: from <= j < r.value ==> s[j] !in cs
    ensures r.None? ==> forall j :: from <= j < |s| ==> s[j] !in cs
    decreases |s| - from
  {
    if from == |s| then None
    else if s[from] in cs then Some(from)
    else FindAnyFrom(s, cs, from + 1)
  }

  function FindAny(s: string, cs: set<char>): Option<nat> {
    FindAnyFrom(s, cs, 0)
  }
}
