/**
 * Character-level string helpers with Python and SQL semantics:
 * `str.strip()`, `str.strip(chars)`, the SQL `LIKE '%x%'` substring test
 * and ASCII lower-casing.
 */
module Text {

  /** The characters for which Python's `str.isspace()` holds; `str.strip()` removes these. */
  predicate IsSpace(c: char) {
    c in {'\t', '\n', '\U{000B}', '\U{000C}', '\r', '\U{001C}', '\U{001D}', '\U{001E}',
          '\U{001F}', ' ', '\U{0085}', '\U{00A0}', '\U{1680}', '\U{2000}', '\U{2001}',
          '\U{2002}', '\U{2003}', '\U{2004}', '\U{2005}', '\U{2006}', '\U{2007}', '\U{2008}',
          '\U{2009}', '\U{200A}', '\U{2028}', '\U{2029}', '\U{202F}', '\U{205F}', '\U{3000}'}
  }

  predicate IsNewline(c: char) {
    c == '\n'
  }

  /** Drops the leading characters satisfying `drop`. */
  function TrimStart(s: string, drop: char -> bool): (r: string)
    ensures |r| <= |s| && r == s[|s| - |r|..]
    ensures forall k :: 0 <= k < |s| - |r| ==> drop(s[k])
    ensures r != [] ==> !drop(r[0])
  {
    if s != [] && drop(s[0]) then
      var r := TrimStart(s[1..], drop);
      assert forall k :: 1 <= k < |s| ==> s[k] == s[1..][k - 1];
      r
    else s
  }

  /** Drops the trailing characters satisfying `drop`. */
  function TrimEnd(s: string, drop: char -> bool): (r: string)
    ensures |r| <= |s| && r == s[..|r|]
    ensures forall k :: |r| <= k < |s| ==> drop(s[k])
    ensures r != [] ==> !drop(r[|r| - 1])
  {
    if s != [] && drop(s[|s| - 1]) then TrimEnd(s[..|s| - 1], drop) else s
  }

  /**
   * Python's `s.strip(chars)` where `drop` tells the stripped characters:
   * the result is a contiguous piece of `s`, everything around it is
   * dropped characters, and it neither starts nor ends with one.
   */
  function StripChars(s: string, drop: char -> bool): (r: string)
    ensures |r| <= |s|
    ensures r == [] || (!drop(r[0]) && !drop(r[|r| - 1]))
  {
    TrimEnd(TrimStart(s, drop), drop)
  }

  /** What `StripChars` keeps is the piece of `s` between a run of dropped characters at each end. */
  lemma {:induction false} StripCharsIsInfix(s: string, drop: char -> bool)
    ensures |s| - |TrimStart(s, drop)| + |StripChars(s, drop)| <= |s|
    ensures StripChars(s, drop) == s[|s| - |TrimStart(s, drop)|..|s| - |TrimStart(s, drop)| + |StripChars(s, drop)|]
    ensures forall k :: 0 <= k < |s| - |TrimStart(s, drop)| ==> drop(s[k])
    ensures forall k :: |s| - |TrimStart(s, drop)| + |StripChars(s, drop)| <= k < |s| ==> drop(s[k])
  {
    var t := TrimStart(s, drop);
    var r := TrimEnd(t, drop);
    assert StripChars(s, drop) == r;
    PrefixOfSuffix(s, t, r, |s| - |t|);
    DroppedAfterPrefix(s, t, r, |s| - |t|, drop);
  }

  /** A prefix of the suffix from `i` is the slice at `i`. */
  lemma PrefixOfSuffix(s: string, t: string, r: string, i: int)
    requires 0 <= i <= |s| && t == s[i..] && |r| <= |t| && r == t[..|r|]
    ensures i + |r| <= |s| && r == s[i..i + |r|]
  {
  }

  /** Characters dropped behind a prefix of the suffix from `i` are dropped characters of `s`. */
  lemma DroppedAfterPrefix(s: string, t: string, r: string, i: int, drop: char -> bool)
    requires 0 <= i <= |s| && t == s[i..] && |r| <= |t|
    requires forall k :: |r| <= k < |t| ==> drop(t[k])
    ensures forall k :: i + |r| <= k < |s| ==> drop(s[k])
  {
    forall k | i + |r| <= k < |s|
      ensures drop(s[k])
    {
      assert s[k] == t[k - i];
    }
  }

  /** Python's `s.strip()`. */
  function Strip(s: string): string {
    StripChars(s, IsSpace)
  }

  /** Python's `s.strip("\n")`: only newline characters are removed. */
  function StripNewlines(s: string): (r: string)
    ensures |r| <= |s|
    ensures r != [] ==> r[0] != '\n' && r[|r| - 1] != '\n'
  {
    StripChars(s, IsNewline)
  }

  /** A string that neither starts nor ends with a dropped character is left as it is. */
  lemma StripCharsKeepsTrimmed(s: string, drop: char -> bool)
    requires s == [] || (!drop(s[0]) && !drop(s[|s| - 1]))
    ensures StripChars(s, drop) == s
  {
    assert TrimStart(s, drop) == s;
  }

  /** Stripping twice is stripping once. */
  lemma StripCharsIdempotent(s: string, drop: char -> bool)
    ensures StripChars(StripChars(s, drop), drop) == StripChars(s, drop)
  {
    StripCharsKeepsTrimmed(StripChars(s, drop), drop);
  }

  /** `strip("\n")` keeps every character of a line that has no newline, spaces included. */
  lemma StripNewlinesKeepsSpaces(s: string)
    requires forall k :: 0 <= k < |s| ==> s[k] != '\n'
    ensures StripNewlines(s) == s
  {
    if s != [] {
      assert !IsNewline(s[0]) && !IsNewline(s[|s| - 1]);
    }
    StripCharsKeepsTrimmed(s, IsNewline);
  }

  /** `strip()` removes the space a join puts before a trimmed word. */
  lemma StripOfLeadingSpace(s: string)
    requires s == [] || (!IsSpace(s[0]) && !IsSpace(s[|s| - 1]))
    ensures Strip(" " + s) == s
  {
    assert (" " + s)[1..] == s;
    assert TrimStart(" " + s, IsSpace) == TrimStart(s, IsSpace);
    StripCharsKeepsTrimmed(s, IsSpace);
  }

  /** `strip("\n")` removes a trailing newline and nothing else from a line without other newlines. */
  lemma StripNewlinesOfLine(s: string)
    requires forall k :: 0 <= k < |s| ==> s[k] != '\n'
    ensures StripNewlines(s + "\n") == s
  {
    var t := s + "\n";
    if s == [] {
      assert t[1..] == [];
    } else {
      assert !IsNewline(t[0]);
      assert TrimStart(t, IsNewline) == t;
      assert t[..|t| - 1] == s;
      assert !IsNewline(s[|s| - 1]);
      assert TrimEnd(t, IsNewline) == TrimEnd(s, IsNewline) == s;
    }
  }

  /** SQL `text LIKE '%' || sub || '%'` for a `sub` free of `%` and `_`: `sub` occurs in `s`. */
  predicate Contains(s: string, sub: string) {
    exists i | 0 <= i <= |s| - |sub| :: OccursAt(s, sub, i)
  }

  /** `sub` occurs in `s` starting at index `i`. */
  predicate OccursAt(s: string, sub: string, i: int) {
    0 <= i <= |s| - |sub| && s[i..i + |sub|] == sub
  }

  function LowerChar(c: char): (r: char)
    ensures 'A' <= c <= 'Z' ==> r as int == c as int + 32
    ensures !('A' <= c <= 'Z') ==> r == c
  {
    if 'A' <= c <= 'Z' then (c as int + 32) as char else c
  }

  /** Lower-cases the ASCII letters of `s` and leaves every other character alone. */
  function Lower(s: string): (r: string)
    ensures |r| == |s|
    ensures forall k :: 0 <= k < |s| ==> r[k] == LowerChar(s[k])
  {
    seq(|s|, k requires 0 <= k < |s| => LowerChar(s[k]))
  }

  /** Case-insensitive substring test (ASCII case folding). */
  predicate ContainsIgnoringCase(s: string, sub: string) {
    Contains(Lower(s), Lower(sub))
  }

  /** Lower-casing is idempotent, so a lower-case pattern matches itself case-insensitively. */
  lemma ContainsIgnoringCaseReflexive(s: string)
    ensures ContainsIgnoringCase(s, s)
  {
    assert OccursAt(Lower(s), Lower(s), 0);
  }

  /** The number of occurrences of `c` in `s`. */
  function Occurrences(s: string, c: char): (n: nat)
    ensures n <= |s|
    ensures n == 0 <==> c !in s
  {
    if s == [] then 0 else Occurrences(s[..|s| - 1], c) + (if s[|s| - 1] == c then 1 else 0)
  }

  lemma {:induction false} OccurrencesAppend(a: string, b: string, c: char)
    ensures Occurrences(a + b, c) == Occurrences(a, c) + Occurrences(b, c)
    decreases |b|
  {
    if b == [] {
      assert a + b == a;
    } else {
      var b' := b[..|b| - 1];
      assert (a + b)[..|a + b| - 1] == a + b';
      OccurrencesAppend(a, b', c);
    }
  }
}
