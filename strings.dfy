/**
 * The string operations of Python's `str` that the extraction code relies on:
 * whitespace stripping, substring tests, `split`, `join`, `replace`, ASCII
 * lower-casing and decimal digits.
 */
module Strings {

  /** Python's `str.isspace()` on one character; `\s` in a `str` regex matches the same set. */
  predicate IsSpace(c: char) {
    || ('\t' <= c <= '\r')
    || ('\U{1C}' <= c <= '\U{1F}')
    || c == ' '
    || c == '\U{85}'
    || c == '\U{A0}'
    || c == '\U{1680}'
    || ('\U{2000}' <= c <= '\U{200A}')
    || c == '\U{2028}'
    || c == '\U{2029}'
    || c == '\U{202F}'
    || c == '\U{205F}'
    || c == '\U{3000}'
  }

  predicate AllSpace(s: string) {
    forall i :: 0 <= i < |s| ==> IsSpace(s[i])
  }

  /** A string that `strip()` leaves unchanged: empty, or neither end is whitespace. */
  predicate Trimmed(s: string) {
    s == [] || (!IsSpace(s[0]) && !IsSpace(s[|s| - 1]))
  }

  /** Number of whitespace characters at the front of `s`. */
  function LeadingSpaces(s: string): (n: nat)
    ensures n <= |s| && AllSpace(s[..n])
    ensures n < |s| ==> !IsSpace(s[n])
  {
    if |s| > 0 && IsSpace(s[0]) then
      var m := LeadingSpaces(s[1..]);
      1 + m
    else
      0
  }

  /** Number of whitespace characters at the end of `s`. */
  function TrailingSpaces(s: string): (n: nat)
    ensures n <= |s| && AllSpace(s[|s| - n..])
    ensures n < |s| ==> !IsSpace(s[|s| - 1 - n])
  {
    if |s| > 0 && IsSpace(s[|s| - 1]) then
      var t := s[..|s| - 1];
      var m := TrailingSpaces(t);
      assert forall i :: |t| - m <= i < |t| ==> IsSpace(s[i]) by {
        forall i | |t| - m <= i < |t|
          ensures IsSpace(s[i])
        {
          assert s[i] == t[|t| - m..][i - (|t| - m)];
        }
      }
      assert m < |t| ==> s[|t| - 1 - m] == t[|t| - 1 - m];
      1 + m
    else
      0
  }

  /** Python's `s.strip()`: `s` without its leading and trailing whitespace. */
  function Strip(s: string): (r: string)
    ensures r == [] <==> AllSpace(s)
    ensures Trimmed(r)
    ensures LeadingSpaces(s) + |r| <= |s|
    ensures r == s[LeadingSpaces(s)..LeadingSpaces(s) + |r|]
    ensures AllSpace(s[LeadingSpaces(s) + |r|..])
  {
    var a := LeadingSpaces(s);
    if a == |s| then
      assert s[..a] == s;
      ""
    else
      var t := TrailingSpaces(s);
      s[a..|s| - t]
  }

  /** `strip()` leaves a trimmed string unchanged. */
  lemma StripTrimmed(s: string)
    requires Trimmed(s)
    ensures Strip(s) == s
  {
  }

  /** `p` is a prefix of `s` (Python's `s.startswith(p)`). */
  predicate StartsWith(s: string, p: string) {
    |p| <= |s| && s[..|p|] == p
  }

  /** `sub` occurs in `s` (Python's `sub in s`). */
  predicate Contains(s: string, sub: string)
    decreases |s|
  {
    if |sub| > |s| then false
    else s[..|sub|] == sub || (|s| > 0 && Contains(s[1..], sub))
  }

  /** An occurrence of `sub` at position `k` gives `Contains`. */
  lemma {:induction false} ContainsAt(s: string, sub: string, k: nat)
    requires k + |sub| <= |s| && s[k..k + |sub|] == sub
    ensures Contains(s, sub)
    decreases k
  {
    if k > 0 {
      assert s[1..][k - 1..k - 1 + |sub|] == sub;
      ContainsAt(s[1..], sub, k - 1);
    }
  }

  /** A string shorter than `sub`, or free of a character `sub` needs, does not contain it. */
  lemma {:induction false} NotContainsChar(s: string, sub: string, c: char)
    requires |sub| > 0 && sub[0] == c && c !in s
    ensures !Contains(s, sub)
    decreases |s|
  {
    if |sub| <= |s| {
      assert s[..|sub|][0] == s[0];
      if |s| > 0 { NotContainsChar(s[1..], sub, c); }
    }
  }

  function LowerChar(c: char): char {
    if 'A' <= c <= 'Z' then (c as int + 32) as char else c
  }

  /** ASCII lower-casing, standing for Python's `str.lower()`. */
  function Lower(s: string): (r: string)
    ensures |r| == |s|
  {
    if |s| == 0 then [] else [LowerChar(s[0])] + Lower(s[1..])
  }

  /** Python's `sep.join(parts)`. */
  function Join(sep: string, parts: seq<string>): string {
    if |parts| == 0 then ""
    else if |parts| == 1 then parts[0]
    else parts[0] + sep + Join(sep, parts[1..])
  }

  /** Python's `s.split(sep)` for a non-empty separator: the pieces between the
      non-overlapping occurrences of `sep`, found from the left. */
  function SplitOn(s: string, sep: string): (r: seq<string>)
    requires |sep| > 0
    ensures |r| >= 1 && StartsWith(s, r[0])
    decreases |s|
  {
    if |s| < |sep| then [s]
    else if s[..|sep|] == sep then [""] + SplitOn(s[|sep|..], sep)
    else
      var rest := SplitOn(s[1..], sep);
      [[s[0]] + rest[0]] + rest[1..]
  }

  /** Joining the pieces of a split with the separator gives back the string. */
  lemma {:induction false} JoinSplitOn(s: string, sep: string)
    requires |sep| > 0
    ensures Join(sep, SplitOn(s, sep)) == s
    decreases |s|
  {
    if |s| < |sep| {
    } else if s[..|sep|] == sep {
      var rest := SplitOn(s[|sep|..], sep);
      JoinSplitOn(s[|sep|..], sep);
      assert ([""] + rest)[1..] == rest;
      assert Join(sep, [""] + rest) == "" + sep + Join(sep, rest);
      assert s == "" + sep + s[|sep|..];
    } else {
      JoinSplitOn(s[1..], sep);
      JoinPrepend(sep, [s[0]], SplitOn(s[1..], sep));
      assert s == [s[0]] + s[1..];
    }
  }

  /** Gluing `h` to the front of the first part glues it to the front of the join. */
  lemma JoinPrepend(sep: string, h: string, parts: seq<string>)
    requires |parts| > 0
    ensures Join(sep, [h + parts[0]] + parts[1..]) == h + Join(sep, parts)
  {
    var r := [h + parts[0]] + parts[1..];
    if |parts| > 1 {
      assert r[1..] == parts[1..];
      assert h + parts[0] + sep + Join(sep, parts[1..]) == h + (parts[0] + sep + Join(sep, parts[1..]));
    }
  }

  /** The first piece of a split is the whole string, or is followed by the
      separator.  For a separator that cannot overlap itself (`?`, `&`, `t=`,
      `\n`, `widget`) this makes `split(sep)[0]` what precedes the first `sep`. */
  lemma SplitOnFirst(s: string, sep: string)
    requires |sep| > 0
    ensures var r := SplitOn(s, sep);
      s == r[0] || StartsWith(s, r[0] + sep)
  {
    var r := SplitOn(s, sep);
    JoinSplitOn(s, sep);
    if |r| > 1 {
      assert s == r[0] + sep + Join(sep, r[1..]);
      assert (r[0] + sep + Join(sep, r[1..]))[..|r[0] + sep|] == r[0] + sep;
    }
  }

  /** `s` ends with `t`. */
  predicate EndsWith(s: string, t: string) {
    |t| <= |s| && s[|s| - |t|..] == t
  }

  /** A join of two or more parts ends with the separator and the last part. */
  lemma {:induction false} JoinEndsWith(sep: string, parts: seq<string>)
    requires |parts| >= 2
    ensures EndsWith(Join(sep, parts), sep + Last(parts))
    decreases |parts|
  {
    var rest := parts[1..];
    assert Last(rest) == Last(parts);
    if |parts| == 2 {
      assert Join(sep, rest) == parts[1];
      assert Join(sep, parts) == parts[0] + (sep + parts[1]);
    } else {
      JoinEndsWith(sep, rest);
      var j := Join(sep, rest);
      assert Join(sep, parts) == (parts[0] + sep) + j;
      assert ((parts[0] + sep) + j)[|(parts[0] + sep) + j| - |sep + Last(parts)|..] == j[|j| - |sep + Last(parts)|..];
    }
  }

  /** The last piece of a split is the whole string, or follows a separator
      at the string's end.  For a separator that cannot overlap itself this
      makes `split(sep)[-1]` what follows the last `sep`. */
  lemma SplitOnLast(s: string, sep: string)
    requires |sep| > 0
    ensures var r := SplitOn(s, sep);
      (|r| == 1 && s == Last(r)) || (|r| >= 2 && EndsWith(s, sep + Last(r)))
  {
    var r := SplitOn(s, sep);
    JoinSplitOn(s, sep);
    if |r| >= 2 {
      JoinEndsWith(sep, r);
    }
  }

  /** No piece of a split contains the separator. */
  lemma {:induction false} SplitOnPieces(s: string, sep: string)
    requires |sep| > 0
    ensures forall i :: 0 <= i < |SplitOn(s, sep)| ==> !Contains(SplitOn(s, sep)[i], sep)
    decreases |s|
  {
    if |s| < |sep| {
    } else if s[..|sep|] == sep {
      SplitOnPieces(s[|sep|..], sep);
      var r := SplitOn(s, sep);
      assert forall i :: 1 <= i < |r| ==> r[i] == SplitOn(s[|sep|..], sep)[i - 1];
    } else {
      var rest := SplitOn(s[1..], sep);
      SplitOnPieces(s[1..], sep);
      var head := [s[0]] + rest[0];
      assert head == s[..|head|];
      if |sep| <= |head| {
        assert head[..|sep|] == s[..|sep|];
        assert head[1..] == rest[0];
      }
      var r := SplitOn(s, sep);
      assert forall i :: 1 <= i < |r| ==> r[i] == rest[i];
    }
  }

  /** Python's `s.replace(target, replacement)`: every non-overlapping occurrence from the left replaced. */
  function ReplaceAll(s: string, target: string, replacement: string): string
    requires |target| > 0
  {
    Join(replacement, SplitOn(s, target))
  }

  /** A string without the separator splits into itself alone. */
  lemma {:induction false} SplitOnAbsent(s: string, sep: string)
    requires |sep| > 0 && !Contains(s, sep)
    ensures SplitOn(s, sep) == [s]
    decreases |s|
  {
    if |s| >= |sep| {
      assert s[..|sep|] != sep;
      SplitOnAbsent(s[1..], sep);
      assert [s[0]] + s[1..] == s;
    }
  }

  /** `replace` puts the replacement exactly where the target stood: the
      string and its replacement are the same pieces, none holding the target,
      joined once with the target and once with the replacement. */
  lemma ReplaceAllShape(s: string, target: string, replacement: string)
    requires |target| > 0
    ensures exists parts: seq<string> ::
      && s == Join(target, parts)
      && ReplaceAll(s, target, replacement) == Join(replacement, parts)
      && forall i :: 0 <= i < |parts| ==> !Contains(parts[i], target)
  {
    var parts := SplitOn(s, target);
    JoinSplitOn(s, target);
    SplitOnPieces(s, target);
    assert s == Join(target, parts);
  }

  /** Replacing a target that does not occur changes nothing. */
  lemma ReplaceAllAbsent(s: string, target: string, replacement: string)
    requires |target| > 0 && !Contains(s, target)
    ensures ReplaceAll(s, target, replacement) == s
  {
    SplitOnAbsent(s, target);
  }

  predicate IsDigit(c: char) {
    '0' <= c <= '9'
  }

  /** Python's `s.isdigit()` on ASCII text: non-empty and all decimal digits. */
  predicate IsDigits(s: string) {
    |s| > 0 && forall i :: 0 <= i < |s| ==> IsDigit(s[i])
  }

  /** The value of a run of decimal digits (Python's `int(s)`). */
  function DigitsValue(s: string): nat
    requires forall i :: 0 <= i < |s| ==> IsDigit(s[i])
  {
    if |s| == 0 then 0
    else
      assert IsDigit(s[|s| - 1]);
      DigitsValue(s[..|s| - 1]) * 10 + (s[|s| - 1] as int - '0' as int)
  }

  function Last<T>(s: seq<T>): T
    requires |s| > 0
  {
    s[|s| - 1]
  }
}
