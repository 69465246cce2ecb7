/**
 * `_extract_forum_links` (clients/telegram_client.py:180-191): the thread ids
 * of the forum links in a chat message.  Two patterns are searched, the long
 * form `<base>/thread-<digits>` and the short form `<base>/t<digits>`; each is
 * the escaped base URL, a literal and a greedy run of digits, so `re.findall`
 * amounts to a left-to-right scan for the literal followed by a digit.
 */
module ForumLinks {
  import opened Strings

  /** Number of decimal digits at the front of `s`. */
  function LeadingDigits(s: string): (n: nat)
    ensures n <= |s|
    ensures forall i :: 0 <= i < n ==> IsDigit(s[i])
    ensures n < |s| ==> !IsDigit(s[n])
  {
    if |s| > 0 && IsDigit(s[0]) then
      var m := LeadingDigits(s[1..]);
      assert forall i :: 1 <= i < 1 + m ==> s[i] == s[1..][i - 1];
      1 + m
    else 0
  }

  /** The pattern's literal `p` starts at position `k` and a digit follows it:
      the regex matches there. */
  predicate MatchAt(s: string, p: string, k: nat) {
    k + |p| < |s| && s[k..k + |p|] == p && IsDigit(s[k + |p|])
  }

  /** The regex matches at `k` and captures `m`: the literal, then `m`, a
      maximal run of digits. */
  predicate MatchedAt(s: string, p: string, k: nat, m: string) {
    && k + |p| + |m| <= |s|
    && s[k..k + |p|] == p
    && IsDigits(m)
    && s[k + |p|..k + |p| + |m|] == m
    && (k + |p| + |m| == |s| || !IsDigit(s[k + |p| + |m|]))
  }

  /** `re.findall` of the literal `p` followed by `(\d+)`: the captured digit
      runs of the non-overlapping matches, scanning from the left and
      resuming after each match. */
  function FindAll(s: string, p: string): seq<string>
    decreases |s|
  {
    if StartsWith(s, p) && LeadingDigits(s[|p|..]) > 0 then
      var d := LeadingDigits(s[|p|..]);
      [s[|p|..|p| + d]] + FindAll(s[|p| + d..], p)
    else if |s| == 0 then []
    else FindAll(s[1..], p)
  }

  lemma MatchedShift(s: string, p: string, off: nat, k: nat, m: string)
    requires off <= |s| && MatchedAt(s[off..], p, k, m)
    ensures MatchedAt(s, p, k + off, m)
  {
    var t := s[off..];
    assert s[k + off..k + off + |p|] == t[k..k + |p|];
    assert s[k + off + |p|..k + off + |p| + |m|] == t[k + |p|..k + |p| + |m|];
  }

  /** Matching behind the first `off` characters is matching `off` further on. */
  lemma MatchAtShift(s: string, p: string, off: nat, k: nat)
    requires off <= |s|
    ensures MatchAt(s[off..], p, k) <==> MatchAt(s, p, k + off)
    ensures k + off + |p| <= |s| ==> s[off..][k + |p|..] == s[k + off + |p|..]
  {
    if k + off + |p| < |s| {
      assert s[off..][k..k + |p|] == s[k + off..k + off + |p|];
    }
  }

  /** The scan takes a match at the front exactly when the regex matches there. */
  lemma FrontMatch(s: string, p: string)
    ensures StartsWith(s, p) && LeadingDigits(s[|p|..]) > 0 <==> MatchAt(s, p, 0)
  {
    if |p| < |s| {
      assert s[|p|..][0] == s[|p|];
    }
  }

  /** The scan finds nothing exactly when the literal is followed by a digit
      nowhere in the text. */
  lemma {:induction false} FindAllEmpty(s: string, p: string)
    ensures FindAll(s, p) == [] <==> forall k: nat :: !MatchAt(s, p, k)
    decreases |s|
  {
    FrontMatch(s, p);
    if StartsWith(s, p) && LeadingDigits(s[|p|..]) > 0 {
    } else if |s| > 0 {
      FindAllEmpty(s[1..], p);
      forall k: nat
        ensures MatchAt(s[1..], p, k) <==> MatchAt(s, p, k + 1)
      {
        MatchAtShift(s, p, 1, k);
      }
      if FindAll(s, p) == [] {
        forall k: nat
          ensures !MatchAt(s, p, k)
        {
          if k > 0 {
            assert !MatchAt(s[1..], p, k - 1);
          }
        }
      }
    }
  }

  /** The digits the regex captures for a match at `k`. */
  function Capture(s: string, p: string, k: nat): (m: string)
    requires k + |p| <= |s|
    ensures MatchAt(s, p, k) ==> IsDigits(m) && MatchedAt(s, p, k, m)
  {
    var t := s[k + |p|..];
    var d := LeadingDigits(t);
    assert t[..d] == s[k + |p|..k + |p| + d];
    assert d < |t| ==> t[d] == s[k + |p| + d];
    t[..d]
  }

  /** Where the scan goes on from the front of a non-empty text: behind the
      digits of a match there, one character on otherwise. */
  function Next(s: string, p: string): (e: nat)
    requires |s| > 0
    ensures 0 < e <= |s|
  {
    if MatchAt(s, p, 0) then |p| + |Capture(s, p, 0)| else 1
  }

  /** One step of the scan: the capture at the front, if any, then the scan
      from `Next` on. */
  lemma FindAllNext(s: string, p: string)
    requires |s| > 0
    ensures FindAll(s, p) == (if MatchAt(s, p, 0) then [Capture(s, p, 0)] else []) + FindAll(s[Next(s, p)..], p)
  {
    FrontMatch(s, p);
  }

  /** Each capture is a maximal run of digits right after an occurrence of the
      literal, so the `isdigit()` filter of the source never drops one. */
  lemma {:induction false} FindAllSound(s: string, p: string, m: string)
    requires m in FindAll(s, p)
    ensures IsDigits(m)
    ensures exists k: nat :: MatchedAt(s, p, k, m)
    decreases |s|
  {
    if |s| > 0 {
      FindAllNext(s, p);
      if MatchAt(s, p, 0) && m == Capture(s, p, 0) {
        assert MatchedAt(s, p, 0, m);
      } else {
        var e := Next(s, p);
        assert m in FindAll(s[e..], p);
        FindAllSound(s[e..], p, m);
        var k: nat :| MatchedAt(s[e..], p, k, m);
        MatchedShift(s, p, e, k, m);
      }
    }
  }

  /** A capture read behind the first `off` characters is the capture `off`
      further on. */
  lemma CaptureShift(s: string, p: string, off: nat, k: nat)
    requires off <= |s| && k + off + |p| <= |s|
    ensures Capture(s[off..], p, k) == Capture(s, p, k + off)
  {
    MatchAtShift(s, p, off, k);
  }

  /** The regex matches nowhere before position `k`. */
  predicate NoMatchBefore(s: string, p: string, k: nat) {
    forall j: nat :: j < k ==> !MatchAt(s, p, j)
  }

  /** A match at the front is captured first, and the scan resumes behind its digits. */
  lemma FindAllFront(s: string, p: string)
    requires MatchAt(s, p, 0)
    ensures FindAll(s, p) == [Capture(s, p, 0)] + FindAll(s[|p| + |Capture(s, p, 0)|..], p)
  {
    FrontMatch(s, p);
  }

  /** Positions before the leftmost match are scanned past without a capture. */
  lemma {:induction false} FindAllSkip(s: string, p: string, k: nat)
    requires k <= |s| && NoMatchBefore(s, p, k)
    ensures FindAll(s, p) == FindAll(s[k..], p)
    decreases k
  {
    if k > 0 {
      FindAllNext(s, p);
      assert !MatchAt(s, p, 0);
      forall j: nat | j < k - 1
        ensures !MatchAt(s[1..], p, j)
      {
        MatchAtShift(s, p, 1, j);
      }
      FindAllSkip(s[1..], p, k - 1);
      assert s[1..][k - 1..] == s[k..];
    }
  }

  /** The scan's first capture is that of the leftmost match. */
  lemma FindAllFirstMatch(s: string, p: string, k: nat)
    requires MatchAt(s, p, k) && NoMatchBefore(s, p, k)
    ensures FindAll(s, p) != [] && FindAll(s, p)[0] == Capture(s, p, k)
  {
    FindAllSkip(s, p, k);
    MatchAtShift(s, p, k, 0);
    CaptureShift(s, p, k, 0);
    FindAllFront(s[k..], p);
  }

  /** Every match that no earlier match reaches into is found: its capture is
      among the scan's results. */
  lemma {:induction false} FindAllComplete(s: string, p: string, k: nat)
    requires MatchAt(s, p, k)
    requires forall j: nat :: j < k && MatchAt(s, p, j) ==> j + |p| + |Capture(s, p, j)| <= k
    ensures Capture(s, p, k) in FindAll(s, p)
    decreases |s|
  {
    FindAllNext(s, p);
    if k > 0 {
      var e := Next(s, p);
      var t := s[e..];
      assert e <= k;
      MatchAtShift(s, p, e, k - e);
      CaptureShift(s, p, e, k - e);
      forall j: nat | j < k - e && MatchAt(t, p, j)
        ensures j + |p| + |Capture(t, p, j)| <= k - e
      {
        MatchAtShift(s, p, e, j);
        CaptureShift(s, p, e, j);
      }
      FindAllComplete(t, p, k - e);
    }
  }

  /** `int(match)` for the captures that pass `match.isdigit()`. */
  function Ids(ms: seq<string>): seq<nat> {
    if |ms| == 0 then []
    else Ids(ms[..|ms| - 1]) + (if IsDigits(Last(ms)) then [DigitsValue(Last(ms))] else [])
  }

  /** An id is listed exactly when some digit capture denotes it. */
  lemma {:induction false} IdsMembers(ms: seq<string>, x: nat)
    ensures x in Ids(ms) <==> exists m :: m in ms && IsDigits(m) && DigitsValue(m) == x
    decreases |ms|
  {
    if |ms| > 0 {
      var front := ms[..|ms| - 1];
      IdsMembers(front, x);
      assert ms == front + [Last(ms)];
      assert forall m :: m in ms <==> m in front || m == Last(ms);
    }
  }

  /** The two patterns, for a given base URL. */
  function Patterns(baseUrl: string): seq<string> {
    [baseUrl + "/thread-", baseUrl + "/t"]
  }

  /** The list `threads` after the loop has handled the patterns `ps`. */
  function PatternIds(text: string, ps: seq<string>): seq<nat> {
    if |ps| == 0 then [] else PatternIds(text, ps[..|ps| - 1]) + Ids(FindAll(text, Last(ps)))
  }

  predicate NoDuplicates(xs: seq<nat>) {
    forall i, j :: 0 <= i < j < |xs| ==> xs[i] != xs[j]
  }

  /** `list(set(xs))`: each value of `xs` once.  The source's order is that
      of a hash set; this one keeps first occurrences. */
  function Distinct(xs: seq<nat>): (r: seq<nat>)
    ensures NoDuplicates(r)
    ensures forall x :: x in r <==> x in xs
  {
    if |xs| == 0 then []
    else
      var r := Distinct(xs[..|xs| - 1]);
      assert xs == xs[..|xs| - 1] + [Last(xs)];
      if Last(xs) in r then r else r + [Last(xs)]
  }

  /** `_extract_forum_links`: the loop over the two patterns, then the
      removal of duplicates. */
  method ExtractForumLinks(text: string, baseUrl: string) returns (ids: seq<nat>)
    ensures NoDuplicates(ids)
    ensures forall x :: x in ids <==> x in PatternIds(text, Patterns(baseUrl))
  {
    var patterns := Patterns(baseUrl);
    var threads: seq<nat> := [];
    for j := 0 to |patterns|
      invariant threads == PatternIds(text, patterns[..j])
    {
      var matches := FindAll(text, patterns[j]);
      assert patterns[..j + 1][..j] == patterns[..j];
      threads := threads + Ids(matches);
    }
    assert patterns[..|patterns|] == patterns;
    ids := Distinct(threads);
  }

  /** The loop's list is the long-form ids followed by the short-form ids. */
  lemma PatternIdsOfBase(text: string, baseUrl: string)
    ensures PatternIds(text, Patterns(baseUrl))
      == Ids(FindAll(text, baseUrl + "/thread-")) + Ids(FindAll(text, baseUrl + "/t"))
  {
    var ps := Patterns(baseUrl);
    assert ps[..1] == [ps[0]];
    assert ps[..1][..0] == [];
    assert PatternIds(text, ps[..1]) == Ids(FindAll(text, ps[0]));
  }

  /** Every id returned is the value of the digits after `<base>/thread-` or
      `<base>/t` somewhere in the text. */
  lemma ForumLinkSound(text: string, baseUrl: string, x: nat)
    requires x in PatternIds(text, Patterns(baseUrl))
    ensures exists p, k: nat, m :: p in Patterns(baseUrl) && MatchedAt(text, p, k, m) && DigitsValue(m) == x
  {
    var ps := Patterns(baseUrl);
    PatternIdsOfBase(text, baseUrl);
    var p := if x in Ids(FindAll(text, ps[0])) then ps[0] else ps[1];
    IdsMembers(FindAll(text, p), x);
    var m :| m in FindAll(text, p) && IsDigits(m) && DigitsValue(m) == x;
    FindAllSound(text, p, m);
    var k: nat :| MatchedAt(text, p, k, m);
    assert p in ps;
  }

  /** Every match of either pattern that no earlier match of the same pattern
      reaches into contributes its id to the loop's list. */
  lemma ForumLinkComplete(text: string, baseUrl: string, p: string, k: nat)
    requires p in Patterns(baseUrl) && MatchAt(text, p, k)
    requires forall j: nat :: j < k && MatchAt(text, p, j) ==> j + |p| + |Capture(text, p, j)| <= k
    ensures DigitsValue(Capture(text, p, k)) in PatternIds(text, Patterns(baseUrl))
  {
    FindAllComplete(text, p, k);
    IdsMembers(FindAll(text, p), DigitsValue(Capture(text, p, k)));
    PatternIdsOfBase(text, baseUrl);
  }

  /** A message where neither literal is followed by a digit yields no id. */
  lemma NoLinkNoIds(text: string, baseUrl: string)
    requires forall k: nat :: !MatchAt(text, baseUrl + "/thread-", k) && !MatchAt(text, baseUrl + "/t", k)
    ensures PatternIds(text, Patterns(baseUrl)) == []
  {
    FindAllEmpty(text, baseUrl + "/thread-");
    FindAllEmpty(text, baseUrl + "/t");
    PatternIdsOfBase(text, baseUrl);
  }

  /** The short form never reads a long-form link at the same position: after
      `<base>/t` comes `h`, not a digit. */
  lemma PatternsDisjoint(text: string, baseUrl: string, k: nat)
    requires MatchAt(text, baseUrl + "/thread-", k)
    ensures !MatchAt(text, baseUrl + "/t", k)
  {
    var long := baseUrl + "/thread-";
    var short := baseUrl + "/t";
    assert text[k..k + |long|][|short|] == text[k + |short|];
    assert long[|short|] == 'h';
  }
}
