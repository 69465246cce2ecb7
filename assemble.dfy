/**
 * The text assembler at the end of `_parse_message_content`
 * (clients/forum_client.py:476-481): the fragments are joined with single
 * spaces, then `re.sub(r'\n\s*\n', '\n\n', ...)`, `re.sub(r' +', ' ', ...)`
 * and `strip()` are applied in that order.  The two regular expressions are
 * written out as direct string functions that make the same replacements.
 */
module Assemble {
  import opened Wrappers
  import opened Strings

  /** The position of the last newline in `s`, if there is one. */
  function LastNewline(s: string): (r: Option<nat>)
    ensures r.Some? ==> r.value < |s| && s[r.value] == '\n'
    ensures r.Some? ==> forall j :: r.value < j < |s| ==> s[j] != '\n'
    ensures r.None? ==> forall j :: 0 <= j < |s| ==> s[j] != '\n'
  {
    if |s| == 0 then None
    else if s[|s| - 1] == '\n' then Some(|s| - 1)
    else LastNewline(s[..|s| - 1])
  }

  /**
   * `re.sub(r'\n\s*\n', '\n\n', s)`.  A match starts at a newline; the greedy
   * `\s*` takes the whole whitespace run after it and gives back characters
   * until a newline follows, so the match ends at the LAST newline of that run.
   * When the run holds no newline there is no match at this position and the
   * scan moves one character on.  After a match the scan resumes behind it.
   */
  function CollapseBlankLines(s: string): string
    decreases |s|
  {
    if |s| == 0 then ""
    else if s[0] != '\n' then [s[0]] + CollapseBlankLines(s[1..])
    else if RunEnd(s).None? then "\n" + CollapseBlankLines(s[1..])
    else "\n\n" + CollapseBlankLines(s[RunEnd(s).value + 2..])
  }

  /** For a string starting at a newline: the offset, within the whitespace run
      that follows, of the run's last newline (where a match of `\n\s*\n` ends). */
  function RunEnd(s: string): (r: Option<nat>)
    requires |s| > 0
    ensures r.Some? ==> r.value + 2 <= |s|
  {
    LastNewline(s[1..1 + LeadingSpaces(s[1..])])
  }

  /** `re.sub(r' +', ' ', s)`: every run of spaces (U+0020 only) becomes one space. */
  function CollapseSpaces(s: string): (r: string)
    ensures |r| <= |s|
    ensures |s| > 0 ==> |r| > 0 && r[0] == s[0]
    decreases |s|
  {
    if |s| == 0 then ""
    else if |s| >= 2 && s[0] == ' ' && s[1] == ' ' then CollapseSpaces(s[1..])
    else [s[0]] + CollapseSpaces(s[1..])
  }

  /** The cleanup applied to the joined content (clients/forum_client.py:479-481). */
  function Clean(s: string): string {
    Strip(CollapseSpaces(CollapseBlankLines(s)))
  }

  /** The content text built from the walk's fragments (clients/forum_client.py:476-481). */
  function AssembleText(fragments: seq<string>): string {
    Clean(Join(" ", fragments))
  }

  // ---------------------------------------------------------------------------
  // The normal form the cleanup produces

  /** No two adjacent spaces. */
  predicate NoDoubleSpace(s: string) {
    forall i :: 0 <= i < |s| - 1 && s[i] == ' ' ==> s[i + 1] != ' '
  }

  /** Two newlines separated only by whitespace are adjacent: whatever `\n\s*\n`
      can still match is exactly `\n\n`. */
  predicate BlankLinesCollapsed(s: string) {
    forall i, j :: 0 <= i < j < |s| && Gap(s, i, j) ==> j == i + 1
  }

  /** Newlines at `i` and `j` with only whitespace between them. */
  predicate Gap(s: string, i: int, j: int) {
    0 <= i < j < |s| && s[i] == '\n' && s[j] == '\n' && AllSpace(s[i + 1..j])
  }

  /** Every newline of `s` comes after some non-whitespace character of `s`. */
  predicate NewlineAfterText(s: string) {
    forall j :: 0 <= j < |s| && s[j] == '\n' ==> !AllSpace(s[..j])
  }

  lemma AllSpaceCons(c: char, t: string)
    ensures AllSpace([c] + t) <==> IsSpace(c) && AllSpace(t)
  {
    if IsSpace(c) && AllSpace(t) {
      forall i | 0 <= i < |[c] + t| ensures IsSpace(([c] + t)[i]) {
        if i > 0 { assert ([c] + t)[i] == t[i - 1]; }
      }
    }
    if AllSpace([c] + t) {
      assert ([c] + t)[0] == c;
      forall i | 0 <= i < |t| ensures IsSpace(t[i]) { assert ([c] + t)[i + 1] == t[i]; }
    }
  }

  lemma NewlineAfterTextCons(c: char, t: string)
    ensures NewlineAfterText([c] + t) <==> c != '\n' && (IsSpace(c) ==> NewlineAfterText(t))
  {
    var u := [c] + t;
    assert u[..0] == [];
    forall j | 0 <= j < |t| ensures u[..j + 1] == [c] + t[..j] && u[j + 1] == t[j] {}
    forall j | 0 <= j < |t| ensures AllSpace(u[..j + 1]) <==> IsSpace(c) && AllSpace(t[..j]) {
      AllSpaceCons(c, t[..j]);
    }
    if c != '\n' && (IsSpace(c) ==> NewlineAfterText(t)) {
      forall j | 0 <= j < |u| && u[j] == '\n' ensures !AllSpace(u[..j]) {
        assert j > 0;
      }
    }
  }

  /** How `BlankLinesCollapsed` extends by one character at the front. */
  lemma BlankLinesCollapsedCons(c: char, t: string)
    requires BlankLinesCollapsed(t)
    requires c == '\n' ==> NewlineAfterText(t) || (|t| > 0 && t[0] == '\n' && NewlineAfterText(t[1..]))
    ensures BlankLinesCollapsed([c] + t)
  {
    var u := [c] + t;
    forall i, j | Gap(u, i, j)
      ensures j == i + 1
    {
      if i > 0 {
        assert u[i + 1..j] == t[i..j - 1];
        assert Gap(t, i - 1, j - 1);
      } else {
        assert u[1..j] == t[..j - 1];
        assert t[j - 1] == '\n';
        if j > 1 && !NewlineAfterText(t) {
          var w := t[1..];
          var v := w[..j - 2];
          assert w[j - 2] == '\n';
          assert AllSpace(v) by {
            forall m | 0 <= m < |v| ensures IsSpace(v[m]) {
              assert v[m] == t[..j - 1][m + 1];
            }
          }
        }
      }
    }
  }

  lemma BlankLinesCollapsedSlice(s: string, a: nat, b: nat)
    requires a <= b <= |s| && BlankLinesCollapsed(s)
    ensures BlankLinesCollapsed(s[a..b])
  {
    var u := s[a..b];
    forall i, j | Gap(u, i, j)
      ensures j == i + 1
    {
      assert s[a + i] == '\n' && s[a + j] == '\n';
      assert AllSpace(s[a + i + 1..a + j]) by {
        var w := s[a + i + 1..a + j];
        forall k | 0 <= k < |w| ensures IsSpace(w[k]) {
          assert u[i + 1..j][k] == w[k];
        }
      }
      assert Gap(s, a + i, a + j);
    }
  }

  lemma NoDoubleSpaceSlice(s: string, a: nat, b: nat)
    requires a <= b <= |s| && NoDoubleSpace(s)
    ensures NoDoubleSpace(s[a..b])
  {
    var u := s[a..b];
    forall i | 0 <= i < |u| - 1 && u[i] == ' ' ensures u[i + 1] != ' ' {
      assert u[i] == s[a + i] && u[i + 1] == s[a + i + 1];
    }
  }

  // ---------------------------------------------------------------------------
  // CollapseBlankLines

  /** Text before every newline survives the first rule. */
  lemma {:induction false} CollapseBlankLinesKeepsText(s: string)
    requires NewlineAfterText(s)
    ensures NewlineAfterText(CollapseBlankLines(s))
    decreases |s|
  {
    if |s| > 0 {
      NewlineAfterTextCons(s[0], s[1..]);
      assert [s[0]] + s[1..] == s;
      if IsSpace(s[0]) { CollapseBlankLinesKeepsText(s[1..]); }
      NewlineAfterTextCons(s[0], CollapseBlankLines(s[1..]));
    }
  }

  /** After a newline whose following whitespace run holds no further newline
      (or after the last newline of such a run) the rest starts with text. */
  lemma AfterRun(s: string, start: nat)
    requires 1 <= start <= |s| && start <= 1 + LeadingSpaces(s[1..])
    requires forall j :: start <= j < 1 + LeadingSpaces(s[1..]) ==> s[j] != '\n'
    ensures NewlineAfterText(s[start..])
  {
    var n := LeadingSpaces(s[1..]);
    var v := s[start..];
    forall j | 0 <= j < |v| && v[j] == '\n' ensures !AllSpace(v[..j]) {
      assert v[j] == s[start + j] && s[start + j] == s[1..][start + j - 1];
      assert start + j - 1 >= n;
      assert start + j - 1 != n;
      assert v[..j][1 + n - start] == s[1..][n];
    }
  }

  /** The first rule leaves no blank-line run that it could still shrink. */
  lemma {:induction false} CollapseBlankLinesNormal(s: string)
    ensures BlankLinesCollapsed(CollapseBlankLines(s))
    decreases |s|
  {
    if |s| == 0 {
    } else if s[0] != '\n' {
      CollapseBlankLinesNormal(s[1..]);
      BlankLinesCollapsedCons(s[0], CollapseBlankLines(s[1..]));
    } else {
      var n := LeadingSpaces(s[1..]);
      var run := s[1..1 + n];
      if RunEnd(s).None? {
        forall j | 1 <= j < 1 + n ensures s[j] != '\n' {
          assert run[j - 1] == s[j];
        }
        AfterRun(s, 1);
        CollapseBlankLinesNormal(s[1..]);
        CollapseBlankLinesKeepsText(s[1..]);
        BlankLinesCollapsedCons('\n', CollapseBlankLines(s[1..]));
      } else {
        var k := RunEnd(s).value;
        var v := s[k + 2..];
        var w := CollapseBlankLines(v);
        forall j | k + 2 <= j < 1 + n ensures s[j] != '\n' {
          assert run[j - 1] == s[j];
        }
        AfterRun(s, k + 2);
        CollapseBlankLinesNormal(v);
        CollapseBlankLinesKeepsText(v);
        BlankLinesCollapsedCons('\n', w);
        assert ("\n" + w)[1..] == w;
        BlankLinesCollapsedCons('\n', "\n" + w);
        assert "\n\n" + w == ['\n'] + ("\n" + w);
      }
    }
  }

  /** The first rule changes nothing on a string already in its normal form. */
  lemma {:induction false} CollapseBlankLinesFixed(s: string)
    requires BlankLinesCollapsed(s)
    ensures CollapseBlankLines(s) == s
    decreases |s|
  {
    if |s| > 0 {
      BlankLinesCollapsedSlice(s, 1, |s|);
      assert s[1..|s|] == s[1..];
      if s[0] != '\n' {
        CollapseBlankLinesFixed(s[1..]);
      } else {
        var n := LeadingSpaces(s[1..]);
        var run := s[1..1 + n];
        if RunEnd(s).None? {
          CollapseBlankLinesFixed(s[1..]);
        } else {
          var k := RunEnd(s).value;
          assert s[1 + k] == run[k];
          assert AllSpace(s[1..1 + k]) by {
            var w := s[1..1 + k];
            forall m | 0 <= m < |w| ensures IsSpace(w[m]) {
              assert w[m] == s[1..][..n][m];
            }
          }
          assert Gap(s, 0, 1 + k);
          BlankLinesCollapsedSlice(s, 2, |s|);
          assert s[2..|s|] == s[2..];
          CollapseBlankLinesFixed(s[2..]);
          assert s == "\n\n" + s[2..];
        }
      }
    }
  }

  // ---------------------------------------------------------------------------
  // CollapseSpaces

  lemma {:induction false} CollapseSpacesNormal(s: string)
    ensures NoDoubleSpace(CollapseSpaces(s))
    decreases |s|
  {
    if |s| > 0 {
      CollapseSpacesNormal(s[1..]);
      var r := CollapseSpaces(s);
      if !(|s| >= 2 && s[0] == ' ' && s[1] == ' ') {
        var t := CollapseSpaces(s[1..]);
        forall i | 0 <= i < |r| - 1 && r[i] == ' ' ensures r[i + 1] != ' ' {
          if i > 0 { assert r[i] == t[i - 1] && r[i + 1] == t[i]; }
        }
      }
    }
  }

  lemma {:induction false} CollapseSpacesFixed(s: string)
    requires NoDoubleSpace(s)
    ensures CollapseSpaces(s) == s
    decreases |s|
  {
    if |s| > 0 {
      NoDoubleSpaceSlice(s, 1, |s|);
      assert s[1..|s|] == s[1..];
      CollapseSpacesFixed(s[1..]);
    }
  }

  lemma {:induction false} CollapseSpacesKeepsText(s: string)
    requires NewlineAfterText(s)
    ensures NewlineAfterText(CollapseSpaces(s))
    decreases |s|
  {
    if |s| > 0 {
      NewlineAfterTextCons(s[0], s[1..]);
      assert [s[0]] + s[1..] == s;
      if |s| >= 2 && s[0] == ' ' && s[1] == ' ' {
        CollapseSpacesKeepsText(s[1..]);
      } else {
        if IsSpace(s[0]) { CollapseSpacesKeepsText(s[1..]); }
        NewlineAfterTextCons(s[0], CollapseSpaces(s[1..]));
      }
    }
  }

  /** Merging spaces never makes two newlines closer in whitespace terms. */
  lemma {:induction false} CollapseSpacesKeepsBlankLines(s: string)
    requires BlankLinesCollapsed(s)
    ensures BlankLinesCollapsed(CollapseSpaces(s))
    decreases |s|
  {
    if |s| > 0 {
      BlankLinesCollapsedSlice(s, 1, |s|);
      assert s[1..|s|] == s[1..];
      CollapseSpacesKeepsBlankLines(s[1..]);
      if !(|s| >= 2 && s[0] == ' ' && s[1] == ' ') {
        var t := s[1..];
        assert s == [s[0]] + t;
        if s[0] == '\n' {
          if |t| > 0 && t[0] == '\n' {
            // `t` cannot hold `\n ws* \n` after its first newline, so its tail starts with text
            assert NewlineAfterText(t[1..]) by {
              forall j | 0 <= j < |t[1..]| && t[1..][j] == '\n' ensures !AllSpace(t[1..][..j]) {
                assert s[1] == '\n' && s[j + 2] == '\n';
                if AllSpace(t[1..][..j]) {
                  assert s[1..j + 2] == [s[1]] + t[1..][..j];
                  AllSpaceCons(s[1], t[1..][..j]);
                  assert Gap(s, 0, j + 2);
                  assert false;
                }
              }
            }
            CollapseSpacesKeepsText(t[1..]);
            assert CollapseSpaces(t) == ['\n'] + CollapseSpaces(t[1..]);
            assert CollapseSpaces(t)[1..] == CollapseSpaces(t[1..]);
          } else {
            assert NewlineAfterText(t) by {
              forall j | 0 <= j < |t| && t[j] == '\n' ensures !AllSpace(t[..j]) {
                assert s[j + 1] == '\n';
                if AllSpace(t[..j]) {
                  assert s[1..j + 1] == t[..j];
                  assert Gap(s, 0, j + 1);
                }
              }
            }
            CollapseSpacesKeepsText(t);
          }
        }
        BlankLinesCollapsedCons(s[0], CollapseSpaces(t));
      }
    }
  }

  // ---------------------------------------------------------------------------
  // The whole cleanup

  /** The cleaned text has no leading or trailing whitespace, no two adjacent
      spaces, and no `\n ws* \n` run other than a plain `\n\n`. */
  lemma CleanNormalForm(s: string)
    ensures Trimmed(Clean(s))
    ensures NoDoubleSpace(Clean(s))
    ensures BlankLinesCollapsed(Clean(s))
  {
    var b := CollapseBlankLines(s);
    var c := CollapseSpaces(b);
    CollapseBlankLinesNormal(s);
    CollapseSpacesNormal(b);
    CollapseSpacesKeepsBlankLines(b);
    var a := LeadingSpaces(c);
    var r := Strip(c);
    NoDoubleSpaceSlice(c, a, a + |r|);
    BlankLinesCollapsedSlice(c, a, a + |r|);
  }

  /** In particular the cleaned text never holds three newlines in a row. */
  lemma NoTripleNewline(s: string)
    requires BlankLinesCollapsed(s)
    ensures forall i :: 0 <= i < |s| - 2 && s[i] == '\n' && s[i + 1] == '\n' ==> s[i + 2] != '\n'
  {
    forall i | 0 <= i < |s| - 2 && s[i] == '\n' && s[i + 1] == '\n' ensures s[i + 2] != '\n' {
      assert s[i + 1..i + 2] == [s[i + 1]];
      assert Gap(s, i, i + 2) ==> i + 2 == i + 1;
    }
  }

  /** Cleaning an already-cleaned text changes nothing. */
  lemma CleanIdempotent(s: string)
    ensures Clean(Clean(s)) == Clean(s)
  {
    var t := Clean(s);
    CleanNormalForm(s);
    CollapseBlankLinesFixed(t);
    CollapseSpacesFixed(t);
    StripTrimmed(t);
  }
}
