/**
 * Properties of the walk of `_parse_message_content`
 * (clients/forum_client.py:301-487), stated over the functions that specify it.
 */
module WalkProperties {
  import opened Wrappers
  import opened Strings
  import opened Urls
  import opened Markup
  import opened Assemble
  import opened Content

  // ---------------------------------------------------------------------------
  // Which children lose their tail

  /** A link whose target holds `javascript:`, reached after the Steam and
      anchor rules and with both a target and a text. */
  predicate JavascriptLink(c: Node)
    requires c.Element?
  {
    var href := Attr(c, "href");
    && !Contains(Lower(href), "steam") && !StartsWith(href, "#")
    && href != "" && TextOr(c) != "" && Contains(href, "javascript:")
  }

  /** The caption span after a Steam widget that the armed flag suppresses. */
  predicate SuppressedSpan(c: Node, armed: bool)
    requires c.Element?
  {
    Lower(c.tag) == "span" && armed && IsCaptionStyle(Attr(c, "style")) && MentionsSteam(c)
  }

  /** The children whose branch ends in `continue`: a `javascript:` link, a
      suppressed caption span, a span or div with a skipped class, and a
      script, style or noscript element. */
  predicate DropsTail(c: Node, armed: bool)
    requires c.Element?
  {
    DropsTailAt(c, Lower(c.tag), armed)
  }

  predicate DropsTailAt(c: Node, tag: string, armed: bool)
    requires c.Element?
  {
    || (tag == "a" && JavascriptLink(c))
    || (tag == "span" && armed && IsCaptionStyle(Attr(c, "style")) && MentionsSteam(c))
    || ((tag == "span" || tag == "div") && IsSkipClass(Attr(c, "class")))
    || IsScriptLike(tag)
  }

  /** The longer tags that an earlier rule takes contain none of `script`,
      `style` and `noscript` (the shorter ones are too short to). */
  lemma StrongNotScriptLike()
    ensures !IsScriptLike("strong")
  {
    assert !Contains("strong", "script") by { assert "strong"[1] != "script"[1]; }
    assert !Contains("strong", "style") by {
      NotContainsChar("trong", "style", 's');
      assert "strong"[1..] == "trong";
      assert "strong"[5] != "style"[4];
    }
  }

  lemma IframeNotScriptLike()
    ensures !IsScriptLike("iframe")
  {
    NotContainsChar("iframe", "script", 's');
    NotContainsChar("iframe", "style", 's');
  }

  lemma BlockquoteNotScriptLike()
    ensures !IsScriptLike("blockquote")
  {
    NotContainsChar("blockquote", "noscript", 'n');
    NotContainsChar("blockquote", "script", 's');
    NotContainsChar("blockquote", "style", 's');
  }

  /** A child that does not raise keeps its tail exactly when its branch does
      not end in `continue`. */
  lemma DroppedTail(c: Node, armed: bool, env: Env)
    requires c.Element? && WalkChild(c, armed, env).Some?
    ensures WalkChild(c, armed, env).value.keepsTail <==> !DropsTail(c, armed)
  {
    ChildRuleTail(c, Lower(c.tag), armed, env);
  }

  lemma ChildRuleTail(c: Node, tag: string, armed: bool, env: Env)
    requires c.Element? && ChildRule(c, tag, armed, env).Some?
    ensures ChildRule(c, tag, armed, env).value.keepsTail <==> !DropsTailAt(c, tag, armed)
  {
    if tag == "img" || tag == "br" || tag in Headings {
      assert ChildRule(c, tag, armed, env).value.keepsTail;
    } else if tag == "a" {
      assert ChildRule(c, tag, armed, env) == Some(LinkStep(c, armed, env));
    } else if tag == "iframe" {
      IframeNotScriptLike();
      assert ChildRule(c, tag, armed, env) == FrameStep(c, armed, env);
    } else if tag == "blockquote" {
      BlockquoteNotScriptLike();
      assert ChildRule(c, tag, armed, env).value.keepsTail;
    } else {
      assert ChildRule(c, tag, armed, env) == ContainerRule(c, tag, armed, env);
      ContainerRuleTail(c, tag, armed, env);
    }
  }

  lemma ContainerRuleTail(c: Node, tag: string, armed: bool, env: Env)
    requires c.Element? && tag != "a" && ContainerRule(c, tag, armed, env).Some?
    ensures ContainerRule(c, tag, armed, env).value.keepsTail <==> !DropsTailAt(c, tag, armed)
  {
    if tag == "span" && armed && IsCaptionStyle(Attr(c, "style")) && MentionsSteam(c) {
    } else if (tag == "span" || tag == "div") && IsSkipClass(Attr(c, "class")) {
    } else if tag == "span" || tag == "div" {
      assert ContainerRule(c, tag, armed, env) == Recurse(c, armed, env);
    } else {
      assert ContainerRule(c, tag, armed, env) == FormatRule(c, tag, armed, env);
      FormatRuleTail(c, tag, armed, env);
    }
  }

  /** In the last group of rules the tail is lost exactly by the script rule. */
  lemma FormatRuleTail(c: Node, tag: string, armed: bool, env: Env)
    requires c.Element? && FormatRule(c, tag, armed, env).Some?
    ensures FormatRule(c, tag, armed, env).value.keepsTail <==> !IsScriptLike(tag)
  {
    if tag == "strong" {
      StrongNotScriptLike();
    } else if tag == "b" || tag == "em" || tag == "i" || ((tag == "p" || tag == "div") && TextOr(c) != "") {
      assert FormatRule(c, tag, armed, env).value.keepsTail;
    } else if !IsScriptLike(tag) {
      assert FormatRule(c, tag, armed, env) == Recurse(c, armed, env);
    }
  }

  // ---------------------------------------------------------------------------
  // The rules for links and frames

  /** A link emits at most one fragment and never moves the flag; it emits
      nothing exactly when it is a `javascript:` link or, outside the Steam
      rule, has no text. A Steam link shows its text, or its target when it
      has none; an in-page anchor and a link without target or text show
      only the text; any other link shows its text and its target, the
      target with the base URL in front when it is a `/` path. */
  lemma LinkRules(c: Node, armed: bool, env: Env)
    requires c.Element?
    ensures var st := LinkStep(c, armed, env);
      && |st.fragments| <= 1 && st.armed == armed
      && (st.fragments == [] <==> JavascriptLink(c) || (!Contains(Lower(Attr(c, "href")), "steam") && TextOr(c) == ""))
      && (!st.keepsTail <==> JavascriptLink(c))
      && (Contains(Lower(Attr(c, "href")), "steam") ==> StartsWith(st.fragments[0], "[Steam链接: "))
    ensures var st := LinkStep(c, armed, env);
      var href := Attr(c, "href");
      var text := TextOr(c);
      && (Contains(Lower(href), "steam") ==>
            st.fragments == ["[Steam链接: " + (if text != "" then text else href) + "]"])
      && (!Contains(Lower(href), "steam") && (StartsWith(href, "#") || href == "" || text == "") ==>
            st.fragments == (if text != "" then [text] else []))
      && (!Contains(Lower(href), "steam") && !StartsWith(href, "#") && href != "" && text != ""
          && !Contains(href, "javascript:") ==>
            exists target ::
              && st.fragments == ["[链接: " + text + " - " + target + "]"]
              && (if StartsWith(href, "/") then target == env.baseUrl + href else target == href))
  {
    var href := Attr(c, "href");
    var text := TextOr(c);
    if !Contains(Lower(href), "steam") && !StartsWith(href, "#") && href != "" && text != ""
       && !Contains(href, "javascript:") {
      assert LinkStep(c, armed, env).fragments == ["[链接: " + text + " - " + ResolveHref(env.baseUrl, href) + "]"];
    }
    var st := LinkStep(c, armed, env);
    if Contains(Lower(Attr(c, "href")), "steam") {
      var shown := if TextOr(c) != "" then TextOr(c) else Attr(c, "href");
      assert st.fragments[0] == "[Steam链接: " + (shown + "]");
    }
  }

  /** The widget address is the rewritten source cut at its first `?`: it
      holds no `?`, and it is the whole rewritten source or is followed there
      by a `?`. */
  lemma WidgetUrlShape(src: string)
    ensures !Contains(WidgetUrl(src), "?")
    ensures var rewritten := if Contains(src, "widget") then ReplaceAll(src, "widget", "app") else src;
      rewritten == WidgetUrl(src) || StartsWith(rewritten, WidgetUrl(src) + "?")
  {
    var rewritten := if Contains(src, "widget") then ReplaceAll(src, "widget", "app") else src;
    SplitOnPieces(rewritten, "?");
    SplitOnFirst(rewritten, "?");
  }

  /** The `if 'widget' in src` guard changes nothing: the rewritten source is
      `src.replace('widget', 'app')` either way, which holds `app` wherever the
      source held `widget` and is otherwise the source. */
  lemma WidgetRewrite(src: string)
    ensures var rewritten := if Contains(src, "widget") then ReplaceAll(src, "widget", "app") else src;
      && rewritten == ReplaceAll(src, "widget", "app")
      && exists parts: seq<string> ::
        && src == Join("widget", parts)
        && rewritten == Join("app", parts)
        && forall i :: 0 <= i < |parts| ==> !Contains(parts[i], "widget")
  {
    if !Contains(src, "widget") {
      ReplaceAllAbsent(src, "widget", "app");
    }
    ReplaceAllShape(src, "widget", "app");
  }

  /** The countdown parameter is taken from the text after the last `t=` of
      the source (a piece holding no `t=` that the source ends with), cut at
      that piece's first `&`. */
  lemma CountdownParamShape(src: string)
    ensures !Contains(CountdownParam(src), "&")
    ensures var piece := Last(SplitOn(src, "t="));
      && !Contains(piece, "t=")
      && (src == piece || EndsWith(src, "t=" + piece))
      && (piece == CountdownParam(src) || StartsWith(piece, CountdownParam(src) + "&"))
  {
    var pieces := SplitOn(src, "t=");
    var piece := Last(pieces);
    SplitOnPieces(src, "t=");
    assert !Contains(pieces[|pieces| - 1], "t=");
    SplitOnLast(src, "t=");
    SplitOnPieces(piece, "&");
    SplitOnFirst(piece, "&");
  }

  /** A Steam frame emits its widget marker and arms the flag; any other frame
      leaves the flag as it was, and a countdown frame whose parameter is not
      all digits emits nothing. */
  lemma FrameRules(c: Node, armed: bool, env: Env)
    requires c.Element?
    ensures var src := Attr(c, "src");
      var r := FrameStep(c, armed, env);
      && (Contains(Lower(src), "steam") ==> r == Some(Step(["[Steam小部件: " + WidgetUrl(src) + "]"], true, true)))
      && (!Contains(Lower(src), "steam") && r.Some? ==> r.value.armed == armed && |r.value.fragments| <= 1)
      && (!Contains(Lower(src), "steam") && Contains(Lower(src), "countdown") && !IsDigits(CountdownParam(src)) ==> r == Some(Step([], armed, true)))
      && (r.None? <==> !Contains(Lower(src), "steam") && Contains(Lower(src), "countdown") && IsDigits(CountdownParam(src))
                       && env.localTime(DigitsValue(CountdownParam(src))).None?)
  {
  }

  // ---------------------------------------------------------------------------
  // Span suppression

  /** A suppressed caption span emits nothing, loses its tail and clears the
      flag; a span that is not suppressed and has no skipped class is walked
      in place with the flag as it was. */
  lemma SpanRules(c: Node, armed: bool, env: Env)
    requires c.Element? && Lower(c.tag) == "span"
    ensures SuppressedSpan(c, armed) ==> WalkChild(c, armed, env) == Some(Step([], false, false))
    ensures !SuppressedSpan(c, armed) && !IsSkipClass(Attr(c, "class")) ==> WalkChild(c, armed, env) == Recurse(c, armed, env)
    ensures !SuppressedSpan(c, armed) && IsSkipClass(Attr(c, "class")) ==> WalkChild(c, armed, env) == Some(Step([], armed, false))
  {
    assert WalkChild(c, armed, env) == ChildRule(c, "span", armed, env);
    assert "span" !in Headings;
    assert ChildRule(c, "span", armed, env) == ContainerRule(c, "span", armed, env);
  }

  /** A `div` never takes the paragraph rule: it is skipped or walked in place. */
  lemma DivNeverParagraph(c: Node, armed: bool, env: Env)
    requires c.Element? && Lower(c.tag) == "div"
    ensures IsSkipClass(Attr(c, "class")) ==> WalkChild(c, armed, env) == Some(Step([], armed, false))
    ensures !IsSkipClass(Attr(c, "class")) ==> WalkChild(c, armed, env) == Recurse(c, armed, env)
  {
    assert WalkChild(c, armed, env) == ChildRule(c, "div", armed, env);
    assert "div" !in Headings;
    assert ChildRule(c, "div", armed, env) == ContainerRule(c, "div", armed, env);
  }

  // ---------------------------------------------------------------------------
  // Quotes

  /** `> ` in front of a source line that is not blank. */
  predicate QuotedLine(l: string) {
    StartsWith(l, "> ") && Strip(l[2..]) != ""
  }

  predicate AllQuoted(r: seq<string>) {
    forall k :: 0 <= k < |r| ==> QuotedLine(r[k])
  }

  /** Every line of a quote is a quoted, non-blank source line. */
  lemma {:induction false} QuoteLinesShape(lines: seq<string>)
    ensures AllQuoted(QuoteLines(lines))
    decreases |lines|
  {
    if |lines| > 0 {
      QuoteLinesShape(lines[1..]);
      var head := if Strip(lines[0]) != "" then ["> " + lines[0]] else [];
      assert QuoteLines(lines) == head + QuoteLines(lines[1..]);
      if head != [] {
        assert head[0][2..] == lines[0];
      }
    }
  }

  /** A quote has no lines exactly when every source line is blank. */
  lemma {:induction false} QuoteLinesEmpty(lines: seq<string>)
    ensures QuoteLines(lines) == [] <==> AllBlank(lines)
    decreases |lines|
  {
    if |lines| > 0 {
      QuoteLinesEmpty(lines[1..]);
      AllBlankCons(lines);
    }
  }

  /** The quote of two runs of lines is the quote of each in turn: the quote
      keeps the order of its source lines. */
  lemma {:induction false} QuoteLinesAppend(a: seq<string>, b: seq<string>)
    ensures QuoteLines(a + b) == QuoteLines(a) + QuoteLines(b)
    decreases |a|
  {
    if |a| > 0 {
      assert (a + b)[0] == a[0];
      assert (a + b)[1..] == a[1..] + b;
      QuoteLinesAppend(a[1..], b);
    } else {
      assert a + b == b;
    }
  }

  /** A quote line is `> ` in front of a non-blank source line, and every
      non-blank source line gives one. */
  lemma {:induction false} QuoteLinesMembers(lines: seq<string>, q: string)
    ensures q in QuoteLines(lines) <==> exists j :: 0 <= j < |lines| && Strip(lines[j]) != "" && q == "> " + lines[j]
    decreases |lines|
  {
    if |lines| > 0 {
      var rest := lines[1..];
      QuoteLinesMembers(rest, q);
      assert forall j :: 0 <= j < |rest| ==> rest[j] == lines[j + 1];
      if exists j :: 0 <= j < |lines| && Strip(lines[j]) != "" && q == "> " + lines[j] {
        var j :| 0 <= j < |lines| && Strip(lines[j]) != "" && q == "> " + lines[j];
        if j > 0 {
          assert rest[j - 1] == lines[j];
        }
      }
    }
  }

  // ---------------------------------------------------------------------------
  // Every fragment is a non-empty string

  predicate AllNonEmpty(fs: seq<string>) {
    forall k :: 0 <= k < |fs| ==> fs[k] != ""
  }

  lemma AllNonEmptyAppend(a: seq<string>, b: seq<string>)
    requires AllNonEmpty(a) && AllNonEmpty(b)
    ensures AllNonEmpty(a + b)
  {
    assert forall k :: |a| <= k < |a + b| ==> (a + b)[k] == b[k - |a|];
  }

  /** No walk emits an empty fragment; in particular a blank text or tail
      never becomes one. */
  lemma {:induction false} WalkElementNonEmpty(e: Node, armed: bool, env: Env)
    requires e.Element?
    ensures WalkElement(e, armed, env).Some? ==> AllNonEmpty(WalkElement(e, armed, env).value.fragments)
    decreases e, |e.children| + 1, 0
  {
    WalkChildrenNonEmpty(e, 0, armed, env);
    if WalkChildren(e, 0, armed, env).Some? {
      AllNonEmptyAppend(StrippedText(e.text), WalkChildren(e, 0, armed, env).value.fragments);
    }
  }

  lemma {:induction false} WalkChildrenNonEmpty(e: Node, i: nat, armed: bool, env: Env)
    requires e.Element? && i <= |e.children|
    ensures WalkChildren(e, i, armed, env).Some? ==> AllNonEmpty(WalkChildren(e, i, armed, env).value.fragments)
    decreases e, |e.children| - i, 0
  {
    if i < |e.children| {
      var c := e.children[i];
      WalkChildNonEmpty(c, armed, env);
      match WalkChild(c, armed, env)
      case None =>
      case Some(st) =>
        WalkChildrenNonEmpty(e, i + 1, st.armed, env);
        if WalkChildren(e, i + 1, st.armed, env).Some? {
          var tail := if st.keepsTail then StrippedText(c.tail) else [];
          AllNonEmptyAppend(st.fragments, tail);
          AllNonEmptyAppend(StepFragments(c, st), WalkChildren(e, i + 1, st.armed, env).value.fragments);
        }
    }
  }

  lemma {:induction false} WalkChildNonEmpty(c: Node, armed: bool, env: Env)
    ensures WalkChild(c, armed, env).Some? ==> AllNonEmpty(WalkChild(c, armed, env).value.fragments)
    decreases c, |Children(c)| + 5, 0
  {
    if c.Element? {
      ChildRuleNonEmpty(c, Lower(c.tag), armed, env);
    }
  }

  lemma {:induction false} ChildRuleNonEmpty(c: Node, tag: string, armed: bool, env: Env)
    requires c.Element?
    ensures ChildRule(c, tag, armed, env).Some? ==> AllNonEmpty(ChildRule(c, tag, armed, env).value.fragments)
    decreases c, |c.children| + 4, 0
  {
    if tag == "a" {
      LinkNonEmpty(c, armed, env);
    } else if tag != "img" && tag != "iframe" && tag !in Headings && tag != "blockquote" && tag != "br" {
      ContainerRuleNonEmpty(c, tag, armed, env);
    }
  }

  lemma {:induction false} ContainerRuleNonEmpty(c: Node, tag: string, armed: bool, env: Env)
    requires c.Element?
    ensures ContainerRule(c, tag, armed, env).Some? ==> AllNonEmpty(ContainerRule(c, tag, armed, env).value.fragments)
    decreases c, |c.children| + 3, 0
  {
    if !(tag == "span" || tag == "div") {
      FormatRuleNonEmpty(c, tag, armed, env);
    } else {
      WalkElementNonEmpty(c, armed, env);
    }
  }

  lemma {:induction false} FormatRuleNonEmpty(c: Node, tag: string, armed: bool, env: Env)
    requires c.Element?
    ensures FormatRule(c, tag, armed, env).Some? ==> AllNonEmpty(FormatRule(c, tag, armed, env).value.fragments)
    decreases c, |c.children| + 2, 0
  {
    WalkElementNonEmpty(c, armed, env);
  }

  lemma LinkNonEmpty(c: Node, armed: bool, env: Env)
    requires c.Element?
    ensures AllNonEmpty(LinkStep(c, armed, env).fragments)
  {
  }

  // ---------------------------------------------------------------------------
  // A comment raises

  /** A comment or processing instruction among an element's children makes
      its walk raise, whatever comes before it. */
  lemma CommentChildRaises(e: Node, j: nat, armed: bool, env: Env)
    requires e.Element? && j < |e.children| && e.children[j].NonElement?
    ensures WalkElement(e, armed, env) == None
  {
    ChildrenRaise(e, 0, j, armed, env);
  }

  lemma {:induction false} ChildrenRaise(e: Node, i: nat, j: nat, armed: bool, env: Env)
    requires e.Element? && i <= j < |e.children| && e.children[j].NonElement?
    ensures WalkChildren(e, i, armed, env) == None
    decreases j - i
  {
    if i < j {
      match WalkChild(e.children[i], armed, env)
      case None =>
      case Some(st) => ChildrenRaise(e, i + 1, j, st.armed, env);
    }
  }

  // ---------------------------------------------------------------------------
  // The flag across siblings

  /** Whether an element with lower-cased tag `tag` could move the flag away
      from `armed`: a span can clear an armed flag (the caption rule), a Steam
      frame can set a cleared one. */
  predicate FlipsAt(c: Node, tag: string, armed: bool)
    requires c.Element?
  {
    if armed then tag == "span" else tag == "iframe" && Contains(Lower(Attr(c, "src")), "steam")
  }

  predicate Flips(d: Node, armed: bool) {
    d.Element? && FlipsAt(d, Lower(d.tag), armed)
  }

  /** No element below `n` could move the flag away from `armed`. */
  predicate Steady(n: Node, armed: bool) {
    forall d :: d in Descendants(n) ==> !Flips(d, armed)
  }

  /** The flag is only set by a Steam frame and only cleared by a caption
      span: a walk over a subtree with no element that could move it ends with
      the flag as it started. */
  lemma {:induction false} FlagSteady(e: Node, armed: bool, env: Env)
    requires e.Element? && Steady(e, armed)
    ensures WalkElement(e, armed, env).Some? ==> WalkElement(e, armed, env).value.armed == armed
    decreases e, |e.children| + 1, 0
  {
    FlagSteadyChildren(e, 0, armed, env);
  }

  lemma {:induction false} FlagSteadyChildren(e: Node, i: nat, armed: bool, env: Env)
    requires e.Element? && i <= |e.children| && Steady(e, armed)
    ensures WalkChildren(e, i, armed, env).Some? ==> WalkChildren(e, i, armed, env).value.armed == armed
    decreases e, |e.children| - i, 0
  {
    if i < |e.children| {
      var c := e.children[i];
      if c.Element? {
        DescendantsOfChild(e, i);
        assert WalkChild(c, armed, env) == ChildRule(c, Lower(c.tag), armed, env);
        ChildRuleSteady(c, Lower(c.tag), armed, env);
      }
      if WalkChild(c, armed, env).Some? {
        FlagSteadyChildren(e, i + 1, armed, env);
      }
    }
  }

  lemma {:induction false} ChildRuleSteady(c: Node, tag: string, armed: bool, env: Env)
    requires c.Element? && !FlipsAt(c, tag, armed) && Steady(c, armed)
    ensures ChildRule(c, tag, armed, env).Some? ==> ChildRule(c, tag, armed, env).value.armed == armed
    decreases c, |c.children| + 4, 0
  {
    if tag != "img" && tag != "a" && tag != "iframe" && tag !in Headings && tag != "blockquote" && tag != "br" {
      assert ChildRule(c, tag, armed, env) == ContainerRule(c, tag, armed, env);
      ContainerRuleSteady(c, tag, armed, env);
    }
  }

  lemma {:induction false} ContainerRuleSteady(c: Node, tag: string, armed: bool, env: Env)
    requires c.Element? && !(armed && tag == "span") && Steady(c, armed)
    ensures ContainerRule(c, tag, armed, env).Some? ==> ContainerRule(c, tag, armed, env).value.armed == armed
    decreases c, |c.children| + 3, 0
  {
    if tag == "span" || tag == "div" {
      FlagSteady(c, armed, env);
    } else {
      FormatRuleSteady(c, tag, armed, env);
    }
  }

  lemma {:induction false} FormatRuleSteady(c: Node, tag: string, armed: bool, env: Env)
    requires c.Element? && Steady(c, armed)
    ensures FormatRule(c, tag, armed, env).Some? ==> FormatRule(c, tag, armed, env).value.armed == armed
    decreases c, |c.children| + 2, 0
  {
    FlagSteady(c, armed, env);
  }

  /** A child that cannot clear an armed flag: an element that is not a
      span and has no span below it. */
  predicate SteadyChild(c: Node) {
    c.Element? && !FlipsAt(c, Lower(c.tag), true) && Steady(c, true)
  }

  /** The caption span that follows a Steam widget. */
  predicate CaptionSpan(d: Node) {
    d.Element? && Lower(d.tag) == "span" && IsCaptionStyle(Attr(d, "style")) && MentionsSteam(d)
  }

  /** A Steam frame, whose rule arms the flag. */
  predicate SteamFrame(c: Node) {
    c.Element? && Lower(c.tag) == "iframe" && Contains(Lower(Attr(c, "src")), "steam")
  }

  /** The widget marker and the tail of a Steam frame. */
  function WidgetFragments(c: Node): seq<string>
    requires c.Element?
  {
    ["[Steam小部件: " + WidgetUrl(Attr(c, "src")) + "]"] + StrippedText(c.tail)
  }

  lemma ResumeResume(p: seq<string>, q: seq<string>, r: Option<Walk>)
    ensures Resume(p, Resume(q, r)) == Resume(p + q, r)
  {
    if r.Some? {
      AppendAssoc(p, q, r.value.fragments);
    }
  }

  /** A Steam frame's step: its marker and tail are appended and the flag is armed. */
  lemma SteamFrameStep(e: Node, i: nat, armed: bool, env: Env)
    requires e.Element? && i < |e.children| && SteamFrame(e.children[i])
    ensures WalkChildren(e, i, armed, env) == Resume(WidgetFragments(e.children[i]), WalkChildren(e, i + 1, true, env))
  {
    var c := e.children[i];
    assert WalkChild(c, armed, env) == ChildRule(c, "iframe", armed, env);
    FrameRules(c, armed, env);
    var st := Step(["[Steam小部件: " + WidgetUrl(Attr(c, "src")) + "]"], true, true);
    ResumeStep(e, i, armed, env, [], st, st.fragments, WidgetFragments(c));
    ResumeEmpty(WalkChildren(e, i, armed, env));
  }

  /** A caption span met with the flag armed emits nothing, loses its tail
      and clears the flag. */
  lemma CaptionStep(e: Node, j: nat, env: Env, prefix: seq<string>)
    requires e.Element? && j < |e.children| && CaptionSpan(e.children[j])
    ensures Resume(prefix, WalkChildren(e, j, true, env)) == Resume(prefix, WalkChildren(e, j + 1, false, env))
  {
    var d := e.children[j];
    SpanRules(d, true, env);
    assert prefix + [] == prefix;
    ResumeStep(e, j, true, env, prefix, Step([], false, false), prefix, prefix);
  }

  lemma ResumeEmpty(r: Option<Walk>)
    ensures Resume([], r) == r
  {
    if r.Some? {
      assert [] + r.value.fragments == r.value.fragments;
    }
  }

  /** Over a run of children that cannot clear it, an armed flag stays armed:
      the walk fails, or it reaches child `j` with the flag still armed. */
  lemma {:induction false} ArmedAcrossSteady(e: Node, i: nat, j: nat, env: Env)
    requires e.Element? && i <= j <= |e.children|
    requires forall k :: i <= k < j ==> SteadyChild(e.children[k])
    ensures WalkChildren(e, i, true, env) == None
      || exists p :: WalkChildren(e, i, true, env) == Resume(p, WalkChildren(e, j, true, env))
    decreases j - i
  {
    if i == j {
      ResumeEmpty(WalkChildren(e, j, true, env));
    } else {
      var c := e.children[i];
      assert SteadyChild(c);
      assert WalkChild(c, true, env) == ChildRule(c, Lower(c.tag), true, env);
      ChildRuleSteady(c, Lower(c.tag), true, env);
      if WalkChild(c, true, env).None? {
        ResumeFail(e, i, true, env, []);
        ResumeEmpty(WalkChildren(e, i, true, env));
      } else {
        var st := WalkChild(c, true, env).value;
        var next := st.fragments + (if st.keepsTail then StrippedText(c.tail) else []);
        assert [] + st.fragments == st.fragments;
        ResumeStep(e, i, true, env, [], st, st.fragments, next);
        ResumeEmpty(WalkChildren(e, i, true, env));
        ArmedAcrossSteady(e, i + 1, j, env);
        if WalkChildren(e, i + 1, true, env) == None {
        } else {
          var q :| WalkChildren(e, i + 1, true, env) == Resume(q, WalkChildren(e, j, true, env));
          ResumeResume(next, q, WalkChildren(e, j, true, env));
        }
      }
    }
  }

  /** The caption protocol across siblings: a Steam frame arms the flag, and
      the next caption span after it, past children that cannot clear the
      flag, is dropped with its tail and clears the flag again. */
  lemma SteamCaptionConsumed(e: Node, i: nat, j: nat, armed: bool, env: Env)
    requires e.Element? && i < j < |e.children|
    requires SteamFrame(e.children[i]) && CaptionSpan(e.children[j])
    requires forall k :: i < k < j ==> SteadyChild(e.children[k])
    ensures WalkChildren(e, i, armed, env) == None
      || exists p :: WalkChildren(e, i, armed, env)
           == Resume(WidgetFragments(e.children[i]) + p, WalkChildren(e, j + 1, false, env))
  {
    var w := WidgetFragments(e.children[i]);
    SteamFrameStep(e, i, armed, env);
    ArmedAcrossSteady(e, i + 1, j, env);
    if WalkChildren(e, i + 1, true, env) != None {
      var p :| WalkChildren(e, i + 1, true, env) == Resume(p, WalkChildren(e, j, true, env));
      CaptionStep(e, j, env, p);
      ResumeResume(w, p, WalkChildren(e, j + 1, false, env));
    }
  }

  /** The caption right after the widget: the two children together emit the
      widget marker and the frame's tail, and leave the flag cleared. */
  lemma SteamCaptionAdjacent(e: Node, i: nat, armed: bool, env: Env)
    requires e.Element? && i + 1 < |e.children|
    requires SteamFrame(e.children[i]) && CaptionSpan(e.children[i + 1])
    ensures WalkChildren(e, i, armed, env) == Resume(WidgetFragments(e.children[i]), WalkChildren(e, i + 2, false, env))
  {
    SteamFrameStep(e, i, armed, env);
    CaptionStep(e, i + 1, env, WidgetFragments(e.children[i]));
  }

  // ---------------------------------------------------------------------------
  // Trees no rule applies to

  /** A tag that no rule of the walk takes, so the element is walked in place. */
  predicate PlainTag(tag: string) {
    && tag != "img" && tag != "a" && tag != "iframe" && tag !in Headings && tag != "blockquote" && tag != "br"
    && tag != "span" && tag != "div" && tag != "strong" && tag != "b" && tag != "em" && tag != "i" && tag != "p"
    && !IsScriptLike(tag)
  }

  /** An element whose subtree holds only plain tags and no comments. */
  predicate Plain(n: Node)
    decreases n, 1
  {
    n.Element? && PlainTag(Lower(n.tag)) && PlainChildren(n)
  }

  predicate PlainChildren(n: Node)
    requires n.Element?
    decreases n, 0
  {
    forall k :: 0 <= k < |n.children| ==> Plain(n.children[k])
  }

  lemma NonBlankOptList(t: Option<string>)
    ensures NonBlank(OptList(t)) == StrippedText(t)
  {
    if t.Some? {
      assert OptList(t)[1..] == [];
    }
  }

  /** Below plain tags the walk emits exactly the flattened text nodes: every
      non-blank text and tail, stripped, in document order. */
  lemma {:induction false} PlainWalk(e: Node, armed: bool, env: Env)
    requires e.Element? && PlainChildren(e)
    ensures WalkElement(e, armed, env) == Some(Walk(NonBlank(TextNodes(e)), armed))
    decreases e, |e.children| + 1, 0
  {
    PlainWalkChildren(e, 0, armed, env);
    NonBlankAppend(OptList(e.text), ChildTextNodes(e, 0));
    NonBlankOptList(e.text);
  }

  lemma {:induction false} PlainWalkChildren(e: Node, i: nat, armed: bool, env: Env)
    requires e.Element? && i <= |e.children| && PlainChildren(e)
    ensures WalkChildren(e, i, armed, env) == Some(Walk(NonBlank(ChildTextNodes(e, i)), armed))
    decreases e, |e.children| - i, 0
  {
    if i < |e.children| {
      var c := e.children[i];
      PlainWalkChild(c, armed, env);
      PlainWalkChildren(e, i + 1, armed, env);
      NonBlankAppend(TextNodes(c), OptList(c.tail));
      NonBlankAppend(TextNodes(c) + OptList(c.tail), ChildTextNodes(e, i + 1));
      NonBlankOptList(c.tail);
    }
  }

  lemma {:induction false} PlainWalkChild(c: Node, armed: bool, env: Env)
    requires Plain(c)
    ensures WalkChild(c, armed, env) == Some(Step(NonBlank(TextNodes(c)), armed, true))
    decreases c, |Children(c)| + 5, 0
  {
    var tag := Lower(c.tag);
    PlainWalk(c, armed, env);
    assert WalkChild(c, armed, env) == ChildRule(c, tag, armed, env);
    assert ChildRule(c, tag, armed, env) == ContainerRule(c, tag, armed, env);
    assert ContainerRule(c, tag, armed, env) == FormatRule(c, tag, armed, env);
    assert FormatRule(c, tag, armed, env) == Recurse(c, armed, env);
  }

  /** A post body in which no rule applies reads as its cleaned flattened text. */
  lemma PlainContent(root: Node, env: Env)
    requires root.Element? && PlainChildren(root)
    ensures MessageContent(root, env) == Clean(FlattenText(root))
  {
    PlainWalk(root, false, env);
  }

  // ---------------------------------------------------------------------------
  // The text of a post body

  /** The content is the failure text when the walk raises; otherwise it
      is in the cleanup's normal form: trimmed, no two adjacent spaces, no
      blank-line run longer than `\n\n`, and cleaning it again changes nothing. */
  lemma MessageContentForm(root: Node, env: Env)
    requires root.Element?
    ensures var r := MessageContent(root, env);
      && (WalkElement(root, false, env).None? ==> r == Sentinel)
      && (WalkElement(root, false, env).Some? ==>
            Trimmed(r) && NoDoubleSpace(r) && BlankLinesCollapsed(r) && Clean(r) == r)
  {
    match WalkElement(root, false, env)
    case None =>
    case Some(w) =>
      CleanNormalForm(Join(" ", w.fragments));
      CleanIdempotent(Join(" ", w.fragments));
  }
}
