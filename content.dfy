/**
 * `_parse_message_content` (clients/forum_client.py:301-487): the recursive
 * walk over a post body that turns it into text fragments, with the one flag
 * `skip_next_steam_span` carried across siblings, followed by the assembly of
 * the fragments into the post's text.
 *
 * The walk is specified by the functions `WalkElement`, `WalkChildren` and
 * `WalkChild`; the class `ContentParser` is the walk as the source runs it,
 * appending to `contentParts` and updating `skipNextSteamSpan`, and its methods
 * are proved to compute what those functions say.
 */
module Content {
  import opened Wrappers
  import opened Strings
  import opened Urls
  import opened Markup
  import opened Assemble

  /** What the walk reads besides the tree: the forum's base URL, and the local
      time text for a countdown timestamp (`datetime.fromtimestamp(t).strftime(...)`),
      `None` when that conversion raises. */
  datatype Env = Env(baseUrl: string, localTime: nat -> Option<string>)

  /** The fragments one element's walk appends, and the flag afterwards. */
  datatype Walk = Walk(fragments: seq<string>, armed: bool)

  /** One child's rule: its fragments, the flag afterwards, and whether the
      child's tail is still emitted (`false` where the source says `continue`). */
  datatype Step = Step(fragments: seq<string>, armed: bool, keepsTail: bool)

  /** The text returned when the walk raises (clients/forum_client.py:487). */
  const Sentinel: string := "内容解析失败"

  const Headings: seq<string> := ["h1", "h2", "h3", "h4", "h5", "h6"]

  const SkipClasses: seq<string> :=
    ["swi-block", "steam-info-wrapper", "tip", "steam-info-loading", "original_text_style1"]

  /** A text or tail as a fragment: stripped, and only when not blank. */
  function StrippedText(t: Option<string>): seq<string> {
    if t.Some? && Strip(t.value) != "" then [Strip(t.value)] else []
  }

  predicate IsSkipClass(classAttr: string) {
    exists k :: 0 <= k < |SkipClasses| && Contains(classAttr, SkipClasses[k])
  }

  /** The style of the caption that follows a Steam widget. */
  predicate IsCaptionStyle(style: string) {
    Contains(style, "font-size: 10px") || Contains(style, "overflow: visible")
  }

  /** `child.xpath('.//a[contains(@href, "steam") or contains(@href, "steamdb")]')` is not empty. */
  predicate HasSteamLink(c: Node) {
    exists d :: d in Descendants(c) && d.Element? && d.tag == "a"
      && (Contains(Attr(d, "href"), "steam") || Contains(Attr(d, "href"), "steamdb"))
  }

  predicate MentionsSteam(c: Node) {
    HasSteamLink(c) || Contains(Lower(FlattenText(c)), "steam")
  }

  predicate IsScriptLike(tag: string) {
    Contains(tag, "script") || Contains(tag, "style") || Contains(tag, "noscript")
  }

  /** `text` between `open` and `close`, or nothing when `text` is empty. */
  function Wrap(open: string, text: string, close: string): seq<string> {
    if text != "" then [open + text + close] else []
  }

  /** `[f"> {line}" for line in lines if line.strip()]`. */
  function QuoteLines(lines: seq<string>): (r: seq<string>)
    ensures |r| <= |lines|
  {
    if |lines| == 0 then []
    else (if Strip(lines[0]) != "" then ["> " + lines[0]] else []) + QuoteLines(lines[1..])
  }

  function QuoteFragments(text: string): seq<string> {
    if text != "" then ["\n" + Join("\n", QuoteLines(SplitOn(text, "\n"))) + "\n"] else []
  }

  /** The widget address with `widget` rewritten to `app` and the query cut off. */
  function WidgetUrl(src: string): string {
    var rewritten := if Contains(src, "widget") then ReplaceAll(src, "widget", "app") else src;
    SplitOn(rewritten, "?")[0]
  }

  /** `src.split('t=')[-1].split('&')[0]`. */
  function CountdownParam(src: string): string {
    SplitOn(Last(SplitOn(src, "t=")), "&")[0]
  }

  function ImageFragments(c: Node, env: Env): seq<string>
    requires c.Element?
  {
    var src := Attr(c, "file");
    if src != "" && !StartsWith(src, "data:") then ["[图片: " + ResolveUrl(env.baseUrl, src) + "]"] else []
  }

  function LinkStep(c: Node, armed: bool, env: Env): Step
    requires c.Element?
  {
    var href := Attr(c, "href");
    var linkText := TextOr(c);
    if Contains(Lower(href), "steam") then
      Step(["[Steam链接: " + (if linkText != "" then linkText else href) + "]"], armed, true)
    else if StartsWith(href, "#") then
      Step(if linkText != "" then [linkText] else [], armed, true)
    else if href != "" && linkText != "" then
      if Contains(href, "javascript:") then Step([], armed, false)
      else Step(["[链接: " + linkText + " - " + ResolveHref(env.baseUrl, href) + "]"], armed, true)
    else
      Step(if linkText != "" then [linkText] else [], armed, true)
  }

  function FrameStep(c: Node, armed: bool, env: Env): Option<Step>
    requires c.Element?
  {
    var src := Attr(c, "src");
    if Contains(Lower(src), "steam") then
      Some(Step(["[Steam小部件: " + WidgetUrl(src) + "]"], true, true))
    else if Contains(Lower(src), "countdown") then
      var t := CountdownParam(src);
      if IsDigits(t) then
        match env.localTime(DigitsValue(t))
        case None => None
        case Some(time) => Some(Step(["[倒计时: " + time + "]"], armed, true))
      else Some(Step([], armed, true))
    else
      Some(Step(["[嵌入内容]"], armed, true))
  }

  /** `parse_element(e)` with the flag at `armed`: `e`'s own text, then its children. */
  function WalkElement(e: Node, armed: bool, env: Env): Option<Walk>
    requires e.Element?
    decreases e, |e.children| + 1, 0
  {
    match WalkChildren(e, 0, armed, env)
    case None => None
    case Some(w) => Some(Walk(StrippedText(e.text) + w.fragments, w.armed))
  }

  /** The loop `for child in element` from child `i` on. */
  function WalkChildren(e: Node, i: nat, armed: bool, env: Env): Option<Walk>
    requires e.Element? && i <= |e.children|
    decreases e, |e.children| - i, 0
  {
    if i == |e.children| then Some(Walk([], armed))
    else
      var c := e.children[i];
      match WalkChild(c, armed, env)
      case None => None
      case Some(st) =>
        match WalkChildren(e, i + 1, st.armed, env)
        case None => None
        case Some(rest) =>
          Some(Walk(StepFragments(c, st) + rest.fragments, rest.armed))
  }

  /** The step for one child; a comment or processing instruction raises. */
  function WalkChild(c: Node, armed: bool, env: Env): Option<Step>
    decreases c, |Children(c)| + 5, 0
  {
    if c.NonElement? then None else ChildRule(c, Lower(c.tag), armed, env)
  }

  /** The rules for element `c` whose lower-cased tag is `tag`, in the source's
      order; the first that matches applies.  The first group: media, headings,
      quotes and line breaks. */
  function ChildRule(c: Node, tag: string, armed: bool, env: Env): Option<Step>
    requires c.Element?
    decreases c, |c.children| + 4, 0
  {
    if tag == "img" then Some(Step(ImageFragments(c, env), armed, true))
    else if tag == "a" then Some(LinkStep(c, armed, env))
    else if tag == "iframe" then FrameStep(c, armed, env)
    else if tag in Headings then Some(Step(Wrap("\n**", FlattenText(c), "**\n"), armed, true))
    else if tag == "blockquote" then Some(Step(QuoteFragments(FlattenText(c)), armed, true))
    else if tag == "br" then Some(Step(["\n"], armed, true))
    else ContainerRule(c, tag, armed, env)
  }

  /** The second group: `span` and `div` containers. */
  function ContainerRule(c: Node, tag: string, armed: bool, env: Env): Option<Step>
    requires c.Element?
    decreases c, |c.children| + 3, 0
  {
    if tag == "span" && armed && IsCaptionStyle(Attr(c, "style")) && MentionsSteam(c) then
      Some(Step([], false, false))
    else if (tag == "span" || tag == "div") && IsSkipClass(Attr(c, "class")) then
      Some(Step([], armed, false))
    else if tag == "span" || tag == "div" then Recurse(c, armed, env)
    else FormatRule(c, tag, armed, env)
  }

  /** The last group: emphasis, paragraphs, scripts, and everything else. */
  function FormatRule(c: Node, tag: string, armed: bool, env: Env): Option<Step>
    requires c.Element?
    decreases c, |c.children| + 2, 0
  {
    if tag == "strong" || tag == "b" then Some(Step(Wrap("**", FlattenText(c), "**"), armed, true))
    else if tag == "em" || tag == "i" then Some(Step(Wrap("*", FlattenText(c), "*"), armed, true))
    else if (tag == "p" || tag == "div") && TextOr(c) != "" then
      Some(Step(Wrap("\n", FlattenText(c), "\n"), armed, true))
    else if IsScriptLike(tag) then Some(Step([], armed, false))
    else Recurse(c, armed, env)
  }

  /** The element's contents walked in place; its tail is kept. */
  function Recurse(c: Node, armed: bool, env: Env): Option<Step>
    requires c.Element?
    decreases c, |c.children| + 1, 1
  {
    match WalkElement(c, armed, env)
    case None => None
    case Some(w) => Some(Step(w.fragments, w.armed, true))
  }

  /** The text `_parse_message_content` returns for a post body. */
  function MessageContent(root: Node, env: Env): string
    requires root.Element?
  {
    match WalkElement(root, false, env)
    case None => Sentinel
    case Some(w) => AssembleText(w.fragments)
  }

  /** `prefix` in front of the fragments of a walk that has not failed. */
  function Resume(prefix: seq<string>, r: Option<Walk>): Option<Walk> {
    match r
    case None => None
    case Some(w) => Some(Walk(prefix + w.fragments, w.armed))
  }

  /** What one child adds: its rule's fragments, then its tail if the rule keeps it. */
  function StepFragments(c: Node, st: Step): seq<string> {
    st.fragments + (if st.keepsTail then StrippedText(c.tail) else [])
  }

  lemma AppendAssoc<T>(a: seq<T>, b: seq<T>, c: seq<T>)
    ensures a + (b + c) == a + b + c
  {
  }

  /** One child's step of `WalkChildren`, with the fragments so far in front. */
  lemma ResumeStep(e: Node, i: nat, armed: bool, env: Env, prefix: seq<string>, st: Step, ruled: seq<string>, next: seq<string>)
    requires e.Element? && i < |e.children| && WalkChild(e.children[i], armed, env) == Some(st)
    requires ruled == prefix + st.fragments
    requires next == ruled + (if st.keepsTail then StrippedText(e.children[i].tail) else [])
    ensures Resume(prefix, WalkChildren(e, i, armed, env)) == Resume(next, WalkChildren(e, i + 1, st.armed, env))
  {
    var tail := if st.keepsTail then StrippedText(e.children[i].tail) else [];
    AppendAssoc(prefix, st.fragments, tail);
    match WalkChildren(e, i + 1, st.armed, env)
    case None =>
    case Some(rest) =>
      AppendAssoc(prefix, st.fragments + tail, rest.fragments);
  }

  /** A child whose rule raises ends the walk of its siblings. */
  lemma ResumeFail(e: Node, i: nat, armed: bool, env: Env, prefix: seq<string>)
    requires e.Element? && i < |e.children| && WalkChild(e.children[i], armed, env).None?
    ensures Resume(prefix, WalkChildren(e, i, armed, env)) == None
  {
  }

  /** An element's walk is its own text followed by the walk of its children. */
  lemma ResumeElement(e: Node, armed: bool, env: Env, prefix: seq<string>)
    requires e.Element?
    ensures Resume(prefix, WalkElement(e, armed, env)) == Resume(prefix + StrippedText(e.text), WalkChildren(e, 0, armed, env))
  {
    match WalkChildren(e, 0, armed, env)
    case None =>
    case Some(w) =>
      assert prefix + (StrippedText(e.text) + w.fragments) == prefix + StrippedText(e.text) + w.fragments;
  }

  /** Past the last child nothing more is appended. */
  lemma ResumeDone(e: Node, armed: bool, env: Env, prefix: seq<string>)
    requires e.Element?
    ensures Resume(prefix, WalkChildren(e, |e.children|, armed, env)) == Some(Walk(prefix, armed))
  {
    assert prefix + [] == prefix;
  }

  /**
   * The state of one `_parse_message_content` call: the list `content_parts`
   * and the flag `skip_next_steam_span` that the nested `parse_element` shares.
   */
  class ContentParser {
    const env: Env
    var contentParts: seq<string>
    var skipNextSteamSpan: bool

    constructor (env: Env)
      ensures this.env == env && contentParts == [] && !skipNextSteamSpan
    {
      this.env := env;
      contentParts := [];
      skipNextSteamSpan := false;
    }

    /** `parse_element(element)`; `ok` is false where the source raises. */
    method ParseElement(e: Node) returns (ok: bool)
      requires e.Element?
      modifies this
      ensures var r := WalkElement(e, old(skipNextSteamSpan), env);
        && ok == r.Some?
        && (ok ==> contentParts == old(contentParts) + r.value.fragments && skipNextSteamSpan == r.value.armed)
      decreases e, 1, 0
    {
      AppendStripped(e.text);
      ResumeElement(e, skipNextSteamSpan, env, old(contentParts));
      ghost var goal := Resume(old(contentParts), WalkElement(e, old(skipNextSteamSpan), env));
      var i := 0;
      while i < |e.children|
        invariant 0 <= i <= |e.children|
        invariant Resume(contentParts, WalkChildren(e, i, skipNextSteamSpan, env)) == goal
      {
        ok := VisitChild(e, i);
        if !ok {
          return;
        }
        i := i + 1;
      }
      ResumeDone(e, skipNextSteamSpan, env, contentParts);
      ok := true;
    }

    /** One iteration of the loop over `e`'s children: child `i`'s rule, then
        its tail unless the rule says `continue`. */
    method VisitChild(e: Node, i: nat) returns (ok: bool)
      requires e.Element? && i < |e.children|
      modifies this
      ensures var r := Resume(old(contentParts), WalkChildren(e, i, old(skipNextSteamSpan), env));
        && (ok ==> r == Resume(contentParts, WalkChildren(e, i + 1, skipNextSteamSpan, env)))
        && (!ok ==> r == None)
      decreases e, 0, 0
    {
      var child := e.children[i];
      ghost var before, armedBefore := contentParts, skipNextSteamSpan;
      var kept;
      ok, kept := ParseChild(child);
      if !ok {
        ResumeFail(e, i, armedBefore, env, before);
        return;
      }
      ghost var st := WalkChild(child, armedBefore, env).value;
      ghost var ruled := contentParts;
      if kept {
        AppendStripped(child.tail);
      }
      ResumeStep(e, i, armedBefore, env, before, st, ruled, contentParts);
    }

    /** An element's text or a child's tail, stripped, appended unless blank
        (clients/forum_client.py:312-315 and 467-470). */
    method AppendStripped(t: Option<string>)
      modifies this
      ensures contentParts == old(contentParts) + StrippedText(t)
      ensures skipNextSteamSpan == old(skipNextSteamSpan)
    {
      if t.Some? {
        var text := Strip(t.value);
        if text != "" {
          contentParts := contentParts + [text];
        }
      }
    }

    /** The rule for one child in the loop over the children; `kept` is false
        where the source leaves the iteration with `continue`, skipping the tail. */
    method ParseChild(child: Node) returns (ok: bool, kept: bool)
      modifies this
      ensures var r := WalkChild(child, old(skipNextSteamSpan), env);
        && ok == r.Some?
        && (ok ==> && contentParts == old(contentParts) + r.value.fragments
                   && skipNextSteamSpan == r.value.armed
                   && kept == r.value.keepsTail)
      decreases child, 4, 0
    {
      if child.NonElement? {
        // `child.tag.lower()` raises on a comment or processing instruction
        return false, false;
      }
      var tag := Lower(child.tag);
      ghost var armed := skipNextSteamSpan;
      assert WalkChild(child, armed, env) == ChildRule(child, tag, armed, env);
      if tag == "img" {
        var src := Attr(child, "file");
        if src != "" && !StartsWith(src, "data:") {
          src := ResolveUrl(env.baseUrl, src);
          contentParts := contentParts + ["[图片: " + src + "]"];
        }
      } else if tag == "a" {
        kept := ParseLink(child);
        return true, kept;
      } else if tag == "iframe" {
        ok := ParseFrame(child);
        return ok, ok;
      } else if tag in Headings {
        var titleText := FlattenText(child);
        if titleText != "" {
          contentParts := contentParts + ["\n**" + titleText + "**\n"];
        }
      } else if tag == "blockquote" {
        var quoteText := FlattenText(child);
        if quoteText != "" {
          var quotedLines := QuoteLines(SplitOn(quoteText, "\n"));
          contentParts := contentParts + ["\n" + Join("\n", quotedLines) + "\n"];
        }
      } else if tag == "br" {
        contentParts := contentParts + ["\n"];
      } else {
        ok, kept := ParseContainer(child, tag);
        return;
      }
      return true, true;
    }

    /** The `span` and `div` rules, or what follows them. */
    method ParseContainer(child: Node, tag: string) returns (ok: bool, kept: bool)
      requires child.Element?
      modifies this
      ensures var r := ContainerRule(child, tag, old(skipNextSteamSpan), env);
        && ok == r.Some?
        && (ok ==> && contentParts == old(contentParts) + r.value.fragments
                   && skipNextSteamSpan == r.value.armed
                   && kept == r.value.keepsTail)
      decreases child, 3, 0
    {
      ghost var armed := skipNextSteamSpan;
      if tag == "span" {
        var styleAttr := Attr(child, "style");
        if skipNextSteamSpan && IsCaptionStyle(styleAttr) {
          var spanText := FlattenText(child);
          var steamLinks := HasSteamLink(child);
          if steamLinks || Contains(Lower(spanText), "steam") {
            skipNextSteamSpan := false;
            return true, false;
          }
        }
      }
      if tag == "span" || tag == "div" {
        var classAttr := Attr(child, "class");
        if IsSkipClass(classAttr) {
          return true, false;
        }
        ok := ParseElement(child);
        assert ContainerRule(child, tag, armed, env) == Recurse(child, armed, env);
        if !ok {
          return false, false;
        }
        return true, true;
      }
      ok, kept := ParseFormat(child, tag);
    }

    /** The emphasis, paragraph and script rules, and the fallback that walks
        the element's contents. */
    method ParseFormat(child: Node, tag: string) returns (ok: bool, kept: bool)
      requires child.Element?
      modifies this
      ensures var r := FormatRule(child, tag, old(skipNextSteamSpan), env);
        && ok == r.Some?
        && (ok ==> && contentParts == old(contentParts) + r.value.fragments
                   && skipNextSteamSpan == r.value.armed
                   && kept == r.value.keepsTail)
      decreases child, 2, 0
    {
      ghost var armed := skipNextSteamSpan;
      if tag == "strong" || tag == "b" {
        var boldText := FlattenText(child);
        if boldText != "" {
          contentParts := contentParts + ["**" + boldText + "**"];
        }
      } else if tag == "em" || tag == "i" {
        var italicText := FlattenText(child);
        if italicText != "" {
          contentParts := contentParts + ["*" + italicText + "*"];
        }
      } else if (tag == "p" || tag == "div") && TextOr(child) != "" {
        var paraText := FlattenText(child);
        if paraText != "" {
          contentParts := contentParts + ["\n" + paraText + "\n"];
        }
      } else if IsScriptLike(tag) {
        return true, false;
      } else {
        ok := ParseElement(child);
        assert FormatRule(child, tag, armed, env) == Recurse(child, armed, env);
        if !ok {
          return false, false;
        }
      }
      return true, true;
    }

    /** The rule for a link `child`; `kept` is false for a `javascript:` link. */
    method ParseLink(child: Node) returns (kept: bool)
      requires child.Element?
      modifies this
      ensures var st := LinkStep(child, old(skipNextSteamSpan), env);
        contentParts == old(contentParts) + st.fragments && skipNextSteamSpan == st.armed && kept == st.keepsTail
    {
      var href := Attr(child, "href");
      var linkText := TextOr(child);
      if Contains(Lower(href), "steam") {
        if linkText != "" {
          contentParts := contentParts + ["[Steam链接: " + linkText + "]"];
        } else {
          contentParts := contentParts + ["[Steam链接: " + href + "]"];
        }
      } else if StartsWith(href, "#") {
        if linkText != "" {
          contentParts := contentParts + [linkText];
        }
      } else if href != "" && linkText != "" {
        if Contains(href, "javascript:") {
          return false;
        }
        href := ResolveHref(env.baseUrl, href);
        contentParts := contentParts + ["[链接: " + linkText + " - " + href + "]"];
      } else if linkText != "" {
        contentParts := contentParts + [linkText];
      }
      return true;
    }

    /** The rule for an embedded frame `child`; `ok` is false where the
        countdown's timestamp conversion raises. */
    method ParseFrame(child: Node) returns (ok: bool)
      requires child.Element?
      modifies this
      ensures var r := FrameStep(child, old(skipNextSteamSpan), env);
        && ok == r.Some?
        && (ok ==> contentParts == old(contentParts) + r.value.fragments && skipNextSteamSpan == r.value.armed && r.value.keepsTail)
    {
      var src := Attr(child, "src");
      if Contains(Lower(src), "steam") {
        if Contains(src, "widget") {
          src := ReplaceAll(src, "widget", "app");
        }
        contentParts := contentParts + ["[Steam小部件: " + SplitOn(src, "?")[0] + "]"];
        skipNextSteamSpan := true;
      } else if Contains(Lower(src), "countdown") {
        var t := SplitOn(Last(SplitOn(src, "t=")), "&")[0];
        if IsDigits(t) {
          var localTime := env.localTime(DigitsValue(t));
          if localTime.None? {
            return false;
          }
          contentParts := contentParts + ["[倒计时: " + localTime.value + "]"];
        }
      } else {
        contentParts := contentParts + ["[嵌入内容]"];
      }
      return true;
    }
  }

  /** `_parse_message_content(message_element)`: walk, join, clean, or the
      sentinel text when the walk raises. */
  method ParseMessageContent(messageElement: Node, env: Env) returns (content: string)
    requires messageElement.Element?
    ensures content == MessageContent(messageElement, env)
  {
    var parser := new ContentParser(env);
    var ok := parser.ParseElement(messageElement);
    if !ok {
      return Sentinel;
    }
    assert parser.contentParts == WalkElement(messageElement, false, env).value.fragments;
    content := Join(" ", parser.contentParts);
    content := CollapseBlankLines(content);
    content := CollapseSpaces(content);
    content := Strip(content);
  }
}
