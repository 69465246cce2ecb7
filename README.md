# keylol-tg post extraction, lazy post and link scanner in Dafny

keylol-tg is a bot that watches a Discuz forum (keylol.com) and forwards new threads to Telegram. This project models three of its parts and proves properties about them.

- **The post-body extraction of the forum client** (`clients/forum_client.py`).
  - An already-parsed markup tree (`Markup.Node`) is walked recursively.
  - Fragments are appended to a shared list. One flag is carried across siblings: it is armed by a Steam widget and consumed by the caption span that follows the widget.
  - The fragments are joined with single spaces and cleaned by three whitespace rules.
  - The walk itself is `Content.ContentParser`, a class whose methods mutate `contentParts` and `skipNextSteamSpan`. Each method is proved to compute what the functions `WalkElement`, `WalkChildren` and `WalkChild` specify.
  - The text flattener, the image collector, the tag collector and the dictionary `load_post_details` builds are modelled beside the walk.
- **The lazily loaded post** `ForumPost` (`models/post.py`).
  - It is a class with the four lazy fields, the loaded flag and a count of the requests made to the forum client.
  - The forum client is an oracle. It answers the k-th request with a dictionary, with `None`, or with an exception.
  - Each method is proved to follow a pure state-transition function. The properties of the lazy cache are proved about those functions.
- **The thread-link scanner** `_extract_forum_links` (`clients/telegram_client.py`).
  - It looks for the literal `<base>/thread-` or `<base>/t` followed by a maximal run of digits, scanning from the left as `re.findall` does.
  - It then removes duplicates.

Modules, in dependency order:

- `Wrappers` is the `Option` type.
- `Strings` holds Python's `strip`, `split`, `join`, `replace`, substring tests, ASCII `lower()` and digits.
- `Urls` is URL completion.
- `Markup` holds the tree, `.//text()`, the flattener and document-order descendants.
- `Assemble` is the join and the cleanup.
- `Content` is the walk, as functions and as the `ContentParser` class.
- `WalkProperties` holds the lemmas about the walk.
- `Collectors` holds the image and tag collectors and the details dictionary.
- `Post` is the lazy post.
- `ForumLinks` is the link scanner.

In these places the model follows the code as written:

- The walk's own `img` rule reads the `file` attribute and emits `[图片: url]`. The image collector reads `src`.
- The collected image list keeps duplicates and follows document order.
- An iframe counts as a Steam widget when its lower-cased `src` contains `steam`. The `widget` → `app` rewrite happens only when the word is present, and the address is cut at the first `?`.
- `javascript:` is a substring test on the link target, reached only after the Steam and `#` rules and only when the link has both a target and a text.
- A link whose lower-cased target contains `steam` gives `[Steam链接: text]`, or `[Steam链接: href]` when it has no text.
- A comment or processing instruction anywhere the walk reaches makes `child.tag.lower()` raise. The whole content then becomes `内容解析失败`.
- A falsy answer of the loader leaves the post unloaded, so the next read asks again. Besides `None`, an empty dictionary is falsy too.
- The tags are collected by a separate pass over the whole body, not by the walk.

## Model

| member | source | states |
|---|---|---|
| Strings.Join | clients/forum_client.py:494 | defines `sep.join(parts)`: the parts with the separator between each two, `""` for no parts |
| Strings.ReplaceAll | clients/forum_client.py:370 | defines `str.replace(target, replacement)` as the pieces of `split(target)` joined with the replacement |
| Strings.Strip | clients/forum_client.py:313 | `strip()`: the result is empty iff the input is all whitespace, is trimmed, and is the input with its leading and trailing whitespace removed |
| Strings.SplitOn | clients/forum_client.py:393 | `split(sep)` yields at least one piece and the first piece is a prefix of the input |
| Strings.JoinSplitOn | clients/forum_client.py:370 | joining the pieces of a split with the separator gives the string back |
| Strings.SplitOnFirst | clients/forum_client.py:371 | the first piece of a split is the whole string or is followed by the separator; for a separator that cannot overlap itself, as all those the source uses, `split(sep)[0]` is what precedes the first occurrence |
| Strings.SplitOnLast | clients/forum_client.py:375 | the last piece of a split is the whole string or follows the separator at the string's end; for a separator that cannot overlap itself, as all those the source uses, `split(sep)[-1]` is what follows the last occurrence |
| Strings.SplitOnPieces | clients/forum_client.py:371 | no piece of a split contains the separator |
| Strings.SplitOnAbsent | clients/forum_client.py:369-371 | a string that does not hold the separator splits into itself alone |
| Strings.ReplaceAllShape | clients/forum_client.py:370 | `replace` puts the replacement exactly where the target stood: the string and the result are the same pieces, none holding the target, joined with the target and with the replacement |
| Strings.ReplaceAllAbsent | clients/forum_client.py:369-370 | replacing a target that does not occur changes nothing |
| Strings.Lower | clients/forum_client.py:319 | lower-casing keeps the length |
| Urls.ResolveUrl | clients/forum_client.py:269-272 | defines image-source completion: a `/` path gets the base URL in front, another non-`http` source gets the base URL and `/` in front, an `http` source is kept |
| Urls.ResolveHref | clients/forum_client.py:352-353 | defines link-target completion: only a `/` path gets the base URL in front |
| Urls.ResolveUrlShape | clients/forum_client.py:269-272 | the completed URL ends with the source; an `http` source is unchanged; otherwise the base URL is in front |
| Urls.ResolveUrlIdempotent | clients/forum_client.py:326-329 | with an `http` base the completed URL is absolute and completing it again changes nothing |
| Markup.TextNodes | clients/forum_client.py:493 | defines `.//text()`: the element's text, then for each child its text nodes and its tail, in document order |
| Markup.FlattenText | clients/forum_client.py:489-495 | defines `_extract_text_content`: the non-blank text nodes, each stripped, joined with single spaces |
| Markup.Descendants | clients/forum_client.py:264 | defines the descendant query: every element below the node, in document order, comments and processing instructions left out |
| Markup.NonBlank | clients/forum_client.py:494 | the kept text nodes are non-empty and stripped, and there are no more of them than text nodes |
| Markup.Kept | clients/forum_client.py:494 | one text node is kept iff it is not blank, and then it is kept stripped |
| Markup.NonBlankAppend | clients/forum_client.py:493-494 | filtering text nodes distributes over concatenation, so document order is kept |
| Markup.JoinTrimmed | clients/forum_client.py:494 | joining trimmed non-empty pieces with spaces is trimmed and is empty iff there are no pieces |
| Markup.FlattenTextTrimmed | clients/forum_client.py:489-495 | `_extract_text_content` has no surrounding whitespace and is empty iff every descendant text node is blank |
| Markup.NonBlankEmpty | clients/forum_client.py:494 | nothing is kept iff every text node is blank |
| Markup.DescendantsAreElements | clients/forum_client.py:264 | the descendant query yields elements only |
| Markup.DescendantsOfChild | clients/forum_client.py:408 | a child element and everything below it are among the descendants |
| Assemble.CollapseBlankLines | clients/forum_client.py:479 | defines `re.sub(r'\n\s*\n', '\n\n', s)`: a left-to-right scan that replaces each match, from a newline to the last newline of the whitespace run after it, with two newlines |
| Assemble.RunEnd | clients/forum_client.py:479 | defines where a match of `\n\s*\n` that starts at a newline ends: the last newline of the following whitespace run, or no match |
| Assemble.Clean | clients/forum_client.py:479-481 | defines the cleanup: the blank-line rule, then the space rule, then `strip()` |
| Assemble.AssembleText | clients/forum_client.py:476-481 | defines the content text: the fragments joined with single spaces, then cleaned |
| Assemble.LastNewline | clients/forum_client.py:479 | the position found holds the last newline, and is absent iff there is no newline |
| Assemble.CollapseSpaces | clients/forum_client.py:480 | merging spaces never lengthens the text and keeps its first character |
| Assemble.CollapseBlankLinesKeepsText | clients/forum_client.py:479 | the blank-line rule keeps some text before every newline that had text before it |
| Assemble.CollapseBlankLinesNormal | clients/forum_client.py:479 | after the blank-line rule every whitespace-only gap between two newlines is a bare `\n\n` |
| Assemble.CollapseBlankLinesFixed | clients/forum_client.py:479 | the blank-line rule changes nothing on a text already in that form |
| Assemble.CollapseSpacesNormal | clients/forum_client.py:480 | after the space rule no two spaces are adjacent |
| Assemble.CollapseSpacesFixed | clients/forum_client.py:480 | the space rule changes nothing on a text without adjacent spaces |
| Assemble.CollapseSpacesKeepsText | clients/forum_client.py:480 | the space rule keeps text before every newline |
| Assemble.CollapseSpacesKeepsBlankLines | clients/forum_client.py:479-480 | the space rule does not undo the blank-line rule |
| Assemble.CleanNormalForm | clients/forum_client.py:476-481 | the cleaned text is trimmed, has no two adjacent spaces and no blank-line run other than `\n\n` |
| Assemble.NoTripleNewline | clients/forum_client.py:479 | a text in that form never holds three newlines in a row |
| Assemble.CleanIdempotent | clients/forum_client.py:479-481 | cleaning a cleaned text changes nothing |
| Content.WalkElement | clients/forum_client.py:308-318 | defines `parse_element`: the element's stripped text when not blank, then the walk of its children with the flag carried through |
| Content.WalkChildren | clients/forum_client.py:318-470 | defines the loop over the children from one index on: each child's rule, then its stripped tail unless the rule said `continue`, and the flag passed to the next sibling; a raise ends the loop |
| Content.WalkChild | clients/forum_client.py:318-319 | defines one iteration: a comment or processing instruction raises at `child.tag.lower()`; an element goes to the rules with its lower-cased tag |
| Content.ChildRule | clients/forum_client.py:321-398 | defines the first rule group in the source's order: `img`, `a`, `iframe`, headings, `blockquote`, `br`, otherwise the container rules |
| Content.ContainerRule | clients/forum_client.py:400-438 | defines the `span` and `div` rules: an armed caption span that mentions Steam is dropped with its tail and clears the flag, a skip class is dropped with its tail, any other span or div is walked in place |
| Content.FormatRule | clients/forum_client.py:440-464 | defines the last rule group: bold, italic, a `p` with text as a paragraph, a script-like tag dropped with its tail, everything else walked in place |
| Content.Recurse | clients/forum_client.py:425 | defines the recursive call `parse_element(child)` (also at lines 438 and 464): the child's walk, with its tail kept |
| Content.LinkStep | clients/forum_client.py:332-356 | defines the `a` rule: a Steam link marker, an in-page anchor's text, a `javascript:` link dropped with its tail, a link marker with the completed target, or the bare text |
| Content.FrameStep | clients/forum_client.py:358-380 | defines the `iframe` rule: a Steam widget marker that arms the flag, a countdown marker when the `t` parameter is digits (a raise when the local time cannot be formed), or `[嵌入内容]` |
| Content.ImageFragments | clients/forum_client.py:321-330 | defines the walk's `img` rule: `[图片: url]` with the completed `file` attribute, unless it is empty or a `data:` URL |
| Content.QuoteFragments | clients/forum_client.py:388-394 | defines the `blockquote` rule: the non-blank lines of the flattened text, each after `> `, joined with newlines between two newlines, or nothing when the text is empty |
| Content.WidgetUrl | clients/forum_client.py:369-371 | defines the widget address: `widget` rewritten to `app` when present, then everything before the first `?` |
| Content.CountdownParam | clients/forum_client.py:375 | defines `src.split('t=')[-1].split('&')[0]` |
| Content.MessageContent | clients/forum_client.py:301-487 | defines `_parse_message_content`: the walk of the body with the flag cleared, assembled into text, or `内容解析失败` when the walk raises |
| Content.QuoteLines | clients/forum_client.py:393 | a quote has no more lines than its source text |
| Content.ResumeStep | clients/forum_client.py:318-470 | one loop iteration appends the child's fragments, then its tail if the rule keeps it, and carries the flag on |
| Content.ResumeFail | clients/forum_client.py:318-465 | a child whose rule raises ends the walk of its siblings |
| Content.ResumeElement | clients/forum_client.py:312-318 | an element's walk is its own stripped text followed by the walk of its children |
| Content.ResumeDone | clients/forum_client.py:318 | past the last child nothing more is appended |
| Content.ContentParser.constructor | clients/forum_client.py:304-305 | the walk starts with an empty fragment list and the flag cleared |
| Content.ContentParser.ParseElement | clients/forum_client.py:308-470 | `parse_element` appends exactly the walk's fragments and leaves the flag as the walk says, or raises exactly when the walk does |
| Content.ContentParser.VisitChild | clients/forum_client.py:318-470 | one iteration of the child loop moves the walk from child `i` to child `i + 1`, or ends it with the error |
| Content.ContentParser.AppendStripped | clients/forum_client.py:312-315 | an element's text or a child's tail is appended stripped, and only when it is not blank |
| Content.ContentParser.ParseChild | clients/forum_client.py:319-465 | the rule chosen by the lower-cased tag appends what `WalkChild` says, and says whether the tail is kept |
| Content.ContentParser.ParseContainer | clients/forum_client.py:400-438 | the `span` and `div` rules append what `ContainerRule` says |
| Content.ContentParser.ParseFormat | clients/forum_client.py:440-464 | the emphasis, paragraph, script and fallback rules append what `FormatRule` says |
| Content.ContentParser.ParseLink | clients/forum_client.py:332-356 | the link rules append what `LinkStep` says |
| Content.ContentParser.ParseFrame | clients/forum_client.py:358-380 | the frame rules append what `FrameStep` says, or raise where the timestamp conversion raises |
| Content.ParseMessageContent | clients/forum_client.py:301-487 | the method returns the joined and cleaned fragments, or `内容解析失败` when the walk raises |
| WalkProperties.DroppedTail | clients/forum_client.py:347-470 | a child keeps its tail iff it is not a `javascript:` link, a suppressed caption span, a span or div with a skipped class, or a script-like element |
| WalkProperties.ChildRuleTail | clients/forum_client.py:321-398 | the tail rule for the media, heading, quote and break group |
| WalkProperties.ContainerRuleTail | clients/forum_client.py:400-438 | the tail rule for the span and div group |
| WalkProperties.FormatRuleTail | clients/forum_client.py:440-464 | in the last group only the script rule drops the tail |
| WalkProperties.LinkRules | clients/forum_client.py:332-356 | a link emits at most one fragment and never moves the flag; it emits nothing iff it is a `javascript:` link or, outside the Steam rule, has no text; only `javascript:` drops its tail; a Steam link emits `[Steam链接: text]`, or its target when it has no text; an in-page anchor, or a link without target or text, emits only its text when it has one; any other link emits `[链接: text - target]`, with the base URL in front of a `/` target |
| WalkProperties.WidgetUrlShape | clients/forum_client.py:369-371 | the widget address is the rewritten source cut at its first `?`: it holds no `?` and is the whole rewritten source or is followed there by `?` |
| WalkProperties.WidgetRewrite | clients/forum_client.py:369-370 | the `if 'widget' in src` guard changes nothing: the rewritten source is `src.replace('widget', 'app')` either way, with `app` wherever the source held `widget` |
| WalkProperties.CountdownParamShape | clients/forum_client.py:375 | the countdown parameter holds no `&` and is cut at the first `&` of the text after the last `t=` (a piece without `t=` that ends the source) |
| WalkProperties.FrameRules | clients/forum_client.py:358-380 | a Steam frame emits its widget marker and arms the flag; other frames keep the flag and emit at most one fragment; a countdown with a non-digit parameter emits nothing; the walk raises iff a digit countdown cannot be converted |
| WalkProperties.SpanRules | clients/forum_client.py:400-425 | a suppressed caption span emits nothing, drops its tail and clears the flag; a skipped-class span emits nothing and drops its tail; any other span is walked in place |
| WalkProperties.DivNeverParagraph | clients/forum_client.py:427-456 | a `div` is skipped or walked in place, never given the paragraph rule |
| WalkProperties.QuoteLinesShape | clients/forum_client.py:393 | every quote line is `> ` followed by non-blank text |
| WalkProperties.QuoteLinesAppend | clients/forum_client.py:393 | the quote of two runs of lines is the quote of each in turn, so source order is kept |
| WalkProperties.QuoteLinesMembers | clients/forum_client.py:393 | a quote line is `> ` in front of a non-blank source line, and every non-blank source line gives one |
| WalkProperties.QuoteLinesEmpty | clients/forum_client.py:393 | a quote has no lines iff every source line is blank |
| WalkProperties.WalkElementNonEmpty | clients/forum_client.py:312-470 | no walk emits an empty fragment; a blank text or tail never becomes one |
| WalkProperties.WalkChildrenNonEmpty | clients/forum_client.py:318-470 | the children's walk emits no empty fragment |
| WalkProperties.WalkChildNonEmpty | clients/forum_client.py:319-470 | one child's rule emits no empty fragment |
| WalkProperties.ChildRuleNonEmpty | clients/forum_client.py:321-398 | the first rule group emits no empty fragment |
| WalkProperties.ContainerRuleNonEmpty | clients/forum_client.py:400-438 | the container rules emit no empty fragment |
| WalkProperties.FormatRuleNonEmpty | clients/forum_client.py:440-464 | the last rule group emits no empty fragment |
| WalkProperties.LinkNonEmpty | clients/forum_client.py:332-356 | the link rules emit no empty fragment |
| WalkProperties.CommentChildRaises | clients/forum_client.py:318-319 | a comment or processing instruction among the children makes the element's walk raise |
| WalkProperties.ChildrenRaise | clients/forum_client.py:318-319 | such a child makes the walk raise from every earlier child on |
| WalkProperties.FlagSteady | clients/forum_client.py:373-412 | the flag moves only at a Steam frame (set) or a caption span (cleared); a subtree with neither leaves it as it was |
| WalkProperties.FlagSteadyChildren | clients/forum_client.py:318-470 | the same for the walk of the children |
| WalkProperties.ChildRuleSteady | clients/forum_client.py:321-398 | the same for the first rule group |
| WalkProperties.ContainerRuleSteady | clients/forum_client.py:400-438 | the same for the container rules |
| WalkProperties.FormatRuleSteady | clients/forum_client.py:440-464 | the same for the last rule group |
| WalkProperties.SteamFrameStep | clients/forum_client.py:358-373 | a Steam frame child appends its widget marker and tail and arms the flag for the next sibling |
| WalkProperties.CaptionStep | clients/forum_client.py:405-413 | a caption span met with the flag armed emits nothing, loses its tail and clears the flag for the next sibling |
| WalkProperties.ArmedAcrossSteady | clients/forum_client.py:318-470 | over siblings that are not spans and hold none, an armed flag stays armed up to the next child, unless the walk raises |
| WalkProperties.SteamCaptionConsumed | clients/forum_client.py:369-413 | a Steam frame followed, past such siblings, by a caption span: the widget marker and tail come first and the walk after the span continues with the flag cleared |
| WalkProperties.SteamCaptionAdjacent | clients/forum_client.py:369-413 | a Steam frame directly followed by a caption span emits exactly the widget marker and the frame's tail and leaves the flag cleared |
| WalkProperties.PlainWalk | clients/forum_client.py:312-470 | below tags no rule takes, the walk emits exactly the stripped non-blank text nodes in document order |
| WalkProperties.PlainWalkChildren | clients/forum_client.py:318-470 | the same for the walk of the children |
| WalkProperties.PlainWalkChild | clients/forum_client.py:462-470 | the same for one child walked by the fallback |
| WalkProperties.PlainContent | clients/forum_client.py:301-495 | such a post body reads as its cleaned flattened text |
| WalkProperties.MessageContentForm | clients/forum_client.py:473-487 | the content is `内容解析失败` when the walk raises; otherwise it is trimmed, has no double space and no blank-line run, and re-cleaning leaves it unchanged |
| Collectors.IsTagElement | clients/forum_client.py:284 | defines the tag query: a `span` whose class is exactly `tag`, or an `a` whose class contains `tag` |
| Collectors.ImageUrls | clients/forum_client.py:264-273 | defines the image list: for each descendant `img` with a `src` that is not empty and not a `data:` URL, the completed URL, in order, duplicates kept |
| Collectors.TagTexts | clients/forum_client.py:284-288 | defines the tag list: for each tag element whose own text is not blank, that text stripped, in order |
| Collectors.PostDetails | clients/forum_client.py:240-254 | defines the dictionary returned for a located post body: the parsed content, the publish time, the images and the tags |
| Collectors.CollectAppend | clients/forum_client.py:265-273 | collecting over two runs of elements collects each in turn |
| Collectors.CollectMembers | clients/forum_client.py:265-288 | a value is collected iff some element yields it |
| Collectors.ImageUrlsAppend | clients/forum_client.py:264-273 | the image list follows document order |
| Collectors.ImageUrlsMembers | clients/forum_client.py:264-273 | a URL is listed iff some descendant `img` contributes it |
| Collectors.ImageUrlShape | clients/forum_client.py:266-272 | a listed URL comes from an `img` whose `src` is neither empty nor `data:`, ends with that `src`, and is the `src` unchanged when it is an `http` URL |
| Collectors.ExtractImages | clients/forum_client.py:260-276 | the loop appends exactly the image URLs of the descendants, in order |
| Collectors.TagTextsMembers | clients/forum_client.py:284-288 | a tag is listed iff some tag element's stripped text is that tag |
| Collectors.TagTextsTrimmed | clients/forum_client.py:286-288 | every listed tag is non-empty and stripped |
| Collectors.ExtractTags | clients/forum_client.py:278-291 | the loop appends exactly the tag texts of the descendants, in order |
| Collectors.LoadPostDetails | clients/forum_client.py:240-258 | an unreadable page gives `None`; otherwise the dictionary holds the content, the publish time, the image list and the tag list |
| Post.Load | models/post.py:28-48 | defines `_load_details`: nothing for a loaded post or one without a client; otherwise one request whose truthy answer fills the fields with their defaults and sets the flag, whose falsy answer changes nothing else, and whose exception sets the failure values and the flag |
| Post.ReadContent | models/post.py:50-55 | defines the `content` property: load when the field is unset, then the field or `""` |
| Post.ReadPublishTime | models/post.py:57-62 | defines the `publish_time` property: load when the field is unset, then the field or now |
| Post.ReadImages | models/post.py:64-69 | defines the `images` property: load when the field is unset, then the field or `[]` |
| Post.ReadTags | models/post.py:71-76 | defines the `tags` property: load when the field is unset, then the field or `[]` |
| Post.Preload | models/post.py:95-98 | defines `preload_details`: load only when the post is not loaded |
| Post.TelegramMessage | models/post.py:78-89 | defines `to_telegram_message`: the title line, the author and time line, the tag line when there are tags, the content and the link, with the reads done in the source's order |
| Post.LoadConsistent | models/post.py:28-98 | loading, every read and the preload keep the four fields all set once loaded and all unset before |
| Post.LoadGuard | models/post.py:30-31 | a loaded post or one without a client is left as it is; otherwise the client is asked exactly once |
| Post.LoadSucceeds | models/post.py:35-41 | a truthy answer fills the fields with the defaults `''`, now, `[]`, `[]` for missing keys and marks the post loaded |
| Post.FalsyRetries | models/post.py:35-41 | a falsy answer changes nothing but the request count, so the next read asks again |
| Post.RaisedIsPermanent | models/post.py:30-48 | an exception gives `内容加载失败`, now and empty lists and marks the post loaded; no later read asks again |
| Post.LoadedReadsAreStable | models/post.py:50-98 | on a loaded post no read or preload changes anything, and each read returns its field |
| Post.ReadAsksOnlyWhenEmpty | models/post.py:50-76 | each of the four reads asks the client iff its field is unset, the post is not loaded and there is a client; an unset field reads as `""`, now or `[]` |
| Post.MessageShape | models/post.py:78-89 | the message starts with `**title**\n` and ends with `\n[查看原帖](url)`; on a loaded post it shows the tag line exactly when there are tags |
| Post.MessageLoadsOnce | models/post.py:78-89 | when the first answer is truthy or an exception, building the message asks the client exactly once |
| Post.LoadForumDetails | models/post.py:35-41 | the forum client's dictionary loads the parsed content, publish time, images and tags; a `None` answer leaves the post unloaded |
| Post.ForumPost.constructor | models/post.py:10-26 | a new post stores its id, title, url and author, has no details and is not loaded |
| Post.ForumPost.LoadDetails | models/post.py:28-48 | `_load_details` performs the `Load` transition |
| Post.ForumPost.Content | models/post.py:50-55 | the `content` property performs `ReadContent` |
| Post.ForumPost.PublishTime | models/post.py:57-62 | the `publish_time` property performs `ReadPublishTime` |
| Post.ForumPost.Images | models/post.py:64-69 | the `images` property performs `ReadImages` |
| Post.ForumPost.Tags | models/post.py:71-76 | the `tags` property performs `ReadTags` |
| Post.ForumPost.IsDetailsLoaded | models/post.py:91-93 | `is_details_loaded` returns exactly the flag |
| Post.ForumPost.PreloadDetails | models/post.py:95-98 | `preload_details` loads only a post that is not loaded |
| Post.ForumPost.ToTelegramMessage | models/post.py:78-89 | the step-by-step message is `TelegramMessage`, with the reads in the source's order |
| ForumLinks.FindAll | clients/telegram_client.py:189 | defines `re.findall(literal + r'(\d+)', text)`: scanning from the left, at each occurrence of the literal followed by a digit the maximal digit run is captured and the scan resumes after it |
| ForumLinks.Ids | clients/telegram_client.py:190 | defines `[int(match) for match in matches if match.isdigit()]` |
| ForumLinks.PatternIds | clients/telegram_client.py:187-190 | defines the list `threads` after the loop: the ids of each pattern's matches, pattern by pattern |
| ForumLinks.LeadingDigits | clients/telegram_client.py:184-185 | the greedy `\d+`: a run of digits not followed by a digit |
| ForumLinks.FindAllSound | clients/telegram_client.py:187-190 | every capture is a non-empty maximal digit run right after the literal, so the `isdigit()` filter drops nothing |
| ForumLinks.FindAllEmpty | clients/telegram_client.py:188 | the scan finds nothing iff the literal is followed by a digit nowhere |
| ForumLinks.Capture | clients/telegram_client.py:184-185 | at a match, the captured text is digits and is the maximal digit run after the literal |
| ForumLinks.Next | clients/telegram_client.py:189 | the scan moves on by at least one character and no further than the text's end |
| ForumLinks.FindAllNext | clients/telegram_client.py:189 | one scan step: the capture of a match at the front, if there is one, then the scan from behind it |
| ForumLinks.FindAllFront | clients/telegram_client.py:189 | a match at the front is captured first and the scan resumes right behind its digits |
| ForumLinks.FindAllSkip | clients/telegram_client.py:189 | positions before the leftmost match are passed without a capture: the scan of the text equals the scan from that match on |
| ForumLinks.FindAllFirstMatch | clients/telegram_client.py:189 | the scan's first capture is that of the leftmost match |
| ForumLinks.FindAllComplete | clients/telegram_client.py:189 | every match that no earlier match reaches into is found: its capture is among the scan's results |
| ForumLinks.IdsMembers | clients/telegram_client.py:189 | an id is listed iff some digit capture denotes it |
| ForumLinks.Distinct | clients/telegram_client.py:191 | `list(set(...))` has no duplicates and the same members |
| ForumLinks.ExtractForumLinks | clients/telegram_client.py:180-191 | the result has no duplicates and holds exactly the ids of both patterns |
| ForumLinks.PatternIdsOfBase | clients/telegram_client.py:183-190 | the loop's list is the long-form ids followed by the short-form ids |
| ForumLinks.ForumLinkSound | clients/telegram_client.py:183-191 | every returned id is the value of a maximal digit run after `<base>/thread-` or `<base>/t` |
| ForumLinks.ForumLinkComplete | clients/telegram_client.py:183-191 | every match of `<base>/thread-` or `<base>/t` that no earlier match of the same pattern reaches into contributes its id to the loop's list, and so to the result |
| ForumLinks.NoLinkNoIds | clients/telegram_client.py:187-191 | a text where neither literal is followed by a digit yields no id |
| ForumLinks.PatternsDisjoint | clients/telegram_client.py:184-185 | the short form never matches where the long form does |

## Left out

- Network, session and login I/O of the forum client is not modelled. This includes fetching and locating the post on its page and `_parse_time`. `Collectors.LoadPostDetails` takes the located body and parsed time as input, with `None` for a page whose request or lookup fails.
- The lxml parser and XPath engine are not modelled. The tree is a datatype, and each query is a traversal of it.
- Date and time are parameters. The clock is the constant `now`. The countdown's `datetime.fromtimestamp(...).strftime(...)` is `Env.localTime`, where `None` means the conversion raises. The publish-time formatting in the message is the parameter `timeText`.
- `Strings.Lower`: only ASCII letters are lower-cased. Python's `str.lower()` also lowers other scripts. The substring checks that call it look only for ASCII words (`steam`, `countdown`, tag names).
- `Strings.IsDigits`: only ASCII digits count. Python's `isdigit()` and `\d` also accept other Unicode digits.
- `Markup.FlattenText`: the `except` fallback of `_extract_text_content` is not modelled. Nothing in the tree model can raise there.
- The `except` paths of the two collectors are not modelled. Nothing in the model raises there.
- `ForumLinks.FindAllComplete`: the lemma covers a match only when no earlier match reaches into it. `re.findall` also finds a match that only an earlier, itself skipped, match reaches into. The lemma does not cover that case. When the base URL does not begin with a digit, no match can start inside an earlier match's digits.
- `ForumLinks.Distinct`: the order of `list(set(...))` is that of a Python hash set. The model keeps first occurrences. Its contract says only what the source guarantees: no duplicates and the same members.
- `Post.LoadOutcome`: a dictionary key that is present with the value `None` is not modelled. The forum client never builds one.
- The loader is called with `self.id` where the client expects a page URL. The model's loader is an oracle, so the call's argument is not modelled.
- `Content.WalkElement`: the walk has no depth limit. In the source each nesting level is one Python call, so a tree deeper than the recursion limit raises `RecursionError`, which the `except` turns into `内容解析失败`. The model walks any depth.
- The async Telegram client, the post service, the scheduler, the configuration, `main.py` and `models/thread.py` are outside this model.
