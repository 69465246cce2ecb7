/**
 * The two collectors that run over a post body besides the text walk, the
 * image list (clients/forum_client.py:260-276) and the tag list
 * (clients/forum_client.py:278-291), and the result of `load_post_details`
 * (clients/forum_client.py:240-253), the dictionary the lazy post reads.
 */
module Collectors {
  import opened Wrappers
  import opened Strings
  import opened Urls
  import opened Markup
  import opened Content

  /** A point in time, as the clock and the time parser give it. */
  type Time = nat

  /**
   * The dictionary `load_post_details` returns, as the post model reads it:
   * each of the four keys it looks up may be missing, and `otherKeys` says
   * whether the dictionary holds any other key (which makes it truthy).
   */
  datatype Details = Details(
    content: Option<string>,
    publishTime: Option<Time>,
    images: Option<seq<string>>,
    tags: Option<seq<string>>,
    otherKeys: bool)

  // ---------------------------------------------------------------------------
  // Collecting over the descendants

  /** The values `f` yields for a run of descendants, in document order,
      duplicates kept: the list both collectors build. */
  function Collect<T>(ds: seq<Node>, f: Node -> Option<T>): seq<T> {
    if |ds| == 0 then []
    else Collect(ds[..|ds| - 1], f) + (if f(Last(ds)).Some? then [f(Last(ds)).value] else [])
  }

  /** One more descendant adds what it yields at the end. */
  lemma CollectStep<T>(ds: seq<Node>, i: nat, f: Node -> Option<T>)
    requires i < |ds|
    ensures Collect(ds[..i + 1], f) == Collect(ds[..i], f) + (if f(ds[i]).Some? then [f(ds[i]).value] else [])
  {
    assert ds[..i + 1][..i] == ds[..i];
  }

  /** Collecting over two runs one after the other collects each in turn. */
  lemma {:induction false} CollectAppend<T>(a: seq<Node>, b: seq<Node>, f: Node -> Option<T>)
    ensures Collect(a + b, f) == Collect(a, f) + Collect(b, f)
    decreases |b|
  {
    if |b| > 0 {
      assert (a + b)[..|a + b| - 1] == a + b[..|b| - 1];
      assert Last(a + b) == Last(b);
      CollectAppend(a, b[..|b| - 1], f);
    } else {
      assert a + b == a;
    }
  }

  /** A value is collected exactly when some descendant yields it. */
  lemma {:induction false} CollectMembers<T>(ds: seq<Node>, f: Node -> Option<T>, u: T)
    ensures u in Collect(ds, f) <==> exists k :: 0 <= k < |ds| && f(ds[k]) == Some(u)
    decreases |ds|
  {
    if |ds| > 0 {
      var front := ds[..|ds| - 1];
      CollectMembers(front, f, u);
      assert forall k :: 0 <= k < |front| ==> front[k] == ds[k];
      if f(Last(ds)) == Some(u) {
        assert f(ds[|ds| - 1]) == Some(u);
      }
    }
  }

  // ---------------------------------------------------------------------------
  // Images

  /** An element the `.//img` query yields. */
  predicate IsImg(d: Node) {
    d.Element? && d.tag == "img"
  }

  /** The URL one descendant contributes: an `img` whose `src` is neither empty
      nor a `data:` URL, completed against the base URL. */
  function ImageUrl(d: Node, baseUrl: string): Option<string> {
    if IsImg(d) && Attr(d, "src") != "" && !StartsWith(Attr(d, "src"), "data:") then
      Some(ResolveUrl(baseUrl, Attr(d, "src")))
    else None
  }

  /** The URLs of a run of descendants, in order, duplicates kept. */
  function ImageUrls(ds: seq<Node>, baseUrl: string): seq<string> {
    Collect(ds, d => ImageUrl(d, baseUrl))
  }

  /** The image list follows document order: the images of a run of elements
      are those of its first part followed by those of the rest. */
  lemma ImageUrlsAppend(a: seq<Node>, b: seq<Node>, baseUrl: string)
    ensures ImageUrls(a + b, baseUrl) == ImageUrls(a, baseUrl) + ImageUrls(b, baseUrl)
  {
    CollectAppend(a, b, d => ImageUrl(d, baseUrl));
  }

  /** A URL is collected exactly when some descendant contributes it. */
  lemma ImageUrlsMembers(ds: seq<Node>, baseUrl: string, u: string)
    ensures u in ImageUrls(ds, baseUrl) <==> exists k :: 0 <= k < |ds| && ImageUrl(ds[k], baseUrl) == Some(u)
  {
    var f := d => ImageUrl(d, baseUrl);
    CollectMembers(ds, f, u);
    assert forall k :: 0 <= k < |ds| ==> f(ds[k]) == ImageUrl(ds[k], baseUrl);
  }

  /** Every collected URL ends with its element's `src`, which is neither empty
      nor a `data:` URL, and is that `src` unchanged when it is an `http` URL. */
  lemma ImageUrlShape(d: Node, baseUrl: string)
    requires ImageUrl(d, baseUrl).Some?
    ensures var src := Attr(d, "src");
      var u := ImageUrl(d, baseUrl).value;
      && IsImg(d) && src != "" && !StartsWith(src, "data:")
      && |u| >= |src| && u[|u| - |src|..] == src
      && (StartsWith(src, "http") ==> u == src)
  {
    ResolveUrlShape(baseUrl, Attr(d, "src"));
  }

  /** `_extract_images_from_content`: the `.//img` query and the loop over its results. */
  method ExtractImages(messageElement: Node, baseUrl: string) returns (images: seq<string>)
    ensures images == ImageUrls(Descendants(messageElement), baseUrl)
  {
    var elements := Descendants(messageElement);
    images := [];
    var i := 0;
    while i < |elements|
      invariant 0 <= i <= |elements|
      invariant images == ImageUrls(elements[..i], baseUrl)
    {
      var img := elements[i];
      if IsImg(img) {
        var src := Attr(img, "src");
        if src != "" && !StartsWith(src, "data:") {
          src := ResolveUrl(baseUrl, src);
          images := images + [src];
        }
      }
      CollectStep(elements, i, d => ImageUrl(d, baseUrl));
      i := i + 1;
    }
    assert elements[..i] == elements;
  }

  // ---------------------------------------------------------------------------
  // Tags

  /** An element the `.//span[@class="tag"] | .//a[contains(@class, "tag")]` query yields. */
  predicate IsTagElement(d: Node) {
    && d.Element?
    && ((d.tag == "span" && Attr(d, "class") == "tag") || (d.tag == "a" && Contains(Attr(d, "class"), "tag")))
  }

  /** The tag one descendant contributes: its own text, stripped, unless blank. */
  function TagText(d: Node): Option<string> {
    if IsTagElement(d) && Strip(TextOr(d)) != "" then Some(Strip(TextOr(d))) else None
  }

  function TagTexts(ds: seq<Node>): seq<string> {
    Collect(ds, TagText)
  }

  /** A tag is collected exactly when some descendant contributes it. */
  lemma TagTextsMembers(ds: seq<Node>, t: string)
    ensures t in TagTexts(ds) <==> exists k :: 0 <= k < |ds| && TagText(ds[k]) == Some(t)
  {
    CollectMembers(ds, TagText, t);
  }

  /** Every collected tag is non-empty and has no surrounding whitespace. */
  lemma TagTextsTrimmed(ds: seq<Node>)
    ensures forall t :: t in TagTexts(ds) ==> t != "" && Trimmed(t)
  {
    forall t | t in TagTexts(ds)
      ensures t != "" && Trimmed(t)
    {
      TagTextsMembers(ds, t);
      var k :| 0 <= k < |ds| && TagText(ds[k]) == Some(t);
    }
  }

  /** `_extract_tags_from_content`: the tag query and the loop over its results. */
  method ExtractTags(messageElement: Node) returns (tags: seq<string>)
    ensures tags == TagTexts(Descendants(messageElement))
  {
    var elements := Descendants(messageElement);
    tags := [];
    var i := 0;
    while i < |elements|
      invariant 0 <= i <= |elements|
      invariant tags == TagTexts(elements[..i])
    {
      var tagElem := elements[i];
      if IsTagElement(tagElem) {
        var tagText := TextOr(tagElem);
        var stripped := Strip(tagText);
        if stripped != "" {
          tags := tags + [stripped];
        }
      }
      CollectStep(elements, i, TagText);
      i := i + 1;
    }
    assert elements[..i] == elements;
  }

  // ---------------------------------------------------------------------------
  // The details of one post

  /** The dictionary built from a post body once the page has been fetched and
      the body and publish time located. */
  function PostDetails(postMessage: Node, publishTime: Time, env: Env): Details
    requires postMessage.Element?
  {
    Details(
      Some(MessageContent(postMessage, env)),
      Some(publishTime),
      Some(ImageUrls(Descendants(postMessage), env.baseUrl)),
      Some(TagTexts(Descendants(postMessage))),
      false)
  }

  /**
   * `load_post_details` after the page request: `page` is the located post
   * body and its parsed publish time, or `None` where the request is refused
   * or a lookup raises (both make the source return `None`).
   */
  method LoadPostDetails(page: Option<(Node, Time)>, env: Env) returns (details: Option<Details>)
    requires page.Some? ==> page.value.0.Element?
    ensures page.None? ==> details.None?
    ensures page.Some? ==> details == Some(PostDetails(page.value.0, page.value.1, env))
  {
    if page.None? {
      return None;
    }
    var (postMessage, publishTime) := page.value;
    var content := ParseMessageContent(postMessage, env);
    var images := ExtractImages(postMessage, env.baseUrl);
    var tags := ExtractTags(postMessage);
    details := Some(Details(Some(content), Some(publishTime), Some(images), Some(tags), false));
  }
}
