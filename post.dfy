/**
 * The lazily loaded forum post of models/post.py.  Four detail fields start
 * empty; the first read of an empty one asks the forum client for the post's
 * details.  A truthy answer fills all four and marks the post loaded, a falsy
 * one changes nothing (so the next read asks again), and an exception fills
 * them with fallbacks and marks the post loaded for good.
 *
 * The forum client is an oracle: `answers(k)` is its answer to the `k`-th
 * request, and `PostState.loadCalls` counts the requests made.  The state
 * transitions are the pure functions below; the class `ForumPost` performs
 * them in place and is proved to follow them.
 */
module Post {
  import opened Wrappers
  import opened Strings
  import opened Markup
  import opened Content
  import opened Collectors

  /** One answer of the forum client: a returned value (a dictionary, or
      `None`), or an exception. */
  datatype LoadOutcome = Returned(details: Option<Details>) | Raised

  /** The client the post was built with; `None` where it has none. */
  type Client = Option<nat -> LoadOutcome>

  /** Python truthiness of the returned value: a dictionary with some key. */
  predicate Truthy(d: Option<Details>) {
    && d.Some?
    && (d.value.content.Some? || d.value.publishTime.Some? || d.value.images.Some? || d.value.tags.Some? || d.value.otherKeys)
  }

  /** The content set when loading raises (models/post.py:44). */
  const LoadFailed: string := "内容加载失败"

  /** The mutable part of a post. */
  datatype PostState = PostState(
    content: Option<string>,
    publishTime: Option<Time>,
    images: Option<seq<string>>,
    tags: Option<seq<string>>,
    isLoaded: bool,
    loadCalls: nat)

  /** A value read from the post together with the state the read leaves. */
  datatype Read<T> = Read(state: PostState, value: T)

  /** The state of a new post. */
  function Initial(): PostState {
    PostState(None, None, None, None, false, 0)
  }

  /** The four detail fields are all filled once the post is loaded and all
      empty before. */
  predicate Consistent(s: PostState) {
    if s.isLoaded then s.content.Some? && s.publishTime.Some? && s.images.Some? && s.tags.Some?
    else s.content.None? && s.publishTime.None? && s.images.None? && s.tags.None?
  }

  /** `_load_details` (models/post.py:28-48); `now` is the clock's reading. */
  function Load(s: PostState, client: Client, now: Time): PostState {
    if s.isLoaded || client.None? then s
    else
      var calls := s.loadCalls + 1;
      match client.value(s.loadCalls)
      case Raised => PostState(Some(LoadFailed), Some(now), Some([]), Some([]), true, calls)
      case Returned(d) =>
        if Truthy(d) then
          PostState(
            Some(d.value.content.GetOr("")),
            Some(d.value.publishTime.GetOr(now)),
            Some(d.value.images.GetOr([])),
            Some(d.value.tags.GetOr([])),
            true,
            calls)
        else s.(loadCalls := calls)
  }

  /** The `content` property (models/post.py:50-55). */
  function ReadContent(s: PostState, client: Client, now: Time): Read<string> {
    var t := if s.content.None? then Load(s, client, now) else s;
    Read(t, t.content.GetOr(""))
  }

  /** The `publish_time` property (models/post.py:57-62). */
  function ReadPublishTime(s: PostState, client: Client, now: Time): Read<Time> {
    var t := if s.publishTime.None? then Load(s, client, now) else s;
    Read(t, t.publishTime.GetOr(now))
  }

  /** The `images` property (models/post.py:64-69). */
  function ReadImages(s: PostState, client: Client, now: Time): Read<seq<string>> {
    var t := if s.images.None? then Load(s, client, now) else s;
    Read(t, t.images.GetOr([]))
  }

  /** The `tags` property (models/post.py:71-76). */
  function ReadTags(s: PostState, client: Client, now: Time): Read<seq<string>> {
    var t := if s.tags.None? then Load(s, client, now) else s;
    Read(t, t.tags.GetOr([]))
  }

  /** `preload_details` (models/post.py:95-98). */
  function Preload(s: PostState, client: Client, now: Time): PostState {
    if !s.isLoaded then Load(s, client, now) else s
  }

  /** The line with the tags, empty when there are none. */
  function TagLine(tags: seq<string>): string {
    if tags != [] then "标签: " + Join(", ", tags) + "\n" else ""
  }

  /**
   * `to_telegram_message` (models/post.py:78-89): the properties are read in
   * the source's order (publish time, tags, tags again when there are any,
   * content); `timeText` stands for `strftime('%Y-%m-%d %H:%M')`.
   */
  function TelegramMessage(s: PostState, title: string, url: string, author: string,
                           client: Client, now: Time, timeText: Time -> string): Read<string>
  {
    var pt := ReadPublishTime(s, client, now);
    var tags := ReadTags(pt.state, client, now);
    var shown := if tags.value != [] then ReadTags(tags.state, client, now) else tags;
    var line := if tags.value != [] then TagLine(shown.value) else "";
    var content := ReadContent(shown.state, client, now);
    var message := "**" + title + "**\n" + author + " \\ " + timeText(pt.value) + "\n"
      + line + content.value + "\n" + "\n[查看原帖](" + url + ")";
    Read(content.state, message)
  }

  // ---------------------------------------------------------------------------
  // Properties of the state machine

  /** A new post is consistent, and every operation keeps it so. */
  lemma LoadConsistent(s: PostState, client: Client, now: Time)
    requires Consistent(s)
    ensures Consistent(Load(s, client, now))
    ensures Consistent(ReadContent(s, client, now).state)
    ensures Consistent(ReadPublishTime(s, client, now).state)
    ensures Consistent(ReadImages(s, client, now).state)
    ensures Consistent(ReadTags(s, client, now).state)
    ensures Consistent(Preload(s, client, now))
  {
  }

  /** Loading asks the client at most once, and only when the post is not yet
      loaded and has a client; a loaded post, or one without a client, is
      left exactly as it is. */
  lemma LoadGuard(s: PostState, client: Client, now: Time)
    ensures var t := Load(s, client, now);
      && (s.isLoaded || client.None? ==> t == s)
      && (!s.isLoaded && client.Some? ==> t.loadCalls == s.loadCalls + 1)
  {
  }

  /** A truthy answer fills the fields from the dictionary, with the source's
      defaults for missing keys, and marks the post loaded. */
  lemma LoadSucceeds(s: PostState, client: Client, now: Time)
    requires !s.isLoaded && client.Some?
    requires client.value(s.loadCalls).Returned? && Truthy(client.value(s.loadCalls).details)
    ensures var d := client.value(s.loadCalls).details.value;
      var t := Load(s, client, now);
      && t.isLoaded
      && t.content == Some(d.content.GetOr(""))
      && t.publishTime == Some(d.publishTime.GetOr(now))
      && t.images == Some(d.images.GetOr([]))
      && t.tags == Some(d.tags.GetOr([]))
  {
  }

  /** A falsy answer changes nothing but the request count, so the next read
      of any property asks the client again. */
  lemma FalsyRetries(s: PostState, client: Client, now: Time)
    requires Consistent(s) && !s.isLoaded && client.Some?
    requires client.value(s.loadCalls).Returned? && !Truthy(client.value(s.loadCalls).details)
    ensures var t := ReadContent(s, client, now).state;
      && t == s.(loadCalls := s.loadCalls + 1)
      && !t.isLoaded
      && ReadContent(t, client, now).state.loadCalls == s.loadCalls + 2
      && ReadTags(t, client, now).state.loadCalls == s.loadCalls + 2
  {
  }

  /** An exception gives the fallback details and marks the post loaded; from
      then on no read asks the client again and every read returns the fallback. */
  lemma RaisedIsPermanent(s: PostState, client: Client, now: Time, later: Time)
    requires Consistent(s) && !s.isLoaded && client.Some? && client.value(s.loadCalls).Raised?
    ensures var t := Load(s, client, now);
      && t.isLoaded && t.loadCalls == s.loadCalls + 1
      && ReadContent(t, client, later) == Read(t, LoadFailed)
      && ReadPublishTime(t, client, later) == Read(t, now)
      && ReadImages(t, client, later) == Read(t, [])
      && ReadTags(t, client, later) == Read(t, [])
      && Preload(t, client, later) == t
  {
  }

  /** Once loaded, reads change nothing and ask nothing: each returns its field. */
  lemma LoadedReadsAreStable(s: PostState, client: Client, now: Time)
    requires Consistent(s) && s.isLoaded
    ensures ReadContent(s, client, now) == Read(s, s.content.value)
    ensures ReadPublishTime(s, client, now) == Read(s, s.publishTime.value)
    ensures ReadImages(s, client, now) == Read(s, s.images.value)
    ensures ReadTags(s, client, now) == Read(s, s.tags.value)
    ensures Preload(s, client, now) == s
  {
  }

  /** A read asks the client exactly when its field is empty, the post is not
      loaded and there is a client; without a field it returns the default. */
  lemma ReadAsksOnlyWhenEmpty(s: PostState, client: Client, now: Time)
    ensures var r := ReadContent(s, client, now);
      && (r.state.loadCalls != s.loadCalls <==> s.content.None? && !s.isLoaded && client.Some?)
      && (r.state.content.None? ==> r.value == "")
    ensures var r := ReadPublishTime(s, client, now);
      && (r.state.loadCalls != s.loadCalls <==> s.publishTime.None? && !s.isLoaded && client.Some?)
      && (r.state.publishTime.None? ==> r.value == now)
    ensures var r := ReadImages(s, client, now);
      && (r.state.loadCalls != s.loadCalls <==> s.images.None? && !s.isLoaded && client.Some?)
      && (r.state.images.None? ==> r.value == [])
    ensures var r := ReadTags(s, client, now);
      && (r.state.loadCalls != s.loadCalls <==> s.tags.None? && !s.isLoaded && client.Some?)
      && (r.state.tags.None? ==> r.value == [])
  {
  }

  /** The message opens with the bold title and closes with the link to the
      post; on a loaded post it asks the client nothing and shows the tag line
      exactly when the post has tags. */
  lemma MessageShape(s: PostState, title: string, url: string, author: string,
                     client: Client, now: Time, timeText: Time -> string)
    ensures var m := TelegramMessage(s, title, url, author, client, now, timeText).value;
      && StartsWith(m, "**" + title + "**\n")
      && |m| >= |"\n[查看原帖](" + url + ")"|
      && m[|m| - |"\n[查看原帖](" + url + ")"|..] == "\n[查看原帖](" + url + ")"
    ensures Consistent(s) && s.isLoaded ==>
      TelegramMessage(s, title, url, author, client, now, timeText) ==
        Read(s, "**" + title + "**\n" + author + " \\ " + timeText(s.publishTime.value) + "\n"
          + TagLine(s.tags.value) + s.content.value + "\n" + "\n[查看原帖](" + url + ")")
  {
    var m := TelegramMessage(s, title, url, author, client, now, timeText).value;
    var head := "**" + title + "**\n";
    var foot := "\n[查看原帖](" + url + ")";
    var pt := ReadPublishTime(s, client, now);
    var tags := ReadTags(pt.state, client, now);
    var shown := if tags.value != [] then ReadTags(tags.state, client, now) else tags;
    var line := if tags.value != [] then TagLine(shown.value) else "";
    var content := ReadContent(shown.state, client, now);
    var middle := author + " \\ " + timeText(pt.value) + "\n" + line + content.value + "\n";
    assert m == head + middle + foot;
    assert (head + middle + foot)[..|head|] == head;
    assert (head + middle + foot)[|head + middle|..] == foot;
  }

  /** A post that loads on the first request asks exactly once while the
      message is built, however many properties the message reads. */
  lemma MessageLoadsOnce(s: PostState, title: string, url: string, author: string,
                         client: Client, now: Time, timeText: Time -> string)
    requires Consistent(s) && !s.isLoaded && client.Some?
    requires client.value(s.loadCalls).Raised? || (client.value(s.loadCalls).Returned? && Truthy(client.value(s.loadCalls).details))
    ensures var t := TelegramMessage(s, title, url, author, client, now, timeText).state;
      t == Load(s, client, now) && t.isLoaded && t.loadCalls == s.loadCalls + 1
  {
  }

  /** The dictionary the forum client builds for a post always has its four
      keys, so the load that receives it takes the parsed body, the publish
      time, the image list and the tag list as they are; a page that could not
      be read answers `None`, which leaves the post to be asked again. */
  lemma LoadForumDetails(s: PostState, client: Client, now: Time, postMessage: Node, publishTime: Time, env: Env)
    requires Consistent(s) && !s.isLoaded && client.Some? && postMessage.Element?
    ensures client.value(s.loadCalls) == Returned(Some(PostDetails(postMessage, publishTime, env))) ==>
      Load(s, client, now) == PostState(
        Some(MessageContent(postMessage, env)),
        Some(publishTime),
        Some(ImageUrls(Descendants(postMessage), env.baseUrl)),
        Some(TagTexts(Descendants(postMessage))),
        true,
        s.loadCalls + 1)
    ensures client.value(s.loadCalls) == Returned(None) ==>
      Load(s, client, now) == s.(loadCalls := s.loadCalls + 1)
  {
  }

  // ---------------------------------------------------------------------------
  // The post object

  /** `ForumPost`: the fields given at construction never change; the detail
      fields, the loaded flag and the request count are updated in place. */
  class ForumPost {
    const id: int
    const title: string
    const url: string
    const author: string
    const forumClient: Client
    /** The clock's reading wherever the source calls `datetime.now()`. */
    const now: Time
    var content: Option<string>
    var publishTime: Option<Time>
    var images: Option<seq<string>>
    var tags: Option<seq<string>>
    var isLoaded: bool
    var loadCalls: nat

    function State(): PostState
      reads this
    {
      PostState(content, publishTime, images, tags, isLoaded, loadCalls)
    }

    /** `ForumPost.__init__` (models/post.py:10-26). */
    constructor (id: int, title: string, url: string, author: string, forumClient: Client, now: Time)
      ensures this.id == id && this.title == title && this.url == url && this.author == author
      ensures this.forumClient == forumClient && this.now == now
      ensures State() == Initial()
    {
      this.id := id;
      this.title := title;
      this.url := url;
      this.author := author;
      this.forumClient := forumClient;
      this.now := now;
      content := None;
      publishTime := None;
      images := None;
      tags := None;
      isLoaded := false;
      loadCalls := 0;
    }

    /** `_load_details`. */
    method LoadDetails()
      modifies this
      ensures State() == Load(old(State()), forumClient, now)
    {
      if isLoaded || forumClient.None? {
        return;
      }
      var outcome := forumClient.value(loadCalls);
      loadCalls := loadCalls + 1;
      match outcome
      case Raised =>
        content := Some(LoadFailed);
        publishTime := Some(now);
        images := Some([]);
        tags := Some([]);
        isLoaded := true;
      case Returned(postDetails) =>
        if Truthy(postDetails) {
          content := Some(postDetails.value.content.GetOr(""));
          publishTime := Some(postDetails.value.publishTime.GetOr(now));
          images := Some(postDetails.value.images.GetOr([]));
          tags := Some(postDetails.value.tags.GetOr([]));
          isLoaded := true;
        }
    }

    /** The `content` property. */
    method Content() returns (r: string)
      modifies this
      ensures Read(State(), r) == ReadContent(old(State()), forumClient, now)
    {
      if content.None? {
        LoadDetails();
      }
      r := content.GetOr("");
    }

    /** The `publish_time` property. */
    method PublishTime() returns (r: Time)
      modifies this
      ensures Read(State(), r) == ReadPublishTime(old(State()), forumClient, now)
    {
      if publishTime.None? {
        LoadDetails();
      }
      r := publishTime.GetOr(now);
    }

    /** The `images` property. */
    method Images() returns (r: seq<string>)
      modifies this
      ensures Read(State(), r) == ReadImages(old(State()), forumClient, now)
    {
      if images.None? {
        LoadDetails();
      }
      r := images.GetOr([]);
    }

    /** The `tags` property. */
    method Tags() returns (r: seq<string>)
      modifies this
      ensures Read(State(), r) == ReadTags(old(State()), forumClient, now)
    {
      if tags.None? {
        LoadDetails();
      }
      r := tags.GetOr([]);
    }

    /** `is_details_loaded` (models/post.py:91-93). */
    method IsDetailsLoaded() returns (r: bool)
      ensures r == isLoaded
    {
      r := isLoaded;
    }

    /** `preload_details`. */
    method PreloadDetails()
      modifies this
      ensures State() == Preload(old(State()), forumClient, now)
    {
      if !isLoaded {
        LoadDetails();
      }
    }

    /** `to_telegram_message`, building the message with repeated appends. */
    method ToTelegramMessage(timeText: Time -> string) returns (message: string)
      modifies this
      ensures Read(State(), message) == TelegramMessage(old(State()), title, url, author, forumClient, now, timeText)
    {
      ghost var s0 := State();
      message := "**" + title + "**\n";
      var publishedAt := PublishTime();
      ghost var pt := ReadPublishTime(s0, forumClient, now);
      assert pt == Read(State(), publishedAt);
      message := message + author + " \\ " + timeText(publishedAt) + "\n";
      ghost var head := message;
      var firstTags := Tags();
      ghost var tagsRead := ReadTags(pt.state, forumClient, now);
      assert tagsRead == Read(State(), firstTags);
      ghost var line := "";
      if firstTags != [] {
        var shownTags := Tags();
        assert ReadTags(tagsRead.state, forumClient, now) == Read(State(), shownTags);
        line := TagLine(shownTags);
        message := message + "标签: " + Join(", ", shownTags) + "\n";
      }
      assert message == head + line;
      var text := Content();
      message := message + text + "\n";
      message := message + "\n[查看原帖](" + url + ")";
      assert message == "**" + title + "**\n" + author + " \\ " + timeText(publishedAt) + "\n"
        + line + text + "\n" + "\n[查看原帖](" + url + ")";
    }
  }
}
