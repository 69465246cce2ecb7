/**
 * URL completion as the forum client writes it inline: for image sources
 * (clients/forum_client.py:269-272 and 326-329) and, in a narrower form, for
 * link targets (clients/forum_client.py:352-353).
 */
module Urls {
  import opened Strings

  /** An image source made absolute against the forum's base URL. */
  function ResolveUrl(base: string, src: string): string {
    if StartsWith(src, "/") then base + src
    else if !StartsWith(src, "http") then base + "/" + src
    else src
  }

  /** A link target: only a `/`-rooted path gets the base URL in front. */
  function ResolveHref(base: string, href: string): string {
    if StartsWith(href, "/") then base + href else href
  }

  /** The source is kept at the end of the URL, and in front of it stands the
      base URL unless the source is already an `http` URL. */
  lemma ResolveUrlShape(base: string, src: string)
    ensures var r := ResolveUrl(base, src);
      && |r| >= |src| && r[|r| - |src|..] == src
      && (StartsWith(src, "http") ==> r == src)
      && (!StartsWith(src, "http") ==> StartsWith(r, base))
  {
    if StartsWith(src, "http") {
      assert src[0] == src[..4][0] == 'h';
    }
  }

  /** With an `http` base, the completed URL is absolute, so completing it again changes nothing. */
  lemma ResolveUrlIdempotent(base: string, src: string)
    requires StartsWith(base, "http")
    ensures StartsWith(ResolveUrl(base, src), "http")
    ensures ResolveUrl(base, ResolveUrl(base, src)) == ResolveUrl(base, src)
  {
    var r := ResolveUrl(base, src);
    if StartsWith(src, "http") {
      assert src[0] == src[..4][0] == 'h';
    }
    if !StartsWith(src, "http") {
      assert r[..4] == base[..4];
    }
    assert r[0] == r[..4][0] == 'h';
  }
}
