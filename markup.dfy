/**
 * The parsed markup tree the extraction reads (an lxml element and its
 * subtree), and the two XPath queries the forum client runs on it, written
 * as tree traversals: all descendant text nodes, and all descendant elements
 * in document order (which the image, link and tag queries filter).
 */
module Markup {
  import opened Wrappers
  import opened Strings

  /**
   * One child position of an lxml tree.  An `Element` has a tag, its
   * attributes, its leading text, its children, and the text between its end
   * and the next sibling (`tail`).  `NonElement` is a comment or a processing
   * instruction: lxml yields it when iterating over an element, its `tag` is
   * not a string, and only its tail counts as a text node of the parent.
   */
  datatype Node =
    | Element(tag: string, attrs: map<string, string>, text: Option<string>, children: seq<Node>, tail: Option<string>)
    | NonElement(tail: Option<string>)

  /** `element.get(key, '')`. */
  function Attr(n: Node, key: string): string
    requires n.Element?
  {
    if key in n.attrs then n.attrs[key] else ""
  }

  /** `element.text or ''`. */
  function TextOr(n: Node): string
    requires n.Element?
  {
    n.text.GetOr("")
  }

  function Children(n: Node): seq<Node> {
    if n.Element? then n.children else []
  }

  function OptList(t: Option<string>): seq<string> {
    if t.Some? then [t.value] else []
  }

  /** `n.xpath('.//text()')`: `n`'s text, then each child's text nodes followed by
      the child's tail, in document order (`n`'s own tail is not below `n`). */
  function TextNodes(n: Node): seq<string>
    decreases n, 1
  {
    if n.NonElement? then [] else OptList(n.text) + ChildTextNodes(n, 0)
  }

  function ChildTextNodes(n: Node, i: nat): seq<string>
    requires n.Element?
    decreases n, 0, |n.children| - i
  {
    if i >= |n.children| then []
    else TextNodes(n.children[i]) + OptList(n.children[i].tail) + ChildTextNodes(n, i + 1)
  }

  /** The stripped text nodes that are not blank, in order. */
  function NonBlank(texts: seq<string>): (r: seq<string>)
    ensures forall k :: 0 <= k < |r| ==> r[k] != "" && Trimmed(r[k])
    ensures |r| <= |texts|
  {
    if |texts| == 0 then [] else Kept(texts[0]) + NonBlank(texts[1..])
  }

  /** One text node as `NonBlank` keeps it: stripped, or dropped when blank. */
  function Kept(t: string): (r: seq<string>)
    ensures |r| <= 1
    ensures r == [] <==> AllSpace(t)
    ensures r != [] ==> r[0] == Strip(t) && r[0] != "" && Trimmed(r[0])
  {
    if Strip(t) != "" then [Strip(t)] else []
  }

  lemma {:induction false} NonBlankAppend(a: seq<string>, b: seq<string>)
    ensures NonBlank(a + b) == NonBlank(a) + NonBlank(b)
    decreases |a|
  {
    if |a| > 0 {
      assert (a + b)[0] == a[0];
      assert (a + b)[1..] == a[1..] + b;
      NonBlankAppend(a[1..], b);
      assert NonBlank(a + b) == Kept(a[0]) + (NonBlank(a[1..]) + NonBlank(b));
    } else {
      assert a + b == b;
    }
  }

  /** `_extract_text_content` (clients/forum_client.py:489-495): the non-blank
      descendant text nodes, each stripped, joined with single spaces. */
  function FlattenText(n: Node): string {
    Join(" ", NonBlank(TextNodes(n)))
  }

  /** Joining non-empty trimmed pieces with spaces gives a trimmed string that is
      empty exactly when there are no pieces. */
  lemma {:induction false} JoinTrimmed(parts: seq<string>)
    requires forall k :: 0 <= k < |parts| ==> parts[k] != "" && Trimmed(parts[k])
    ensures Trimmed(Join(" ", parts))
    ensures Join(" ", parts) == "" <==> parts == []
    ensures parts != [] ==> Join(" ", parts)[0] == parts[0][0]
    decreases |parts|
  {
    if |parts| > 1 {
      JoinTrimmed(parts[1..]);
      var rest := Join(" ", parts[1..]);
      var r := parts[0] + " " + rest;
      assert r[0] == parts[0][0];
      assert r[|r| - 1] == rest[|rest| - 1];
    }
  }

  /** The flattened text never starts or ends with whitespace, and it is empty
      exactly when every descendant text node is blank. */
  lemma FlattenTextTrimmed(n: Node)
    ensures Trimmed(FlattenText(n))
    ensures FlattenText(n) == "" <==> AllBlank(TextNodes(n))
  {
    JoinNonBlank(TextNodes(n));
  }

  predicate AllBlank(texts: seq<string>) {
    forall k :: 0 <= k < |texts| ==> AllSpace(texts[k])
  }

  lemma JoinNonBlank(texts: seq<string>)
    ensures Trimmed(Join(" ", NonBlank(texts)))
    ensures Join(" ", NonBlank(texts)) == "" <==> AllBlank(texts)
  {
    JoinTrimmed(NonBlank(texts));
    NonBlankEmpty(texts);
  }

  lemma {:induction false} NonBlankEmpty(texts: seq<string>)
    ensures NonBlank(texts) == [] <==> AllBlank(texts)
    decreases |texts|
  {
    if |texts| > 0 {
      NonBlankEmpty(texts[1..]);
      AllBlankCons(texts);
      assert NonBlank(texts) == Kept(texts[0]) + NonBlank(texts[1..]);
    }
  }

  lemma AllBlankCons(texts: seq<string>)
    requires |texts| > 0
    ensures AllBlank(texts) <==> AllSpace(texts[0]) && AllBlank(texts[1..])
  {
    assert forall k :: 1 <= k < |texts| ==> texts[k] == texts[1..][k - 1];
  }

  /** The element descendants of `n` in document order (the XPath query for all descendant elements). */
  function Descendants(n: Node): seq<Node>
    decreases n, 1
  {
    if n.NonElement? then [] else ChildDescendants(n, 0)
  }

  function ChildDescendants(n: Node, i: nat): seq<Node>
    requires n.Element?
    decreases n, 0, |n.children| - i
  {
    if i >= |n.children| then []
    else
      var c := n.children[i];
      (if c.Element? then [c] + Descendants(c) else []) + ChildDescendants(n, i + 1)
  }

  /** Every descendant the query yields is an element. */
  lemma {:induction false} DescendantsAreElements(n: Node)
    ensures forall d :: d in Descendants(n) ==> d.Element?
    decreases n, 1
  {
    if n.Element? { ChildDescendantsAreElements(n, 0); }
  }

  lemma {:induction false} ChildDescendantsAreElements(n: Node, i: nat)
    requires n.Element?
    ensures forall d :: d in ChildDescendants(n, i) ==> d.Element?
    decreases n, 0, |n.children| - i
  {
    if i < |n.children| {
      DescendantsAreElements(n.children[i]);
      ChildDescendantsAreElements(n, i + 1);
    }
  }

  /** A child element of `n`, and everything below it, is among `n`'s descendants. */
  lemma DescendantsOfChild(n: Node, j: nat)
    requires n.Element? && j < |n.children|
    ensures var c := n.children[j];
      c.Element? ==> c in Descendants(n) && forall d :: d in Descendants(c) ==> d in Descendants(n)
  {
    ChildDescendantsCover(n, 0, j);
  }

  lemma {:induction false} ChildDescendantsCover(n: Node, i: nat, j: nat)
    requires n.Element? && i <= j < |n.children|
    ensures var c := n.children[j];
      c.Element? ==> c in ChildDescendants(n, i) && forall d :: d in Descendants(c) ==> d in ChildDescendants(n, i)
    decreases j - i
  {
    if i < j {
      ChildDescendantsCover(n, i + 1, j);
    }
  }
}
