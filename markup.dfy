/**
 * The parsed page as the importer sees it: text nodes and elements, the
 * `firstChild` / `childNodes` / `next` navigation it performs, and the
 * `loopTilData` walker that every extractor uses to read a node's text.
 */
module Markup {
  import opened Wrappers

  /** A node of a parsed page: a text node with its data, or an element with tag name, attributes and ordered children. */
  datatype Node =
    | Text(data: string)
    | Element(name: string, attribs: map<string, string>, children: seq<Node>)

  /** What the page's selectors return: the `h3` headings (each with the siblings that follow it), all `p`, all `table` and all `h2` elements. */
  datatype Page = Page(h3: seq<Located>, paragraphs: seq<Node>, tables: seq<Node>, h2: seq<Node>)

  /** A node selected from the page, with the siblings that follow it: its `next`, `next.next`, and so on. */
  datatype Located = Located(node: Node, following: seq<Node>)

  /**
   * The state an extraction step leaves behind, and whether a TypeError (a property
   * read on a missing node) escaped from it before it finished.
   */
  datatype Flow<T> = Completed(state: T) | Threw(state: T)

  /** `n.name == tag`; a text node has no tag name. */
  predicate IsTag(n: Node, tag: string)
  {
    n.Element? && n.name == tag
  }

  /** `n.firstChild`: null for a text node and for an element without children. */
  function FirstChild(n: Node): (r: Option<Node>)
    ensures r.Some? <==> n.Element? && n.children != []
  {
    if n.Element? && n.children != [] then Some(n.children[0]) else None
  }

  /** `n.childNodes[k]`: missing when childNodes is undefined (a text node) or k is past the end. */
  function ChildAt(n: Node, k: nat): (r: Option<Node>)
    ensures r.Some? <==> n.Element? && k < |n.children|
  {
    if n.Element? && k < |n.children| then Some(n.children[k]) else None
  }

  /**
   * `heading.next.next...` taken `hops` times: missing as soon as one `next` is null.
   * Every section is read at a fixed number of hops after its heading.
   */
  function ContentFollowing(loc: Located, hops: nat): (r: Option<Node>)
    ensures r.Some? <==> hops <= |loc.following|
  {
    if hops == 0 then Some(loc.node)
    else if hops <= |loc.following| then Some(loc.following[hops - 1])
    else None
  }

  /** The node reached by following `firstChild` from `n` exactly `k` times, if every link exists. */
  function Descend(n: Node, k: nat): Option<Node>
  {
    if k == 0 then Some(n)
    else match FirstChild(n)
      case None => None
      case Some(c) => Descend(c, k - 1)
  }

  /** The first `k` nodes on the chain of first children from `n` exist and are elements. */
  predicate ThroughElements(n: Node, k: nat)
  {
    forall j: nat :: j < k ==> Descend(n, j).Some? && Descend(n, j).value.Element?
  }

  predicate IsChildlessElement(n: Node)
  {
    n.Element? && n.children == []
  }

  /** The specification of loopTilData: descend by first children until a text node. */
  function FirstText(n: Node): (r: Option<Node>)
    ensures r.Some? ==> r.value.Text?
  {
    match n
    case Text(_) => Some(n)
    case Element(_, _, cs) => if cs == [] then None else FirstText(cs[0])
  }

  /** `loopTilData(n).data`, or the empty string when loopTilData returns null. */
  function TextData(n: Node): string
  {
    match FirstText(n)
    case Some(t) => t.data
    case None => ""
  }

  /** loopTilData: follow `firstChild` until a text node is reached; null when a node on the way has no first child. */
  method LoopTilData(startNode: Node) returns (r: Option<Node>)
    ensures r == FirstText(startNode)
  {
    var recurseHere := startNode;
    while !recurseHere.Text?
      invariant FirstText(recurseHere) == FirstText(startNode)
      decreases recurseHere
    {
      if recurseHere.children == [] {
        return None;
      }
      recurseHere := recurseHere.children[0];
    }
    return Some(recurseHere);
  }

  /**
   * A found node is the first text node on the chain of first children: it is reached
   * from the start by `firstChild` links alone, through elements only. A text start node
   * is therefore returned unchanged (k = 0).
   */
  lemma {:induction false} FirstTextIsReached(n: Node)
    requires FirstText(n).Some?
    ensures exists k: nat :: Descend(n, k) == FirstText(n) && ThroughElements(n, k)
  {
    match n
    case Text(_) =>
      assert Descend(n, 0) == FirstText(n) && ThroughElements(n, 0);
    case Element(_, _, cs) =>
      FirstTextIsReached(cs[0]);
      var k: nat :| Descend(cs[0], k) == FirstText(cs[0]) && ThroughElements(cs[0], k);
      assert Descend(n, k + 1) == FirstText(n);
      forall j: nat | j < k + 1
        ensures Descend(n, j).Some? && Descend(n, j).value.Element?
      {
        if j > 0 {
          assert Descend(n, j) == Descend(cs[0], j - 1);
        }
      }
      assert ThroughElements(n, k + 1);
  }

  /** loopTilData returns null exactly when the chain of first children reaches an element without children. */
  lemma FirstTextNoneIff(n: Node)
    ensures FirstText(n).None? <==>
      exists k: nat :: Descend(n, k).Some? && IsChildlessElement(Descend(n, k).value)
  {
    if FirstText(n).None? {
      NoneReachesLeaf(n);
    }
    forall k: nat | Descend(n, k).Some? && IsChildlessElement(Descend(n, k).value)
      ensures FirstText(n).None?
    {
      LeafMeansNone(n, k);
    }
  }

  lemma {:induction false} NoneReachesLeaf(n: Node)
    requires FirstText(n).None?
    ensures exists k: nat :: Descend(n, k).Some? && IsChildlessElement(Descend(n, k).value)
  {
    if n.children == [] {
      assert Descend(n, 0) == Some(n);
    } else {
      NoneReachesLeaf(n.children[0]);
      var k: nat :| Descend(n.children[0], k).Some? && IsChildlessElement(Descend(n.children[0], k).value);
      assert Descend(n, k + 1) == Descend(n.children[0], k);
    }
  }

  lemma {:induction false} LeafMeansNone(n: Node, k: nat)
    requires Descend(n, k).Some? && IsChildlessElement(Descend(n, k).value)
    ensures FirstText(n).None?
  {
    if k > 0 {
      LeafMeansNone(n.children[0], k - 1);
    }
  }
}
