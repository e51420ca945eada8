/**
 * The text extractors of a page: the first-text gatherer used by the Example section and
 * the parameter cells, the markdown flattening of the Description block, and the
 * fallback that reads a return value from a paragraph starting with "Returns:".
 */
module Sections {
  import opened Wrappers
  import opened JsText
  import opened Markup

  // ---------------------------------------------------------------------------
  // The text of a tree

  /** All text of a tree in document order, the reference against which the extractors are compared. */
  function TextContent(n: Node): string
    decreases n, 1
  {
    match n
    case Text(d) => d
    case Element(_, _, cs) => ContentOf(cs)
  }

  /** The text of a sequence of trees, one after the other. */
  function ContentOf(cs: seq<Node>): string
    decreases cs, 0
  {
    if cs == [] then "" else ContentOf(cs[..|cs| - 1]) + TextContent(cs[|cs| - 1])
  }

  // ---------------------------------------------------------------------------
  // Gathering first texts (Example section, parameter cells)

  /** The first text of each node, concatenated; a node without one adds nothing. */
  function CollectText(ns: seq<Node>): string
  {
    if ns == [] then "" else CollectText(ns[..|ns| - 1]) + TextData(ns[|ns| - 1])
  }

  /** The loop `for (const n of nodes) { const d = loopTilData(n); if (d) output += d.data; }`. */
  method GatherText(ns: seq<Node>) returns (output: string)
    ensures output == CollectText(ns)
  {
    output := "";
    for i := 0 to |ns|
      invariant output == CollectText(ns[..i])
    {
      assert ns[..i + 1][..i] == ns[..i];
      var ourData := LoopTilData(ns[i]);
      if ourData.Some? {
        output := output + ourData.value.data;
      }
    }
    assert ns[..|ns|] == ns;
  }

  // ---------------------------------------------------------------------------
  // Description

  /** `attribs['href']` as concatenation renders it: a missing attribute reads "undefined". */
  function Href(attribs: map<string, string>): string
  {
    if "href" in attribs then attribs["href"] else "undefined"
  }

  /**
   * One grandchild of the description block: a text node gives its data; a link, bold or
   * italic element with non-empty first text gives that text as a markdown link, `**bold**`
   * or `*italic*`; any other element gives its first text; an element without non-empty
   * first text gives nothing.
   */
  function Inline(g: Node): string
  {
    match g
    case Text(d) => d
    case Element(name, attribs, _) =>
      var t := TextData(g);
      if t == "" then ""
      else if name == "a" then "[" + t + "](" + Href(attribs) + ")"
      else if name == "b" then "**" + t + "**"
      else if name == "i" then "*" + t + "*"
      else t
  }

  function InlineAll(gs: seq<Node>): string
  {
    if gs == [] then "" else InlineAll(gs[..|gs| - 1]) + Inline(gs[|gs| - 1])
  }

  /** One child of the description block: an element is flattened through its children; a text node gives its data. */
  function FlattenChild(c: Node): string
  {
    match c
    case Text(d) => d
    case Element(_, _, gs) => InlineAll(gs)
  }

  /** The flattened description block, before trimming. */
  function Flatten(cs: seq<Node>): string
  {
    if cs == [] then "" else Flatten(cs[..|cs| - 1]) + FlattenChild(cs[|cs| - 1])
  }

  method InlineGrandChild(thisGrandChild: Node) returns (piece: string)
    ensures piece == Inline(thisGrandChild)
  {
    if thisGrandChild.Text? {
      return thisGrandChild.data;
    }
    var found := LoopTilData(thisGrandChild);
    piece := "";
    if found.Some? && found.value.data != "" {
      var t := found.value.data;
      if thisGrandChild.name == "a" {
        piece := "[" + t + "](" + Href(thisGrandChild.attribs) + ")";
      } else if thisGrandChild.name == "b" {
        piece := "**" + t + "**";
      } else if thisGrandChild.name == "i" {
        piece := "*" + t + "*";
      } else {
        piece := t;
      }
    }
  }

  /** The inner loop, over the grandchildren under one child of the description block. */
  method FlattenParent(thisParent: seq<Node>) returns (output: string)
    ensures output == InlineAll(thisParent)
  {
    output := "";
    for j := 0 to |thisParent|
      invariant output == InlineAll(thisParent[..j])
    {
      assert thisParent[..j + 1][..j] == thisParent[..j];
      var piece := InlineGrandChild(thisParent[j]);
      output := output + piece;
    }
    assert thisParent[..|thisParent|] == thisParent;
  }

  /** The outer loop over the description block's children: elements through their children, text nodes directly. */
  method FlattenDescription(ourBlockQuote: seq<Node>) returns (output: string)
    ensures output == Flatten(ourBlockQuote)
  {
    output := "";
    for i := 0 to |ourBlockQuote|
      invariant output == Flatten(ourBlockQuote[..i])
    {
      assert ourBlockQuote[..i + 1][..i] == ourBlockQuote[..i];
      var thisChild := ourBlockQuote[i];
      if thisChild.Element? {
        var inner := FlattenParent(thisChild.children);
        output := output + inner;
      } else {
        output := output + thisChild.data;
      }
    }
    assert ourBlockQuote[..|ourBlockQuote|] == ourBlockQuote;
  }

  // ---------------------------------------------------------------------------
  // The "Returns:" paragraph fallback

  /** A paragraph whose first text is exactly "Returns:". */
  predicate IsReturnsParagraph(p: Node)
  {
    TextData(p) == "Returns:"
  }

  /** A "Returns:" paragraph whose second child is a text node with non-empty data: it sets the return value. */
  predicate SetsReturn(p: Node)
  {
    IsReturnsParagraph(p) && ChildAt(p, 1).Some? && ChildAt(p, 1).value.Text? && ChildAt(p, 1).value.data != ""
  }

  /**
   * One paragraph: a "Returns:" paragraph without a second child makes `childNodes[1].data`
   * throw; one whose second child is a non-empty text sets the return value to it, trimmed.
   */
  function ParagraphStep(ret: string, p: Node): Flow<string>
  {
    if IsReturnsParagraph(p) then
      match ChildAt(p, 1)
      case None => Threw(ret)
      case Some(c) => if c.Text? && c.data != "" then Completed(Trim(c.data)) else Completed(ret)
    else Completed(ret)
  }

  /** All paragraphs in order; a throw ends the scan. */
  function ScanParagraphs(ret: string, ps: seq<Node>): Flow<string>
  {
    if ps == [] then Completed(ret)
    else
      match ScanParagraphs(ret, ps[..|ps| - 1])
      case Threw(r) => Threw(r)
      case Completed(r) => ParagraphStep(r, ps[|ps| - 1])
  }

  /** The `$('p').each` loop of the fallback. */
  method FindReturnParagraph(ret: string, allParagraphs: seq<Node>) returns (f: Flow<string>)
    ensures f == ScanParagraphs(ret, allParagraphs)
  {
    var current := ret;
    for i := 0 to |allParagraphs|
      invariant ScanParagraphs(ret, allParagraphs[..i]) == Completed(current)
    {
      assert allParagraphs[..i + 1][..i] == allParagraphs[..i];
      var element := allParagraphs[i];
      var heading := LoopTilData(element);
      if heading.Some? && heading.value.data == "Returns:" {
        var second := ChildAt(element, 1);
        if second.None? {
          assert ScanParagraphs(ret, allParagraphs[..i + 1]) == Threw(current);
          ScanStopsAtThrow(ret, allParagraphs, i + 1);
          return Threw(current);
        }
        if second.value.Text? && second.value.data != "" {
          current := Trim(second.value.data);
        }
      }
    }
    assert allParagraphs[..|allParagraphs|] == allParagraphs;
    return Completed(current);
  }

  // ---------------------------------------------------------------------------
  // Lemmas

  /** Once the scan has thrown, later paragraphs change nothing. */
  lemma {:induction false} ScanStopsAtThrow(ret: string, ps: seq<Node>, n: nat)
    requires n <= |ps| && ScanParagraphs(ret, ps[..n]).Threw?
    ensures ScanParagraphs(ret, ps) == ScanParagraphs(ret, ps[..n])
    decreases |ps| - n
  {
    if n < |ps| {
      assert ps[..n + 1][..n] == ps[..n];
      ScanStopsAtThrow(ret, ps, n + 1);
    } else {
      assert ps[..n] == ps;
    }
  }

  /** loopTilData's text is where the text of the tree begins: the first text is a prefix of all text. */
  lemma {:induction false} FirstTextBeginsContent(n: Node)
    ensures TextData(n) <= TextContent(n)
    decreases n
  {
    match n
    case Text(_) =>
    case Element(_, _, cs) =>
      if cs != [] {
        FirstTextBeginsContent(cs[0]);
        ContentOfBeginsWithFirst(cs);
      }
  }

  lemma {:induction false} ContentOfBeginsWithFirst(cs: seq<Node>)
    requires cs != []
    ensures TextContent(cs[0]) <= ContentOf(cs)
  {
    if |cs| > 1 {
      var front := cs[..|cs| - 1];
      ContentOfBeginsWithFirst(front);
      assert front[0] == cs[0];
    } else {
      assert cs[..0] == [];
    }
  }

  /** For text nodes, gathering first texts is gathering all text. */
  lemma {:induction false} CollectTextOfLeaves(ns: seq<Node>)
    requires forall k :: 0 <= k < |ns| ==> ns[k].Text?
    ensures CollectText(ns) == ContentOf(ns)
  {
    if ns != [] {
      CollectTextOfLeaves(ns[..|ns| - 1]);
    }
  }

  /**
   * A description block without markup keeps all of its text: when every grandchild is a
   * text node, the flattened block is exactly the text content of the block.
   */
  lemma {:induction false} FlattenPlainKeepsText(cs: seq<Node>)
    requires forall k :: 0 <= k < |cs| ==> cs[k].Text? || forall m :: 0 <= m < |cs[k].children| ==> cs[k].children[m].Text?
    ensures Flatten(cs) == ContentOf(cs)
  {
    if cs != [] {
      var last := cs[|cs| - 1];
      FlattenPlainKeepsText(cs[..|cs| - 1]);
      if last.Element? {
        InlineLeaves(last.children);
      }
    }
  }

  lemma {:induction false} InlineLeaves(gs: seq<Node>)
    requires forall m :: 0 <= m < |gs| ==> gs[m].Text?
    ensures InlineAll(gs) == ContentOf(gs)
  {
    if gs != [] {
      InlineLeaves(gs[..|gs| - 1]);
    }
  }

  /** The description of consecutive blocks is the description of each, in order. */
  lemma {:induction false} FlattenConcat(a: seq<Node>, b: seq<Node>)
    ensures Flatten(a + b) == Flatten(a) + Flatten(b)
  {
    if b != [] {
      FlattenConcat(a, b[..|b| - 1]);
      assert (a + b)[..|a + b| - 1] == a + b[..|b| - 1];
    } else {
      assert a + b == a;
    }
  }

  /** A bold element with text `t` is rendered `**t**`, an italic one `*t*`, and a link `[t](href)`. */
  lemma InlineMarkup(g: Node)
    requires g.Element? && TextData(g) != ""
    ensures g.name == "b" ==> Inline(g) == "**" + TextData(g) + "**"
    ensures g.name == "i" ==> Inline(g) == "*" + TextData(g) + "*"
    ensures g.name == "a" ==> Inline(g) == "[" + TextData(g) + "](" + Href(g.attribs) + ")"
    ensures TextData(g) <= TextContent(g)
  {
    FirstTextBeginsContent(g);
  }

  /** Without a "Returns:" paragraph the fallback completes and changes nothing. */
  lemma {:induction false} NoReturnsParagraphKeeps(ret: string, ps: seq<Node>)
    requires forall k :: 0 <= k < |ps| ==> !IsReturnsParagraph(ps[k])
    ensures ScanParagraphs(ret, ps) == Completed(ret)
  {
    if ps != [] {
      NoReturnsParagraphKeeps(ret, ps[..|ps| - 1]);
    }
  }

  /** The fallback throws exactly when some "Returns:" paragraph has no second child. */
  lemma {:induction false} ParagraphsThrowIff(ret: string, ps: seq<Node>)
    ensures ScanParagraphs(ret, ps).Threw? <==>
      exists k :: 0 <= k < |ps| && IsReturnsParagraph(ps[k]) && ChildAt(ps[k], 1).None?
  {
    if ps != [] {
      var front := ps[..|ps| - 1];
      ParagraphsThrowIff(ret, front);
      if exists k :: 0 <= k < |front| && IsReturnsParagraph(front[k]) && ChildAt(front[k], 1).None? {
        var k :| 0 <= k < |front| && IsReturnsParagraph(front[k]) && ChildAt(front[k], 1).None?;
        assert ps[k] == front[k];
      }
      if exists k :: 0 <= k < |ps| && IsReturnsParagraph(ps[k]) && ChildAt(ps[k], 1).None? {
        var k :| 0 <= k < |ps| && IsReturnsParagraph(ps[k]) && ChildAt(ps[k], 1).None?;
        if k < |front| {
          assert front[k] == ps[k];
        }
      }
    }
  }

  /**
   * When the fallback does not throw, the last paragraph that sets a return value wins: the
   * result is its second child's text, trimmed; with no such paragraph the value is kept.
   */
  lemma {:induction false} LastReturnParagraphWins(ret: string, ps: seq<Node>)
    requires ScanParagraphs(ret, ps).Completed?
    ensures (forall k :: 0 <= k < |ps| ==> !SetsReturn(ps[k])) ==> ScanParagraphs(ret, ps) == Completed(ret)
    ensures forall k :: 0 <= k < |ps| && SetsReturn(ps[k]) && (forall j :: k < j < |ps| ==> !SetsReturn(ps[j])) ==>
      ScanParagraphs(ret, ps) == Completed(Trim(ChildAt(ps[k], 1).value.data))
  {
    if ps != [] {
      var front := ps[..|ps| - 1];
      var last := |ps| - 1;
      assert ScanParagraphs(ret, front).Completed?;
      LastReturnParagraphWins(ret, front);
      forall k | 0 <= k < |front|
        ensures front[k] == ps[k]
      {
      }
    }
  }

  /**
   * A throw keeps the value the scan had reached: when the first `n` paragraphs leave `v`
   * and paragraph `n` is a "Returns:" paragraph without a second child, the scan throws
   * carrying `v`, whatever follows.
   */
  lemma ThrowCarriesValueSoFar(ret: string, ps: seq<Node>, n: nat, v: string)
    requires n < |ps| && ScanParagraphs(ret, ps[..n]) == Completed(v)
    requires IsReturnsParagraph(ps[n]) && ChildAt(ps[n], 1).None?
    ensures ScanParagraphs(ret, ps) == Threw(v)
  {
    assert ps[..n + 1][..n] == ps[..n];
    assert ScanParagraphs(ret, ps[..n + 1]) == Threw(v);
    ScanStopsAtThrow(ret, ps, n + 1);
  }

  /**
   * The case that shows it: a first "Returns:" paragraph sets the value to "Real", and a
   * second one without a second child throws with "Real" still in hand.
   */
  lemma EarlierReturnSurvivesLaterThrow()
    ensures var bold := Element("b", map[], [Text("Returns:")]);
      ScanParagraphs("", [Element("p", map[], [bold, Text("Real")]), Element("p", map[], [bold])]) == Threw("Real")
  {
    var bold := Element("b", map[], [Text("Returns:")]);
    var p1 := Element("p", map[], [bold, Text("Real")]);
    var p2 := Element("p", map[], [bold]);
    assert FirstText(bold) == Some(Text("Returns:"));
    assert FirstText(p1) == FirstText(bold) && FirstText(p2) == FirstText(bold);
    assert TextData(p1) == "Returns:" && TextData(p2) == "Returns:";
    assert Trim("Real") == "Real" by {
      TrimFixpoint("Real");
    }
    assert [p1, p2][..1] == [p1];
    assert ScanParagraphs("", [p1]) == Completed("Real");
    ThrowCarriesValueSoFar("", [p1, p2], 1, "Real");
  }
}
