/**
 * Extraction of one manual page into a draft record. The page's `h3` headings are read
 * only when there are at least three; each heading's text picks the sections it
 * introduces (by substring, so one heading can match several). With exactly three
 * headings a "Returns:" paragraph may supply the return value. The parameter tables
 * come last. Syntax, Returns and the paragraph fallback are not guarded, so a TypeError
 * there abandons the rest of the page (tables included) and names the record as possibly
 * misparsed; Description, Example and each table catch their own errors.
 */
module PageExtract {
  import opened Wrappers
  import opened JsText
  import opened Markup
  import opened GmlDocs
  import opened Signature
  import opened Sections
  import opened ParamTable

  /** The address every record links to is this prefix followed by the page's path in the archive. */
  const DocsBaseUrl: string := "https://docs2.yoyogames.com/"

  /** The record a page starts from: empty texts, no parameters, minParameters 0, maxParameters 999. */
  function InitialDraft(entryName: string): (d: Draft)
    ensures d.kind.None? && d.suspects == []
    ensures d.fn.link == DocsBaseUrl + entryName
    ensures d.fn.parameters == [] && d.fn.minParameters == 0 && d.fn.maxParameters == InitialMaxParameters
  {
    Draft(DocFunction("", "", [], 0, InitialMaxParameters, DocExample("", ""), "", "", DocsBaseUrl + entryName), None, [])
  }

  /** The record plus the name of the record, pushed onto the suspects. */
  function Suspect(d: Draft): Draft
  {
    d.(suspects := d.suspects + [d.fn.name])
  }

  // ---------------------------------------------------------------------------
  // The sections of one heading

  /** "Syntax": the node two siblings on must have child nodes; it then sets the signature, name, arity and kind. */
  function SyntaxStep(d: Draft, h: Located): Flow<Draft>
  {
    match ContentFollowing(h, 2)
    case None => Threw(d)
    case Some(ourSignature) =>
      if ourSignature.Text? then Threw(d)
      else
        var (f, kind) := ApplySyntax(d.fn, ourSignature.children);
        Completed(d.(fn := f, kind := Some(kind)))
  }

  /** "Returns": the first child of the node two siblings on must exist; its non-empty text becomes the return value, untrimmed. */
  function ReturnsStep(d: Draft, h: Located): Flow<Draft>
  {
    match ContentFollowing(h, 2)
    case None => Threw(d)
    case Some(n) =>
      match FirstChild(n)
      case None => Threw(d)
      case Some(c) => if c.Text? && c.data != "" then Completed(d.(fn := d.fn.(returnText := c.data))) else Completed(d)
  }

  /** "Description", in its own try/catch: the flattened block two siblings on, trimmed. */
  function DescriptionStep(d: Draft, h: Located): Draft
  {
    match ContentFollowing(h, 2)
    case None => Suspect(d)
    case Some(block) =>
      if block.Text? then Suspect(d)
      else d.(fn := d.fn.(documentation := Trim(Flatten(block.children))))
  }

  /**
   * "Example", in its own try/catch: the code is the first texts of the node two siblings
   * on, trimmed; the explanation those of the node four siblings on. The code is stored
   * before the explanation is looked for, so it survives a failure there.
   */
  function ExampleStep(d: Draft, h: Located): Draft
  {
    match ContentFollowing(h, 2)
    case None => Suspect(d)
    case Some(ourExample) =>
      if ourExample.Text? then Suspect(d)
      else
        var withCode := d.(fn := d.fn.(example := d.fn.example.(code := Trim(CollectText(ourExample.children)))));
        match ContentFollowing(h, 4)
        case None => Suspect(withCode)
        case Some(description) =>
          if description.Text? then Suspect(withCode)
          else withCode.(fn := withCode.fn.(example := withCode.fn.example.(description := Trim(CollectText(description.children)))))
  }

  /** One `h3` heading: its first text is tested for each section name in turn. */
  function HeadingStep(d: Draft, h: Located): Flow<Draft>
  {
    var data := TextData(h.node);
    var afterSyntax := if Includes(data, "Syntax") then SyntaxStep(d, h) else Completed(d);
    match afterSyntax
    case Threw(s) => Threw(s)
    case Completed(d1) =>
      var afterReturns := if Includes(data, "Returns") then ReturnsStep(d1, h) else Completed(d1);
      match afterReturns
      case Threw(s) => Threw(s)
      case Completed(d2) =>
        var d3 := if Includes(data, "Description") then DescriptionStep(d2, h) else d2;
        var d4 := if Includes(data, "Example") then ExampleStep(d3, h) else d3;
        Completed(d4)
  }

  /** All headings in order; a throw ends the heading pass. */
  function Headings(d: Draft, hs: seq<Located>): Flow<Draft>
  {
    if hs == [] then Completed(d)
    else
      match Headings(d, hs[..|hs| - 1])
      case Threw(s) => Threw(s)
      case Completed(s) => HeadingStep(s, hs[|hs| - 1])
  }

  /**
   * The heading pass (at least three headings) and the paragraph fallback (exactly three).
   * The fallback writes the return value into the record as it goes, so a value set by an
   * earlier "Returns:" paragraph stays in the record when a later one throws.
   */
  function GuardedPart(d: Draft, page: Page): Flow<Draft>
  {
    var afterHeadings := if |page.h3| >= 3 then Headings(d, page.h3) else Completed(d);
    match afterHeadings
    case Threw(s) => Threw(s)
    case Completed(s) =>
      if |page.h3| == 3 then
        match ScanParagraphs(s.fn.returnText, page.paragraphs)
        case Threw(r) => Threw(s.(fn := s.fn.(returnText := r)))
        case Completed(r) => Completed(s.(fn := s.fn.(returnText := r)))
      else Completed(s)
  }

  /** A whole page: the guarded part, whose failure skips the tables and names the record; otherwise the tables. */
  function ExtractPage(d: Draft, page: Page): Draft
  {
    match GuardedPart(d, page)
    case Threw(s) => Suspect(s)
    case Completed(s) => Tables(s, page.tables)
  }

  // ---------------------------------------------------------------------------
  // The loops

  /** The body of `docType.each` for one heading. */
  method ApplyHeading(d: Draft, h: Located) returns (f: Flow<Draft>)
    ensures f == HeadingStep(d, h)
  {
    var lastNode := LoopTilData(h.node);
    var data := if lastNode.Some? then lastNode.value.data else "";
    var thisDraft := d;
    if Includes(data, "Syntax") {
      var ourSignature := ContentFollowing(h, 2);
      if ourSignature.None? || ourSignature.value.Text? {
        return Threw(thisDraft);
      }
      var fn, kind := ParseSyntax(thisDraft.fn, ourSignature.value.children);
      thisDraft := thisDraft.(fn := fn, kind := Some(kind));
    }
    if Includes(data, "Returns") {
      var next := ContentFollowing(h, 2);
      if next.None? || FirstChild(next.value).None? {
        return Threw(thisDraft);
      }
      var possibleReturn := FirstChild(next.value).value;
      if possibleReturn.Text? && possibleReturn.data != "" {
        thisDraft := thisDraft.(fn := thisDraft.fn.(returnText := possibleReturn.data));
      }
    }
    if Includes(data, "Description") {
      var ourBlockQuote := ContentFollowing(h, 2);
      if ourBlockQuote.None? || ourBlockQuote.value.Text? {
        thisDraft := Suspect(thisDraft);
      } else {
        var output := FlattenDescription(ourBlockQuote.value.children);
        thisDraft := thisDraft.(fn := thisDraft.fn.(documentation := Trim(output)));
      }
    }
    if Includes(data, "Example") {
      thisDraft := ReadExample(thisDraft, h);
    }
    return Completed(thisDraft);
  }

  /** The Example branch with its own try/catch. */
  method ReadExample(d: Draft, h: Located) returns (r: Draft)
    ensures r == ExampleStep(d, h)
  {
    var ourExample := ContentFollowing(h, 2);
    if ourExample.None? || ourExample.value.Text? {
      return Suspect(d);
    }
    var output := GatherText(ourExample.value.children);
    r := d.(fn := d.fn.(example := d.fn.example.(code := Trim(output))));
    var description := ContentFollowing(h, 4);
    if description.None? || description.value.Text? {
      return Suspect(r);
    }
    output := GatherText(description.value.children);
    r := r.(fn := r.fn.(example := r.fn.example.(description := Trim(output))));
  }

  /** `docType.each(...)`: the headings in order until one throws. */
  method ReadHeadings(d: Draft, docType: seq<Located>) returns (f: Flow<Draft>)
    ensures f == Headings(d, docType)
  {
    var current := d;
    for i := 0 to |docType|
      invariant Headings(d, docType[..i]) == Completed(current)
    {
      assert docType[..i + 1][..i] == docType[..i];
      var step := ApplyHeading(current, docType[i]);
      if step.Threw? {
        HeadingsStopAtThrow(d, docType, i + 1);
        return step;
      }
      current := step.state;
    }
    assert docType[..|docType|] == docType;
    return Completed(current);
  }

  /** The body of the importer's page loop from the fresh record to the end of the tables. */
  method ReadPage(entryName: string, page: Page) returns (d: Draft)
    ensures d == ExtractPage(InitialDraft(entryName), page)
  {
    d := InitialDraft(entryName);
    ghost var d0 := d;
    var docType := page.h3;
    if |docType| >= 3 {
      var f := ReadHeadings(d, docType);
      if f.Threw? {
        return Suspect(f.state);
      }
      d := f.state;
    }
    if |docType| == 3 {
      var f := FindReturnParagraph(d.fn.returnText, page.paragraphs);
      d := d.(fn := d.fn.(returnText := f.state));
      if f.Threw? {
        return Suspect(d);
      }
    }
    assert GuardedPart(d0, page) == Completed(d);
    d := ReadTables(d, page.tables);
  }

  // ---------------------------------------------------------------------------
  // Lemmas

  lemma {:induction false} HeadingsStopAtThrow(d: Draft, hs: seq<Located>, n: nat)
    requires n <= |hs| && Headings(d, hs[..n]).Threw?
    ensures Headings(d, hs) == Headings(d, hs[..n])
    decreases |hs| - n
  {
    if n < |hs| {
      assert hs[..n + 1][..n] == hs[..n];
      HeadingsStopAtThrow(d, hs, n + 1);
    } else {
      assert hs[..n] == hs;
    }
  }

  /** No heading step changes the link, and only a "Syntax" heading changes the kind. */
  lemma HeadingStepKeeps(d: Draft, h: Located)
    ensures HeadingStep(d, h).state.fn.link == d.fn.link
    ensures !Includes(TextData(h.node), "Syntax") ==> HeadingStep(d, h).state.kind == d.kind
  {
  }

  /**
   * A heading throws exactly when the node two siblings on is missing and the heading
   * names Syntax or Returns; or that node is a text node (no `childNodes`) under Syntax;
   * or it has no first child under Returns.
   */
  lemma HeadingStepThrowsIff(d: Draft, h: Located)
    ensures var data := TextData(h.node);
      var n := ContentFollowing(h, 2);
      HeadingStep(d, h).Threw? <==>
        || (Includes(data, "Syntax") && (|h.following| < 2 || n.value.Text?))
        || (Includes(data, "Returns") && (|h.following| < 2 || n.value.Text? || n.value.children == []))
  {
  }

  /**
   * When the "Returns" branch does not throw, it writes the untrimmed text of the first
   * child of the node two siblings on if that child is a non-empty text node, and
   * otherwise (an element, whose `data` is undefined, or empty text) leaves the draft as it is.
   */
  lemma ReturnsValue(d: Draft, h: Located)
    requires ContentFollowing(h, 2).Some? && FirstChild(ContentFollowing(h, 2).value).Some?
    ensures var c := FirstChild(ContentFollowing(h, 2).value).value;
      && ReturnsStep(d, h).Completed?
      && (c.Text? && c.data != "" ==> ReturnsStep(d, h).state == d.(fn := d.fn.(returnText := c.data)))
      && (!(c.Text? && c.data != "") ==> ReturnsStep(d, h).state == d)
  {
  }

  lemma {:induction false} HeadingsKeep(d: Draft, hs: seq<Located>)
    ensures Headings(d, hs).state.fn.link == d.fn.link
    ensures (forall k :: 0 <= k < |hs| ==> !Includes(TextData(hs[k].node), "Syntax")) ==> Headings(d, hs).state.kind == d.kind
  {
    if hs != [] {
      var front := hs[..|hs| - 1];
      HeadingsKeep(d, front);
      HeadingStepKeeps(Headings(d, front).state, hs[|hs| - 1]);
      if forall k :: 0 <= k < |hs| ==> !Includes(TextData(hs[k].node), "Syntax") {
        assert forall k :: 0 <= k < |front| ==> front[k] == hs[k];
      }
    }
  }

  /**
   * A page never changes the record's link. A page with fewer than three `h3` headings,
   * or none whose text contains "Syntax", is never classified, so it is neither a
   * function nor a variable and is reported as not parsed.
   */
  lemma ExtractKeepsLinkAndKind(entryName: string, page: Page)
    ensures ExtractPage(InitialDraft(entryName), page).fn.link == DocsBaseUrl + entryName
    ensures |page.h3| < 3 ==> ExtractPage(InitialDraft(entryName), page).kind.None?
    ensures (forall k :: 0 <= k < |page.h3| ==> !Includes(TextData(page.h3[k].node), "Syntax")) ==>
      ExtractPage(InitialDraft(entryName), page).kind.None?
  {
    var d0 := InitialDraft(entryName);
    HeadingsKeep(d0, page.h3);
    var g := GuardedPart(d0, page);
    TablesOnlyParamsGrow(g.state, page.tables);
  }

  /**
   * The Example section keeps its code when the explanation four siblings on is missing:
   * the code is set, and the record is named as possibly misparsed.
   */
  lemma ExampleCodeSurvivesMissingExplanation(d: Draft, h: Located)
    requires ContentFollowing(h, 2).Some? && ContentFollowing(h, 2).value.Element?
    requires ContentFollowing(h, 4).None?
    ensures ExampleStep(d, h).fn.example.code == Trim(CollectText(ContentFollowing(h, 2).value.children))
    ensures ExampleStep(d, h).fn.example.description == d.fn.example.description
    ensures ExampleStep(d, h).suspects == d.suspects + [d.fn.name]
  {
  }

  /** Every name the page pushes onto the suspects is the record's name at that moment; a page that completes its guarded part only adds names from its tables. */
  lemma SuspectsGrow(d: Draft, page: Page)
    requires GuardedPart(d, page).Completed?
    ensures var s := GuardedPart(d, page).state;
      var r := ExtractPage(d, page);
      |s.suspects| <= |r.suspects| && r.suspects[..|s.suspects|] == s.suspects
      && forall k :: |s.suspects| <= k < |r.suspects| ==> r.suspects[k] == s.fn.name
  {
    TablesOnlyParamsGrow(GuardedPart(d, page).state, page.tables);
  }

  /**
   * A page with exactly three headings whose fallback throws keeps the return value the
   * fallback had reached before the throwing paragraph: the record is named as possibly
   * misparsed, its tables are skipped, and it carries that value.
   */
  lemma FallbackValueSurvivesThrow(d: Draft, page: Page, s: Draft, n: nat, v: string)
    requires |page.h3| == 3 && Headings(d, page.h3) == Completed(s)
    requires n < |page.paragraphs| && ScanParagraphs(s.fn.returnText, page.paragraphs[..n]) == Completed(v)
    requires IsReturnsParagraph(page.paragraphs[n]) && ChildAt(page.paragraphs[n], 1).None?
    ensures ExtractPage(d, page).fn == s.fn.(returnText := v)
    ensures ExtractPage(d, page).kind == s.kind
    ensures ExtractPage(d, page).suspects == s.suspects + [s.fn.name]
  {
    ThrowCarriesValueSoFar(s.fn.returnText, page.paragraphs, n, v);
  }
}
