/**
 * The parameter tables of a page. Within each `tbody`, header cells (`th`) whose first
 * child reads "Argument" or "Description" switch parameter reading on; from then on each
 * row's `td` cells give a parameter's label and documentation. A label containing `...`
 * marks the function as variadic. A TypeError inside a table abandons that table only.
 */
module ParamTable {
  import opened Wrappers
  import opened JsText
  import opened Markup
  import opened GmlDocs
  import opened Sections

  // ---------------------------------------------------------------------------
  // Cells of one row

  /** The per-tbody header flags and the per-row parameter being filled. */
  datatype RowState = RowState(foundArgument: bool, foundDescription: bool, checkParam: bool, param: DocParam)

  /** A header cell whose first child is the text `title`. */
  predicate IsHeaderTitled(entry: Node, title: string)
  {
    IsTag(entry, "th") && FirstChild(entry) == Some(Text(title))
  }

  /**
   * One cell: a `th` without a first child throws (`firstChild.data` on null); a `th` sets
   * the flag named by its first child's text; once both flags are set, a `td` fills the
   * label if it is still empty and the documentation otherwise.
   */
  function CellStep(st: RowState, entry: Node): Option<RowState>
  {
    if IsTag(entry, "th") then
      if FirstChild(entry).None? then None
      else Some(st.(foundArgument := st.foundArgument || IsHeaderTitled(entry, "Argument"),
                    foundDescription := st.foundDescription || IsHeaderTitled(entry, "Description")))
    else if st.foundArgument && st.foundDescription && IsTag(entry, "td") then
      var output := CollectText(entry.children);
      Some(st.(checkParam := true,
               param := if st.param.labelText == "" then st.param.(labelText := output)
                        else st.param.(documentation := output)))
    else Some(st)
  }

  /** The cells of a row in order; None when one of them throws. */
  function Cells(st: RowState, entries: seq<Node>): Option<RowState>
  {
    if entries == [] then Some(st)
    else
      match Cells(st, entries[..|entries| - 1])
      case None => None
      case Some(s) => CellStep(s, entries[|entries| - 1])
  }

  // ---------------------------------------------------------------------------
  // Rows of one tbody

  /** The record, the header flags of this tbody, and `infParam`, the index of the last variadic parameter. */
  datatype BodyState = BodyState(fn: DocFunction, foundArgument: bool, foundDescription: bool, infParam: Option<nat>)

  /** The record after a read parameter is pushed: a `...` label makes the function variadic first. */
  function PushParam(b: BodyState, r: RowState): BodyState
  {
    if !r.checkParam then b.(foundArgument := r.foundArgument, foundDescription := r.foundDescription)
    else
      var fn := if Includes(r.param.labelText, "...") then b.fn.(maxParameters := VariadicMaxParameters) else b.fn;
      var inf := if Includes(r.param.labelText, "...") then Some(|b.fn.parameters|) else b.infParam;
      BodyState(fn.(parameters := fn.parameters + [r.param]), r.foundArgument, r.foundDescription, inf)
  }

  /** One child of the tbody: only `tr` elements are rows; None when a cell throws. */
  function RowStep(b: BodyState, row: Node): Option<BodyState>
  {
    if !IsTag(row, "tr") then Some(b)
    else
      match Cells(RowState(b.foundArgument, b.foundDescription, false, DocParam("", "")), row.children)
      case None => None
      case Some(r) => Some(PushParam(b, r))
  }

  /** All rows; a throw ends the tbody with the state reached before the throwing row. */
  function Rows(b: BodyState, rows: seq<Node>): Flow<BodyState>
  {
    if rows == [] then Completed(b)
    else
      match Rows(b, rows[..|rows| - 1])
      case Threw(s) => Threw(s)
      case Completed(s) =>
        match RowStep(s, rows[|rows| - 1])
        case None => Threw(s)
        case Some(s') => Completed(s')
  }

  /** A tbody: its rows, then, for a variadic function, minParameters becomes this tbody's `infParam`. */
  function Tbody(fn: DocFunction, rows: seq<Node>): Flow<DocFunction>
  {
    match Rows(BodyState(fn, false, false, None), rows)
    case Threw(b) => Threw(b.fn)
    case Completed(b) =>
      if b.fn.maxParameters == VariadicMaxParameters && b.infParam.Some?
      then Completed(b.fn.(minParameters := b.infParam.value))
      else Completed(b.fn)
  }

  /** The children of a table: each `tbody` is read in turn; a throw ends the table. */
  function TableChildren(fn: DocFunction, cs: seq<Node>): Flow<DocFunction>
  {
    if cs == [] then Completed(fn)
    else
      match TableChildren(fn, cs[..|cs| - 1])
      case Threw(f) => Threw(f)
      case Completed(f) => if IsTag(cs[|cs| - 1], "tbody") then Tbody(f, cs[|cs| - 1].children) else Completed(f)
  }

  /** A table; a text node has no `childNodes`, and iterating them throws. */
  function Table(fn: DocFunction, table: Node): Flow<DocFunction>
  {
    if table.Text? then Threw(fn) else TableChildren(fn, table.children)
  }

  /** Every table of the page, each in its own try/catch: a throw names the record as possibly misparsed. */
  function Tables(d: Draft, ts: seq<Node>): Draft
  {
    if ts == [] then d
    else
      var d' := Tables(d, ts[..|ts| - 1]);
      match Table(d'.fn, ts[|ts| - 1])
      case Completed(f) => d'.(fn := f)
      case Threw(f) => d'.(fn := f, suspects := d'.suspects + [f.name])
  }

  // ---------------------------------------------------------------------------
  // The loops

  /** The loop over a row's cells, with the cell loop of each `td` inside GatherText. */
  method ReadRow(b: BodyState, row: Node) returns (r: Option<BodyState>)
    ensures r == RowStep(b, row)
  {
    if !IsTag(row, "tr") {
      return Some(b);
    }
    var entries := row.children;
    ghost var st0 := RowState(b.foundArgument, b.foundDescription, false, DocParam("", ""));
    var foundArgument, foundDescription := b.foundArgument, b.foundDescription;
    var checkParam := false;
    var thisParameter := DocParam("", "");
    for i := 0 to |entries|
      invariant Cells(st0, entries[..i]) == Some(RowState(foundArgument, foundDescription, checkParam, thisParameter))
    {
      assert entries[..i + 1][..i] == entries[..i];
      var thisEntry := entries[i];
      if IsTag(thisEntry, "th") {
        var first := FirstChild(thisEntry);
        if first.None? {
          assert Cells(st0, entries[..i + 1]) == None;
          CellsStopAtThrow(st0, entries, i + 1);
          assert entries[..|entries|] == entries;
          return None;
        }
        var headerTitle := first.value;
        if headerTitle == Text("Argument") {
          foundArgument := true;
        }
        if headerTitle == Text("Description") {
          foundDescription := true;
        }
        continue;
      }
      if foundArgument && foundDescription {
        if IsTag(thisEntry, "td") {
          checkParam := true;
          var output := GatherText(thisEntry.children);
          if thisParameter.labelText == "" {
            thisParameter := thisParameter.(labelText := output);
          } else {
            thisParameter := thisParameter.(documentation := output);
          }
        }
      }
    }
    assert entries[..|entries|] == entries;
    r := Some(PushParam(b, RowState(foundArgument, foundDescription, checkParam, thisParameter)));
  }

  /** The loop over a tbody's rows and the variadic fix-up after it. */
  method ReadTbody(fn: DocFunction, rows: seq<Node>) returns (f: Flow<DocFunction>)
    ensures f == Tbody(fn, rows)
  {
    var b := BodyState(fn, false, false, None);
    for i := 0 to |rows|
      invariant Rows(BodyState(fn, false, false, None), rows[..i]) == Completed(b)
    {
      assert rows[..i + 1][..i] == rows[..i];
      var next := ReadRow(b, rows[i]);
      if next.None? {
        RowsStopAtThrow(BodyState(fn, false, false, None), rows, i + 1);
        assert rows[..|rows|] == rows;
        return Threw(b.fn);
      }
      b := next.value;
    }
    assert rows[..|rows|] == rows;
    var thisFunction := b.fn;
    if thisFunction.maxParameters == VariadicMaxParameters {
      if b.infParam.Some? {
        thisFunction := thisFunction.(minParameters := b.infParam.value);
      }
    }
    return Completed(thisFunction);
  }

  /** The loop over a table's children. */
  method ReadTable(fn: DocFunction, element: Node) returns (f: Flow<DocFunction>)
    ensures f == Table(fn, element)
  {
    if element.Text? {
      return Threw(fn);
    }
    var cs := element.children;
    var thisFunction := fn;
    for i := 0 to |cs|
      invariant TableChildren(fn, cs[..i]) == Completed(thisFunction)
    {
      assert cs[..i + 1][..i] == cs[..i];
      var thisTable := cs[i];
      if IsTag(thisTable, "tbody") {
        var r := ReadTbody(thisFunction, thisTable.children);
        if r.Threw? {
          TableStopsAtThrow(fn, cs, i + 1);
          assert cs[..|cs|] == cs;
          return r;
        }
        thisFunction := r.state;
      }
    }
    assert cs[..|cs|] == cs;
    return Completed(thisFunction);
  }

  /** `$('table').each(...)`, each table inside its own try/catch. */
  method ReadTables(d: Draft, paramTable: seq<Node>) returns (r: Draft)
    ensures r == Tables(d, paramTable)
  {
    r := d;
    for i := 0 to |paramTable|
      invariant r == Tables(d, paramTable[..i])
    {
      assert paramTable[..i + 1][..i] == paramTable[..i];
      var t := ReadTable(r.fn, paramTable[i]);
      if t.Threw? {
        r := r.(fn := t.state, suspects := r.suspects + [t.state.name]);
      } else {
        r := r.(fn := t.state);
      }
    }
    assert paramTable[..|paramTable|] == paramTable;
  }

  // ---------------------------------------------------------------------------
  // Lemmas: stopping at a throw

  lemma {:induction false} CellsStopAtThrow(st: RowState, entries: seq<Node>, n: nat)
    requires n <= |entries| && Cells(st, entries[..n]).None?
    ensures Cells(st, entries).None?
    decreases |entries| - n
  {
    if n < |entries| {
      assert entries[..n + 1][..n] == entries[..n];
      CellsStopAtThrow(st, entries, n + 1);
    } else {
      assert entries[..n] == entries;
    }
  }

  lemma {:induction false} RowsStopAtThrow(b: BodyState, rows: seq<Node>, n: nat)
    requires 0 < n <= |rows| && Rows(b, rows[..n - 1]).Completed?
    requires RowStep(Rows(b, rows[..n - 1]).state, rows[n - 1]).None?
    ensures Rows(b, rows) == Threw(Rows(b, rows[..n - 1]).state)
    decreases |rows| - n
  {
    assert rows[..n][..n - 1] == rows[..n - 1];
    assert Rows(b, rows[..n]) == Threw(Rows(b, rows[..n - 1]).state);
    if n < |rows| {
      RowsStopAtThrowFrom(b, rows, n + 1, Rows(b, rows[..n - 1]).state);
    } else {
      assert rows[..n] == rows;
    }
  }

  lemma {:induction false} RowsStopAtThrowFrom(b: BodyState, rows: seq<Node>, n: nat, s: BodyState)
    requires 0 < n <= |rows| && Rows(b, rows[..n - 1]) == Threw(s)
    ensures Rows(b, rows) == Threw(s)
    decreases |rows| - n
  {
    if n < |rows| {
      assert rows[..n][..n - 1] == rows[..n - 1];
      RowsStopAtThrowFrom(b, rows, n + 1, s);
    } else {
      assert rows[..n] == rows;
    }
  }

  lemma {:induction false} TableStopsAtThrow(fn: DocFunction, cs: seq<Node>, n: nat)
    requires n <= |cs| && TableChildren(fn, cs[..n]).Threw?
    ensures TableChildren(fn, cs) == TableChildren(fn, cs[..n])
    decreases |cs| - n
  {
    if n < |cs| {
      assert cs[..n + 1][..n] == cs[..n];
      TableStopsAtThrow(fn, cs, n + 1);
    } else {
      assert cs[..n] == cs;
    }
  }

  // ---------------------------------------------------------------------------
  // Lemmas: what the tables may change

  /** Everything but the parameters and the two arity fields is left alone, and the old parameters stay in front. */
  predicate OnlyParamsGrow(before: DocFunction, after: DocFunction)
  {
    && after.name == before.name && after.signature == before.signature
    && after.example == before.example && after.documentation == before.documentation
    && after.returnText == before.returnText && after.link == before.link
    && |before.parameters| <= |after.parameters|
    && after.parameters[..|before.parameters|] == before.parameters
  }

  lemma {:induction false} RowsOnlyParamsGrow(b: BodyState, rows: seq<Node>)
    ensures OnlyParamsGrow(b.fn, Rows(b, rows).state.fn)
  {
    if rows != [] {
      RowsOnlyParamsGrow(b, rows[..|rows| - 1]);
      var s := Rows(b, rows[..|rows| - 1]).state;
      var p := s.fn.parameters;
      assert (p + [DocParam("", "")])[..|b.fn.parameters|] == p[..|b.fn.parameters|];
      forall r: RowState
        ensures PushParam(s, r).fn.parameters[..|b.fn.parameters|] == b.fn.parameters
      {
        assert (p + [r.param])[..|b.fn.parameters|] == p[..|b.fn.parameters|];
      }
    }
  }

  lemma {:induction false} TableChildrenOnlyParamsGrow(fn: DocFunction, cs: seq<Node>)
    ensures OnlyParamsGrow(fn, TableChildren(fn, cs).state)
  {
    if cs != [] {
      TableChildrenOnlyParamsGrow(fn, cs[..|cs| - 1]);
      var f := TableChildren(fn, cs[..|cs| - 1]).state;
      if IsTag(cs[|cs| - 1], "tbody") {
        RowsOnlyParamsGrow(BodyState(f, false, false, None), cs[|cs| - 1].children);
      }
    }
  }

  /**
   * The parameter tables never rename or otherwise alter the record beyond its parameters
   * and arity; parameters are only appended; a table that throws adds the record's name to
   * the suspects and nothing else.
   */
  lemma {:induction false} TablesOnlyParamsGrow(d: Draft, ts: seq<Node>)
    ensures OnlyParamsGrow(d.fn, Tables(d, ts).fn)
    ensures Tables(d, ts).kind == d.kind
    ensures |d.suspects| <= |Tables(d, ts).suspects| && Tables(d, ts).suspects[..|d.suspects|] == d.suspects
    ensures forall k :: |d.suspects| <= k < |Tables(d, ts).suspects| ==> Tables(d, ts).suspects[k] == d.fn.name
  {
    if ts != [] {
      var front := Tables(d, ts[..|ts| - 1]);
      TablesOnlyParamsGrow(d, ts[..|ts| - 1]);
      if ts[|ts| - 1].Element? {
        TableChildrenOnlyParamsGrow(front.fn, ts[|ts| - 1].children);
      }
      var r := Tables(d, ts);
      assert r.suspects[..|front.suspects|] == front.suspects;
    }
  }

  // ---------------------------------------------------------------------------
  // Lemmas: headers and variadic functions

  /** No header cell titled `title` anywhere in the rows. */
  predicate NoHeader(rows: seq<Node>, title: string)
  {
    forall i, j :: 0 <= i < |rows| && rows[i].Element? && 0 <= j < |rows[i].children| ==>
      !IsHeaderTitled(rows[i].children[j], title)
  }

  /** No cell of the row is a header titled `title`. */
  predicate NoHeaderCell(entries: seq<Node>, title: string)
  {
    forall j :: 0 <= j < |entries| ==> !IsHeaderTitled(entries[j], title)
  }

  /**
   * Cells are read only once both headers have been seen: a row that starts without one
   * of the two flags and holds no header cell with that title ends without it and reads
   * no cell.
   */
  lemma {:induction false} CellsWithoutHeaderPair(st: RowState, entries: seq<Node>)
    requires !st.checkParam
    requires (!st.foundArgument && NoHeaderCell(entries, "Argument")) || (!st.foundDescription && NoHeaderCell(entries, "Description"))
    ensures var r := Cells(st, entries);
      r.Some? ==>
        && !r.value.checkParam
        && (!st.foundArgument && NoHeaderCell(entries, "Argument") ==> !r.value.foundArgument)
        && (!st.foundDescription && NoHeaderCell(entries, "Description") ==> !r.value.foundDescription)
  {
    if entries != [] {
      var front := entries[..|entries| - 1];
      assert forall title :: NoHeaderCell(entries, title) ==> NoHeaderCell(front, title);
      CellsWithoutHeaderPair(st, front);
    }
  }

  /** A tbody lacking an "Argument" or a "Description" header reads no parameter, so the record leaves it as it came in. */
  lemma {:induction false} MissingHeaderNoParams(fn: DocFunction, rows: seq<Node>)
    requires NoHeader(rows, "Argument") || NoHeader(rows, "Description")
    ensures var s := Rows(BodyState(fn, false, false, None), rows).state;
      && s == s.(fn := fn)
      && (NoHeader(rows, "Argument") ==> !s.foundArgument)
      && (NoHeader(rows, "Description") ==> !s.foundDescription)
      && s.infParam.None?
    ensures Tbody(fn, rows).state == fn
  {
    if rows != [] {
      var front := rows[..|rows| - 1];
      forall title | NoHeader(rows, title)
        ensures NoHeader(front, title)
      {
        forall i, j | 0 <= i < |front| && front[i].Element? && 0 <= j < |front[i].children|
          ensures !IsHeaderTitled(front[i].children[j], title)
        {
          assert front[i] == rows[i];
        }
      }
      MissingHeaderNoParams(fn, front);
      var s := Rows(BodyState(fn, false, false, None), front).state;
      var row := rows[|rows| - 1];
      if IsTag(row, "tr") {
        forall title | NoHeader(rows, title)
          ensures NoHeaderCell(row.children, title)
        {
          assert rows[|rows| - 1] == row;
        }
        CellsWithoutHeaderPair(RowState(s.foundArgument, s.foundDescription, false, DocParam("", "")), row.children);
      }
    }
  }

  /** Cell `j` of a row is a `td` reached with both headers seen, so it is read into the parameter. */
  predicate CountedCell(st: RowState, entries: seq<Node>, j: int)
  {
    && 0 <= j < |entries| && IsTag(entries[j], "td")
    && Cells(st, entries[..j]).Some?
    && Cells(st, entries[..j]).value.foundArgument && Cells(st, entries[..j]).value.foundDescription
  }

  /**
   * The header flags after a row are set exactly when they were set before it or the row
   * holds a header cell with that title.
   */
  lemma {:induction false} CellsHeaderFlags(st: RowState, entries: seq<Node>)
    requires Cells(st, entries).Some?
    ensures Cells(st, entries).value.foundArgument <==> st.foundArgument || !NoHeaderCell(entries, "Argument")
    ensures Cells(st, entries).value.foundDescription <==> st.foundDescription || !NoHeaderCell(entries, "Description")
  {
    if entries != [] {
      var front := entries[..|entries| - 1];
      var last := entries[|entries| - 1];
      CellsHeaderFlags(st, front);
      forall title
        ensures !NoHeaderCell(entries, title) <==> !NoHeaderCell(front, title) || IsHeaderTitled(last, title)
      {
        if !NoHeaderCell(entries, title) {
          var j :| 0 <= j < |entries| && IsHeaderTitled(entries[j], title);
          if j < |front| {
            assert IsHeaderTitled(front[j], title);
          }
        }
        if !NoHeaderCell(front, title) {
          var j :| 0 <= j < |front| && IsHeaderTitled(front[j], title);
          assert IsHeaderTitled(entries[j], title);
        }
      }
    }
  }

  /** No cell of the row is counted. */
  predicate NoCountedCell(st: RowState, entries: seq<Node>)
  {
    forall j :: 0 <= j < |entries| ==> !CountedCell(st, entries, j)
  }

  /** Taking a cell off the end of a row keeps the cells counted before it. */
  lemma CountedCellFront(st: RowState, entries: seq<Node>, j: int)
    requires 0 <= j < |entries| - 1
    ensures CountedCell(st, entries, j) <==> CountedCell(st, entries[..|entries| - 1], j)
  {
    assert entries[..j] == entries[..|entries| - 1][..j];
  }

  /** A row that starts without a parameter yields one exactly when one of its cells is counted. */
  lemma {:induction false} CellsCounted(st: RowState, entries: seq<Node>)
    requires !st.checkParam && Cells(st, entries).Some?
    ensures Cells(st, entries).value.checkParam <==> !NoCountedCell(st, entries)
  {
    if entries != [] {
      var last := |entries| - 1;
      var front := entries[..last];
      CellsCounted(st, front);
      var c := Cells(st, front).value;
      var lastCounted := IsTag(entries[last], "td") && c.foundArgument && c.foundDescription;
      assert Cells(st, entries).value.checkParam == (c.checkParam || lastCounted);
      assert CountedCell(st, entries, last) == lastCounted;
      if !NoCountedCell(st, entries) {
        var j :| 0 <= j < |entries| && CountedCell(st, entries, j);
        if j < last {
          CountedCellFront(st, entries, j);
        }
      }
      if !NoCountedCell(st, front) {
        var j :| 0 <= j < |front| && CountedCell(st, front, j);
        CountedCellFront(st, entries, j);
      }
    }
  }

  /**
   * A row that does not throw appends exactly one parameter, at the end, when it is a `tr`
   * with a counted cell, and none otherwise; a non-`tr` child changes nothing.
   */
  lemma RowAppendsParam(b: BodyState, row: Node)
    requires RowStep(b, row).Some?
    ensures !IsTag(row, "tr") ==> RowStep(b, row).value == b
    ensures IsTag(row, "tr") ==>
      var st := RowState(b.foundArgument, b.foundDescription, false, DocParam("", ""));
      var c := Cells(st, row.children).value;
      && RowStep(b, row).value.fn.parameters == b.fn.parameters + (if c.checkParam then [c.param] else [])
      && (c.checkParam <==> !NoCountedCell(st, row.children))
  {
    if IsTag(row, "tr") {
      CellsCounted(RowState(b.foundArgument, b.foundDescription, false, DocParam("", "")), row.children);
    }
  }

  /** The parameter a row yields from state `b`: one for a `tr` with a counted cell, none otherwise. */
  function RowParam(b: BodyState, row: Node): seq<DocParam>
  {
    var st := RowState(b.foundArgument, b.foundDescription, false, DocParam("", ""));
    if IsTag(row, "tr") && Cells(st, row.children).Some? && !NoCountedCell(st, row.children)
    then [Cells(st, row.children).value.param]
    else []
  }

  /** The parameters the first `n` rows yield, row by row, each read from the state the rows before it left. */
  function PushedBy(b: BodyState, rows: seq<Node>, n: nat): seq<DocParam>
    requires n <= |rows|
  {
    if n == 0 then [] else PushedBy(b, rows, n - 1) + RowParam(Rows(b, rows[..n - 1]).state, rows[n - 1])
  }

  /** Rows added after the first `n` do not change what those `n` rows yield. */
  lemma {:induction false} PushedByPrefix(b: BodyState, rows: seq<Node>, n: nat)
    requires rows != [] && n < |rows|
    ensures PushedBy(b, rows, n) == PushedBy(b, rows[..|rows| - 1], n)
  {
    if n > 0 {
      PushedByPrefix(b, rows, n - 1);
      assert rows[..n - 1] == rows[..|rows| - 1][..n - 1];
    }
  }

  /**
   * A tbody that completes appends exactly one parameter per `tr` with a counted cell, in
   * row order, after the parameters it started with.
   */
  lemma {:induction false} RowsPushInRowOrder(b: BodyState, rows: seq<Node>)
    requires Rows(b, rows).Completed?
    ensures Rows(b, rows).state.fn.parameters == b.fn.parameters + PushedBy(b, rows, |rows|)
  {
    if rows != [] {
      var front := rows[..|rows| - 1];
      var s := Rows(b, front).state;
      RowsPushInRowOrder(b, front);
      PushedByPrefix(b, rows, |front|);
      assert rows[..|rows| - 1] == front;
      RowAppendsParam(s, rows[|rows| - 1]);
    }
  }

  /**
   * How a tbody's rows track variadic parameters: without `infParam` no new parameter has
   * a `...` label and maxParameters is unchanged; with it, maxParameters is 9999 and
   * `infParam` is the index of the last new parameter whose label has `...`.
   */
  predicate TracksVariadic(fn0: DocFunction, b: BodyState)
  {
    var ps := b.fn.parameters;
    && |fn0.parameters| <= |ps|
    && b.fn.minParameters == fn0.minParameters
    && (b.infParam.None? ==>
          b.fn.maxParameters == fn0.maxParameters
          && forall k :: |fn0.parameters| <= k < |ps| ==> !Includes(ps[k].labelText, "..."))
    && (b.infParam.Some? ==>
          b.fn.maxParameters == VariadicMaxParameters
          && |fn0.parameters| <= b.infParam.value < |ps|
          && Includes(ps[b.infParam.value].labelText, "...")
          && forall k :: b.infParam.value < k < |ps| ==> !Includes(ps[k].labelText, "..."))
  }

  lemma {:induction false} RowsTrackVariadic(fn0: DocFunction, rows: seq<Node>)
    ensures TracksVariadic(fn0, Rows(BodyState(fn0, false, false, None), rows).state)
  {
    if rows != [] {
      RowsTrackVariadic(fn0, rows[..|rows| - 1]);
    }
  }

  /**
   * After a tbody that completes: if some parameter it read is variadic, maxParameters is
   * 9999 and minParameters is the index of the last such parameter; otherwise both arity
   * fields are as before.
   */
  lemma TbodyVariadic(fn: DocFunction, rows: seq<Node>)
    requires Tbody(fn, rows).Completed?
    ensures var f := Tbody(fn, rows).state;
      var ps := f.parameters;
      && |fn.parameters| <= |ps|
      && ((forall k :: |fn.parameters| <= k < |ps| ==> !Includes(ps[k].labelText, "...")) ==>
            f.maxParameters == fn.maxParameters && f.minParameters == fn.minParameters)
      && (forall k :: |fn.parameters| <= k < |ps| && Includes(ps[k].labelText, "...") ==>
            f.maxParameters == VariadicMaxParameters
            && |fn.parameters| <= f.minParameters < |ps|
            && Includes(ps[f.minParameters].labelText, "...")
            && forall j :: f.minParameters < j < |ps| ==> !Includes(ps[j].labelText, "..."))
  {
    RowsTrackVariadic(fn, rows);
  }
}
