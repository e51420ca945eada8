/**
 * The commit step of the importer's page loop: a draft that the syntax line classified
 * is validated, normalised and appended to the manual, with American-spelling copies for
 * British names; a rejected draft is reported in one of the two failure lists. The
 * manual under construction is the class `ManualBuilder`; the pure functions beside it
 * say what one page does to it.
 */
module Importer {
  import opened Wrappers
  import opened JsText
  import opened Markup
  import opened GmlDocs
  import opened Fnames
  import opened PageExtract

  /** The British spellings and their replacements, in the order the importer tries them. */
  const UKSpellings: seq<(string, string)> :=
    [("colour", "color"), ("randomise", "randomize"), ("normalised", "normalized"), ("maximise", "maximized")]

  /** Names whose page title is taken from the first `h2` instead of the syntax line. */
  const HardCodedChecks: seq<string> :=
    ["keyboard_get_map", "gpu_set_blendmode", "gpu_get_tex_mip_filter", "physics_particle_get_damping", "steam_activate_overlay"]

  /**
   * Everything the page loop accumulates: the manual's functions and variables and the
   * two failure lists, "May have been parsed incorrectly:" and "Was not Parsed; likely
   * not a function:".
   */
  datatype Collected = Collected(
    functions: seq<DocFunction>,
    variables: seq<DocVariable>,
    parsedIncorrectly: seq<string>,
    notParsed: seq<string>)

  const NothingCollected: Collected := Collected([], [], [], [])

  // ---------------------------------------------------------------------------
  // Normalisation

  function CleanParam(p: DocParam): DocParam
  {
    DocParam(ClearLineTerminators(p.labelText), ClearLineTerminators(p.documentation))
  }

  /** Every parameter with line terminators cleared from its label and documentation. */
  function CleanedParams(ps: seq<DocParam>): seq<DocParam>
  {
    seq(|ps|, k requires 0 <= k < |ps| => CleanParam(ps[k]))
  }

  /** The loop over `thisFunction.parameters` that clears each label and documentation. */
  method CleanParams(ps: seq<DocParam>) returns (r: seq<DocParam>)
    ensures r == CleanedParams(ps)
  {
    r := [];
    for i := 0 to |ps|
      invariant r == CleanedParams(ps[..i])
    {
      r := r + [CleanParam(ps[i])];
    }
    assert ps[..|ps|] == ps;
  }

  /**
   * A valid function draft after normalisation: every text field except the example
   * code loses its line terminators, the link's whitespace becomes `%20`.
   */
  function CleanFunction(f: DocFunction): DocFunction
  {
    f.(documentation := ClearLineTerminators(f.documentation),
       signature := ClearLineTerminators(f.signature),
       example := f.example.(description := ClearLineTerminators(f.example.description)),
       name := ClearLineTerminators(f.name),
       returnText := ClearLineTerminators(f.returnText),
       link := EncodeWhitespace(f.link),
       parameters := CleanedParams(f.parameters))
  }

  /**
   * The hard-coded renames: a listed name is replaced by the non-empty first text of the
   * page's first `h2`. None stands for the uncaught TypeError raised when the page has no
   * `h2` at all.
   */
  function HardCodedName(g: DocFunction, h2: seq<Node>): (r: Option<DocFunction>)
    ensures r.None? <==> g.name in HardCodedChecks && h2 == []
    ensures r.Some? ==> r.value == g.(name := r.value.name)
    ensures r.Some? && r.value.name != g.name ==> g.name in HardCodedChecks && r.value.name == TextData(h2[0])
    ensures g.name !in HardCodedChecks ==> r == Some(g)
    ensures g.name in HardCodedChecks && h2 != [] && TextData(h2[0]) != "" ==> r == Some(g.(name := TextData(h2[0])))
  {
    if g.name !in HardCodedChecks then Some(g)
    else if h2 == [] then None
    else if TextData(h2[0]) != "" then Some(g.(name := TextData(h2[0])))
    else Some(g)
  }

  /** Some committed function already carries this name. */
  predicate NameTaken(saved: seq<DocFunction>, name: string)
  {
    exists k :: 0 <= k < |saved| && saved[k].name == name
  }

  /** The duplicate check: a scan of the saved functions that stops at the first equal name. */
  method HasFunctionNamed(saved: seq<DocFunction>, name: string) returns (found: bool)
    ensures found <==> NameTaken(saved, name)
  {
    var k := 0;
    while k < |saved|
      invariant 0 <= k <= |saved|
      invariant forall j :: 0 <= j < k ==> saved[j].name != name
    {
      if saved[k].name == name {
        return true;
      }
      k := k + 1;
    }
    return false;
  }

  // ---------------------------------------------------------------------------
  // American spellings

  /** The spelling pairs whose British word occurs in the name, in table order. */
  function Matching(name: string, sp: seq<(string, string)>): seq<(string, string)>
    decreases |sp|
  {
    if sp == [] then []
    else Matching(name, sp[..|sp| - 1]) + (if Includes(name, sp[|sp| - 1].0) then [sp[|sp| - 1]] else [])
  }

  /** A function copy with the first occurrence of `uk` replaced in its name, signature and return value. */
  function FunctionClone(f: DocFunction, uk: string, us: string): (c: DocFunction)
    ensures c.link == f.link && c.parameters == f.parameters && c.documentation == f.documentation
    ensures c.example == f.example && c.minParameters == f.minParameters && c.maxParameters == f.maxParameters
    ensures c.name == ReplaceFirst(f.name, uk, us) && c.signature == ReplaceFirst(f.signature, uk, us)
    ensures c.returnText == ReplaceFirst(f.returnText, uk, us)
    ensures Includes(f.name, uk) ==> Includes(c.name, us)
  {
    var c := f.(name := ReplaceFirst(f.name, uk, us),
                signature := ReplaceFirst(f.signature, uk, us),
                returnText := ReplaceFirst(f.returnText, uk, us));
    assert Includes(f.name, uk) ==> OccursAt(c.name, us, IndexOf(f.name, uk));
    c
  }

  /** The worked case: the copy of `draw_set_colour` is named `draw_set_color`, everything else in its name kept. */
  lemma ColourCopyName(f: DocFunction)
    requires f.name == "draw_set_colour"
    ensures FunctionClone(f, "colour", "color").name == "draw_set_color"
  {
    var name := f.name;
    assert OccursAt(name, "colour", 9) by {
      assert name[9..15] == "colour";
    }
    forall j | 0 <= j < 9
      ensures !OccursAt(name, "colour", j)
    {
      assert name[j] != 'c';
      assert j + 6 <= |name| ==> name[j..j + 6][0] == name[j];
    }
    ReplaceAtFirst(name, "colour", "color", 9);
    assert name[..9] + "color" + name[15..] == "draw_set_color";
  }

  /** The copies the spelling loop appends for a function, in table order. */
  function FunctionClones(f: DocFunction, sp: seq<(string, string)>): seq<DocFunction>
    decreases |sp|
  {
    if sp == [] then []
    else
      var (uk, us) := sp[|sp| - 1];
      FunctionClones(f, sp[..|sp| - 1]) + (if Includes(f.name, uk) then [FunctionClone(f, uk, us)] else [])
  }

  /** A variable copy with the first occurrence of `uk` replaced in its name, type and link. */
  function VariableClone(v: DocVariable, uk: string, us: string): (c: DocVariable)
    ensures c.marker == v.marker && c.example == v.example && c.documentation == v.documentation
    ensures c.doNotAutoComplete == v.doNotAutoComplete
    ensures c.name == ReplaceFirst(v.name, uk, us) && c.typeText == ReplaceFirst(v.typeText, uk, us)
    ensures c.link == ReplaceFirst(v.link, uk, us)
    ensures Includes(v.name, uk) ==> Includes(c.name, us)
  {
    var c := v.(name := ReplaceFirst(v.name, uk, us),
                typeText := ReplaceFirst(v.typeText, uk, us),
                link := ReplaceFirst(v.link, uk, us));
    assert Includes(v.name, uk) ==> OccursAt(c.name, us, IndexOf(v.name, uk));
    c
  }

  /**
   * The copies the spelling loop appends for a variable, and the variable's
   * `doNotAutoComplete` afterwards. Each copy is taken from the variable as it is at
   * that moment, so it carries the flag set by an earlier match.
   */
  function VariableClones(v: DocVariable, sp: seq<(string, string)>): (seq<DocVariable>, bool)
    decreases |sp|
  {
    if sp == [] then ([], v.doNotAutoComplete)
    else
      var (clones, flag) := VariableClones(v, sp[..|sp| - 1]);
      var (uk, us) := sp[|sp| - 1];
      if Includes(v.name, uk) then (clones + [VariableClone(v.(doNotAutoComplete := flag), uk, us)], true)
      else (clones, flag)
  }

  // ---------------------------------------------------------------------------
  // Committing one page

  /** A rejected record: its name joins "Was not Parsed" unless it is already among the suspects. */
  function ReportNotParsed(acc: Collected, name: string): (r: Collected)
    ensures name in r.parsedIncorrectly || name in r.notParsed
    ensures name in acc.parsedIncorrectly ==> r == acc
    ensures r.functions == acc.functions && r.variables == acc.variables
    ensures r.parsedIncorrectly == acc.parsedIncorrectly
    ensures name !in acc.parsedIncorrectly ==> r.notParsed == acc.notParsed + [name]
  {
    if name in acc.parsedIncorrectly then acc else acc.(notParsed := acc.notParsed + [name])
  }

  /** The function branch of the commit; None is the crash of a hard-coded name on a page without `h2`. */
  function FunctionCommit(acc: Collected, valid: DocFunction -> bool, f: DocFunction, h2: seq<Node>): Option<Collected>
  {
    if !valid(f) then Some(ReportNotParsed(acc, f.name))
    else
      match HardCodedName(CleanFunction(f), h2)
      case None => None
      case Some(g) =>
        if NameTaken(acc.functions, g.name) then Some(acc)
        else Some(acc.(functions := acc.functions + FunctionClones(g, UKSpellings) + [g]))
  }

  /** The variable built from a draft classified as a variable, before validation. */
  function MakeVariable(f: DocFunction): DocVariable
  {
    DocVariable(
      ClearLineTerminators(f.name),
      DocExample(f.example.code, ClearLineTerminators(f.example.description)),
      ClearLineTerminators(f.documentation),
      ClearLineTerminators(f.returnText),
      EncodeWhitespace(f.link),
      Constant,
      false)
  }

  /** The variable branch of the commit. */
  function VariableCommit(acc: Collected, valid: DocVariable -> bool, fnames: FnamesParse, f: DocFunction): Collected
  {
    var v := MakeVariable(f);
    if !valid(v) then ReportNotParsed(acc, v.name)
    else
      var (clones, flag) := VariableClones(v, UKSpellings);
      var main := v.(doNotAutoComplete := flag, marker := if v.name in fnames.instanceVar then InstVar else v.marker);
      acc.(variables := acc.variables + clones + [main])
  }

  /**
   * One admitted page: extraction, the suspects it reported, then the commit its kind
   * selects. An unclassified page commits nothing.
   */
  function PageStep(acc: Collected, fnames: FnamesParse, validFunction: DocFunction -> bool,
                    validVariable: DocVariable -> bool, entryName: string, page: Page): Option<Collected>
  {
    var d := ExtractPage(InitialDraft(entryName), page);
    var reported := acc.(parsedIncorrectly := acc.parsedIncorrectly + d.suspects);
    match d.kind
    case None => Some(reported)
    case Some(Function) => FunctionCommit(reported, validFunction, d.fn, page.h2)
    case Some(Variable) => Some(VariableCommit(reported, validVariable, fnames, d.fn))
  }

  // ---------------------------------------------------------------------------
  // The manual under construction

  class ManualBuilder {
    const fnames: FnamesParse
    const functionValidator: DocFunction -> bool
    const variableValidator: DocVariable -> bool
    var functions: seq<DocFunction>
    var variables: seq<DocVariable>
    var parsedIncorrectly: seq<string>
    var notParsed: seq<string>

    function State(): Collected
      reads this
    {
      Collected(functions, variables, parsedIncorrectly, notParsed)
    }

    constructor (fnames: FnamesParse, functionValidator: DocFunction -> bool, variableValidator: DocVariable -> bool)
      ensures State() == NothingCollected
      ensures this.fnames == fnames && this.functionValidator == functionValidator
      ensures this.variableValidator == variableValidator
    {
      this.fnames := fnames;
      this.functionValidator := functionValidator;
      this.variableValidator := variableValidator;
      functions := [];
      variables := [];
      parsedIncorrectly := [];
      notParsed := [];
    }

    /** Extracts one admitted page and commits it; `crashed` is the uncaught TypeError of a hard-coded name. */
    method ProcessPage(entryName: string, page: Page) returns (crashed: bool)
      modifies this
      ensures var r := PageStep(old(State()), fnames, functionValidator, variableValidator, entryName, page);
        (crashed <==> r.None?) && (r.Some? ==> State() == r.value)
    {
      var d := ReadPage(entryName, page);
      parsedIncorrectly := parsedIncorrectly + d.suspects;
      crashed := false;
      if d.kind == Some(Function) {
        crashed := CommitFunction(d.fn, page.h2);
      }
      if d.kind == Some(Variable) {
        CommitVariable(d.fn);
      }
    }

    /** The function branch: validation, normalisation, the hard-coded rename, the duplicate check and the spelling copies. */
    method CommitFunction(f: DocFunction, h2: seq<Node>) returns (crashed: bool)
      modifies this
      ensures var r := FunctionCommit(old(State()), functionValidator, f, h2);
        (crashed <==> r.None?) && (r.Some? ==> State() == r.value)
    {
      if !functionValidator(f) {
        if f.name !in parsedIncorrectly {
          notParsed := notParsed + [f.name];
        }
        return false;
      }
      var thisFunction := NormaliseFunction(f);
      var renamed := ApplyHardCodedName(thisFunction, h2);
      if renamed.None? {
        return true;
      }
      thisFunction := renamed.value;
      var duplicate := HasFunctionNamed(functions, thisFunction.name);
      if duplicate {
        return false;
      }
      var withClones := AppendFunctionClones(functions, thisFunction, UKSpellings);
      functions := withClones + [thisFunction];
      return false;
    }

    /** The variable branch: the variable record, validation, the spelling copies and the instance-variable marker. */
    method CommitVariable(f: DocFunction)
      modifies this
      ensures State() == VariableCommit(old(State()), variableValidator, fnames, f)
    {
      var thisVar := BuildVariable(f);
      if variableValidator(thisVar) {
        var withClones, flag := AppendVariableClones(variables, thisVar, UKSpellings);
        thisVar := thisVar.(doNotAutoComplete := flag);
        if thisVar.name in fnames.instanceVar {
          thisVar := thisVar.(marker := InstVar);
        }
        variables := withClones + [thisVar];
      } else {
        if thisVar.name !in parsedIncorrectly {
          notParsed := notParsed + [thisVar.name];
        }
      }
    }

  }

  /** The spelling loop of the function branch: one copy per British word in the name, in table order. */
  method AppendFunctionClones(fs: seq<DocFunction>, g: DocFunction, sp: seq<(string, string)>) returns (r: seq<DocFunction>)
    ensures r == fs + FunctionClones(g, sp)
  {
    r := fs;
    for i := 0 to |sp|
      invariant r == fs + FunctionClones(g, sp[..i])
    {
      assert sp[..i + 1][..i] == sp[..i];
      var (thisSpelling, american) := sp[i];
      if Includes(g.name, thisSpelling) {
        r := r + [FunctionClone(g, thisSpelling, american)];
      }
    }
    assert sp[..|sp|] == sp;
  }

  /**
   * The spelling loop of the variable branch: one copy per British word in the name,
   * each taken from the variable as it stands; `flag` is its `doNotAutoComplete` after the loop.
   */
  method AppendVariableClones(vs: seq<DocVariable>, v: DocVariable, sp: seq<(string, string)>) returns (r: seq<DocVariable>, flag: bool)
    ensures r == vs + VariableClones(v, sp).0 && flag == VariableClones(v, sp).1
  {
    r := vs;
    var thisVar := v;
    for i := 0 to |sp|
      invariant r == vs + VariableClones(v, sp[..i]).0
      invariant thisVar == v.(doNotAutoComplete := VariableClones(v, sp[..i]).1)
    {
      assert sp[..i + 1][..i] == sp[..i];
      var (thisSpelling, american) := sp[i];
      if Includes(thisVar.name, thisSpelling) {
        r := r + [VariableClone(thisVar, thisSpelling, american)];
        thisVar := thisVar.(doNotAutoComplete := true);
      }
    }
    assert sp[..|sp|] == sp;
    flag := thisVar.doNotAutoComplete;
  }

  /** The field-by-field clean-up of a valid function draft. */
  method NormaliseFunction(f: DocFunction) returns (thisFunction: DocFunction)
    ensures thisFunction == CleanFunction(f)
  {
    thisFunction := f.(documentation := ClearLineTerminators(f.documentation),
                       signature := ClearLineTerminators(f.signature),
                       example := f.example.(description := ClearLineTerminators(f.example.description)),
                       name := ClearLineTerminators(f.name),
                       returnText := ClearLineTerminators(f.returnText));
    thisFunction := thisFunction.(link := EncodeWhitespace(thisFunction.link));
    var params := CleanParams(thisFunction.parameters);
    thisFunction := thisFunction.(parameters := params);
  }

  /** The hard-coded check; None is the TypeError of `loopTilData(h2[0])` on a page without `h2`. */
  method ApplyHardCodedName(thisFunction: DocFunction, h2: seq<Node>) returns (r: Option<DocFunction>)
    ensures r == HardCodedName(thisFunction, h2)
  {
    r := Some(thisFunction);
    if thisFunction.name in HardCodedChecks {
      if h2 == [] {
        return None;
      }
      var ourText := LoopTilData(h2[0]);
      if ourText.Some? && ourText.value.data != "" {
        r := Some(thisFunction.(name := ourText.value.data));
      }
    }
  }

  /** The variable record built from a draft, with its link encoded. */
  method BuildVariable(f: DocFunction) returns (thisVar: DocVariable)
    ensures thisVar == MakeVariable(f)
  {
    thisVar := DocVariable(
      ClearLineTerminators(f.name),
      DocExample(f.example.code, ClearLineTerminators(f.example.description)),
      ClearLineTerminators(f.documentation),
      ClearLineTerminators(f.returnText),
      f.link,
      Constant,
      false);
    thisVar := thisVar.(link := EncodeWhitespace(thisVar.link));
  }

  // ---------------------------------------------------------------------------
  // Lemmas

  /** Every cleaned parameter is free of line breaks; there is one per parameter. */
  lemma CleanedParamsClear(ps: seq<DocParam>)
    ensures var r := CleanedParams(ps);
      && |r| == |ps|
      && forall k :: 0 <= k < |r| ==> NoLineBreaks(r[k].labelText) && NoLineBreaks(r[k].documentation)
  {
    forall k | 0 <= k < |ps|
      ensures NoLineBreaks(CleanedParams(ps)[k].labelText) && NoLineBreaks(CleanedParams(ps)[k].documentation)
    {
      ClearRemovesLineBreaks(ps[k].labelText);
      ClearRemovesLineBreaks(ps[k].documentation);
    }
  }

  /**
   * A committed function's texts are free of line breaks, except the example code, which
   * is kept as extracted; its link is free of whitespace; its arity is untouched.
   */
  lemma CleanFunctionClears(f: DocFunction)
    ensures var g := CleanFunction(f);
      && NoLineBreaks(g.name) && NoLineBreaks(g.signature) && NoLineBreaks(g.documentation)
      && NoLineBreaks(g.returnText) && NoLineBreaks(g.example.description)
      && g.example.code == f.example.code && NoWhitespace(g.link)
      && g.minParameters == f.minParameters && g.maxParameters == f.maxParameters
      && |g.parameters| == |f.parameters|
      && forall k :: 0 <= k < |g.parameters| ==> NoLineBreaks(g.parameters[k].labelText) && NoLineBreaks(g.parameters[k].documentation)
  {
    ClearRemovesLineBreaks(f.name);
    ClearRemovesLineBreaks(f.signature);
    ClearRemovesLineBreaks(f.documentation);
    ClearRemovesLineBreaks(f.returnText);
    ClearRemovesLineBreaks(f.example.description);
    EncodeRemovesWhitespace(f.link);
    CleanedParamsClear(f.parameters);
  }

  /**
   * A variable's texts are free of line breaks, except the example code; its link is free
   * of whitespace; it starts with the constant marker `#` and without `doNotAutoComplete`.
   */
  lemma MakeVariableClears(f: DocFunction)
    ensures var v := MakeVariable(f);
      && NoLineBreaks(v.name) && NoLineBreaks(v.documentation) && NoLineBreaks(v.typeText)
      && NoLineBreaks(v.example.description) && v.example.code == f.example.code
      && NoWhitespace(v.link) && v.marker == Constant && !v.doNotAutoComplete
  {
    ClearRemovesLineBreaks(f.name);
    ClearRemovesLineBreaks(f.documentation);
    ClearRemovesLineBreaks(f.returnText);
    ClearRemovesLineBreaks(f.example.description);
    EncodeRemovesWhitespace(f.link);
  }

  /** A page with fewer than three `h3` headings is never classified and commits nothing. */
  lemma FewHeadingsCommitNothing(acc: Collected, fnames: FnamesParse, validFunction: DocFunction -> bool,
                                 validVariable: DocVariable -> bool, entryName: string, page: Page)
    requires |page.h3| < 3
    ensures var r := PageStep(acc, fnames, validFunction, validVariable, entryName, page);
      && r.Some?
      && r.value.functions == acc.functions && r.value.variables == acc.variables
      && r.value.notParsed == acc.notParsed
  {
    ExtractKeepsLinkAndKind(entryName, page);
  }

  /** A function draft the validator rejects is never committed; only the failure lists may change. */
  lemma RejectedFunctionNotCommitted(acc: Collected, valid: DocFunction -> bool, f: DocFunction, h2: seq<Node>)
    requires !valid(f)
    ensures var r := FunctionCommit(acc, valid, f, h2);
      && r.Some? && r.value.functions == acc.functions && r.value.variables == acc.variables
      && (f.name in r.value.parsedIncorrectly || f.name in r.value.notParsed)
      && r.value.parsedIncorrectly == acc.parsedIncorrectly
      && (f.name in acc.parsedIncorrectly ==> r.value == acc)
      && (f.name !in acc.parsedIncorrectly ==> r.value.notParsed == acc.notParsed + [f.name])
  {
  }

  /** First seen wins: a valid draft whose final name is already committed (copies included) changes nothing. */
  lemma DuplicateDropped(acc: Collected, valid: DocFunction -> bool, f: DocFunction, h2: seq<Node>, g: DocFunction)
    requires valid(f) && HardCodedName(CleanFunction(f), h2) == Some(g)
    requires exists k :: 0 <= k < |acc.functions| && acc.functions[k].name == g.name
    ensures FunctionCommit(acc, valid, f, h2) == Some(acc)
  {
  }

  /**
   * A valid draft with a new name is appended after one copy per British word its name
   * contains, each copy taking the American word; nothing else changes.
   */
  lemma FunctionCommitted(acc: Collected, valid: DocFunction -> bool, f: DocFunction, h2: seq<Node>, g: DocFunction)
    requires valid(f) && HardCodedName(CleanFunction(f), h2) == Some(g)
    requires forall k :: 0 <= k < |acc.functions| ==> acc.functions[k].name != g.name
    ensures var r := FunctionCommit(acc, valid, f, h2);
      && r.Some?
      && |r.value.functions| == |acc.functions| + |Matching(g.name, UKSpellings)| + 1
      && r.value.functions[..|acc.functions|] == acc.functions
      && r.value.functions[|r.value.functions| - 1] == g
      && (forall k :: |acc.functions| <= k < |r.value.functions| - 1 ==>
            var c := r.value.functions[k];
            c.link == g.link && c.parameters == g.parameters &&
            exists p :: p in Matching(g.name, UKSpellings) && Includes(c.name, p.1))
      && r.value.variables == acc.variables && r.value.notParsed == acc.notParsed
  {
    FunctionClonesMatch(g, UKSpellings);
    var m := Matching(g.name, UKSpellings);
    var cs := FunctionClones(g, UKSpellings);
    assert !NameTaken(acc.functions, g.name);
    var r := FunctionCommit(acc, valid, f, h2).value;
    assert r.functions == acc.functions + cs + [g];
    forall k | |acc.functions| <= k < |r.functions| - 1
      ensures var c := r.functions[k];
        c.link == g.link && c.parameters == g.parameters &&
        exists p :: p in m && Includes(c.name, p.1)
    {
      var j := k - |acc.functions|;
      assert r.functions[k] == cs[j] == FunctionClone(g, m[j].0, m[j].1);
      assert m[j] in m && Includes(cs[j].name, m[j].1);
    }
  }

  /** Every function copy keeps the original's link. */
  lemma {:induction false} FunctionClonesKeepLink(f: DocFunction, sp: seq<(string, string)>)
    ensures forall k :: 0 <= k < |FunctionClones(f, sp)| ==> FunctionClones(f, sp)[k].link == f.link
    decreases |sp|
  {
    if sp != [] {
      FunctionClonesKeepLink(f, sp[..|sp| - 1]);
    }
  }

  /** The function copies are exactly one per matching spelling pair, in order. */
  lemma {:induction false} FunctionClonesMatch(f: DocFunction, sp: seq<(string, string)>)
    ensures var m := Matching(f.name, sp);
      && |FunctionClones(f, sp)| == |m|
      && (forall k :: 0 <= k < |m| ==> FunctionClones(f, sp)[k] == FunctionClone(f, m[k].0, m[k].1))
      && (forall k :: 0 <= k < |m| ==> Includes(f.name, m[k].0))
    decreases |sp|
  {
    if sp != [] {
      FunctionClonesMatch(f, sp[..|sp| - 1]);
    }
  }

  /** The spelling pairs that match are those of the table whose British word the name contains. */
  lemma {:induction false} MatchingMembers(name: string, sp: seq<(string, string)>, p: (string, string))
    ensures p in Matching(name, sp) <==> p in sp && Includes(name, p.0)
    decreases |sp|
  {
    if sp != [] {
      MatchingMembers(name, sp[..|sp| - 1], p);
      assert sp == sp[..|sp| - 1] + [sp[|sp| - 1]];
    }
  }

  /**
   * The variable copies are one per matching spelling pair; all keep the variable's
   * marker, example and documentation; the first copy keeps the variable's own
   * `doNotAutoComplete` and every later one has it set; afterwards the flag is set
   * exactly when some pair matched.
   */
  lemma {:induction false} VariableClonesMatch(v: DocVariable, sp: seq<(string, string)>)
    ensures var (clones, flag) := VariableClones(v, sp);
      var m := Matching(v.name, sp);
      && |clones| == |m|
      && (flag <==> v.doNotAutoComplete || |m| > 0)
      && (forall k :: 0 <= k < |clones| ==>
            clones[k].marker == v.marker && clones[k].example == v.example &&
            clones[k].documentation == v.documentation && Includes(clones[k].name, m[k].1) &&
            clones[k].doNotAutoComplete == (v.doNotAutoComplete || k > 0))
      && (forall k :: 0 <= k < |clones| ==>
            clones[k] == VariableClone(v.(doNotAutoComplete := v.doNotAutoComplete || k > 0), m[k].0, m[k].1))
  {
    VariableClonesAreCopies(v, sp);
    var (clones, flag) := VariableClones(v, sp);
    var m := Matching(v.name, sp);
    forall k | 0 <= k < |clones|
      ensures clones[k].marker == v.marker && clones[k].example == v.example
      ensures clones[k].documentation == v.documentation && Includes(clones[k].name, m[k].1)
      ensures clones[k].doNotAutoComplete == (v.doNotAutoComplete || k > 0)
    {
      var w := v.(doNotAutoComplete := v.doNotAutoComplete || k > 0);
      assert clones[k] == VariableClone(w, m[k].0, m[k].1);
      assert Includes(w.name, m[k].0);
    }
  }

  /** Copy `k` is VariableClone of the `k`-th matching pair, from the variable with the flag as the loop left it. */
  lemma {:induction false} VariableClonesAreCopies(v: DocVariable, sp: seq<(string, string)>)
    ensures var (clones, flag) := VariableClones(v, sp);
      var m := Matching(v.name, sp);
      && |clones| == |m|
      && (flag <==> v.doNotAutoComplete || |m| > 0)
      && (forall k :: 0 <= k < |m| ==> Includes(v.name, m[k].0))
      && (forall k :: 0 <= k < |clones| ==>
            clones[k] == VariableClone(v.(doNotAutoComplete := v.doNotAutoComplete || k > 0), m[k].0, m[k].1))
    decreases |sp|
  {
    if sp != [] {
      var front := sp[..|sp| - 1];
      VariableClonesAreCopies(v, front);
      var (cs0, flag0) := VariableClones(v, front);
      var m0 := Matching(v.name, front);
      var (uk, us) := sp[|sp| - 1];
      if Includes(v.name, uk) {
        var c := VariableClone(v.(doNotAutoComplete := flag0), uk, us);
        assert VariableClones(v, sp) == (cs0 + [c], true);
        assert Matching(v.name, sp) == m0 + [(uk, us)];
        assert flag0 == (v.doNotAutoComplete || |m0| > 0);
      } else {
        assert VariableClones(v, sp) == (cs0, flag0);
        assert Matching(v.name, sp) == m0;
      }
    }
  }

  /**
   * A valid variable is appended last, after its copies; its marker becomes `@` exactly
   * when its name is in the InstanceVar list and stays `#` otherwise; the copies keep `#`;
   * its `doNotAutoComplete` is set exactly when it has a copy; its link holds no whitespace.
   */
  lemma VariableCommitted(acc: Collected, valid: DocVariable -> bool, fnames: FnamesParse, f: DocFunction)
    requires valid(MakeVariable(f))
    ensures var r := VariableCommit(acc, valid, fnames, f);
      var v := MakeVariable(f);
      var main := r.variables[|r.variables| - 1];
      && |r.variables| == |acc.variables| + |Matching(v.name, UKSpellings)| + 1
      && r.variables[..|acc.variables|] == acc.variables
      && main == v.(doNotAutoComplete := |Matching(v.name, UKSpellings)| > 0,
                    marker := if v.name in fnames.instanceVar then InstVar else Constant)
      && main.name == v.name && NoWhitespace(main.link)
      && (main.marker == InstVar <==> v.name in fnames.instanceVar)
      && (main.marker == Constant <==> v.name !in fnames.instanceVar)
      && (main.doNotAutoComplete <==> |Matching(v.name, UKSpellings)| > 0)
      && (forall k :: |acc.variables| <= k < |r.variables| - 1 ==> r.variables[k].marker == Constant)
      && r.functions == acc.functions && r.notParsed == acc.notParsed
  {
    var v := MakeVariable(f);
    MakeVariableClears(f);
    VariableClonesMatch(v, UKSpellings);
    var r := VariableCommit(acc, valid, fnames, f);
    var clones := VariableClones(v, UKSpellings).0;
    assert r.variables == acc.variables + clones + [r.variables[|r.variables| - 1]];
    forall k | |acc.variables| <= k < |r.variables| - 1
      ensures r.variables[k].marker == Constant
    {
      assert r.variables[k] == clones[k - |acc.variables|];
    }
  }

  /**
   * With the InstanceVar list parsed from an index file, whose entries keep their `@`,
   * a variable whose name has no `@` always stays `#`.
   */
  lemma NoAtStaysConstant(acc: Collected, valid: DocVariable -> bool, lines: seq<string>, f: DocFunction)
    requires valid(MakeVariable(f)) && !Includes(MakeVariable(f).name, InstVar)
    ensures var r := VariableCommit(acc, valid, FnamesOf(lines), f);
      r.variables[|r.variables| - 1].marker == Constant
  {
    ParsedListsHoldMarkers(lines);
    VariableCommitted(acc, valid, FnamesOf(lines), f);
  }

  /** A variable draft the validator rejects adds no variable; its name lands in one failure list. */
  lemma RejectedVariableNotCommitted(acc: Collected, valid: DocVariable -> bool, fnames: FnamesParse, f: DocFunction)
    requires !valid(MakeVariable(f))
    ensures var r := VariableCommit(acc, valid, fnames, f);
      && r.variables == acc.variables && r.functions == acc.functions
      && (MakeVariable(f).name in r.parsedIncorrectly || MakeVariable(f).name in r.notParsed)
      && r.parsedIncorrectly == acc.parsedIncorrectly
      && (MakeVariable(f).name in acc.parsedIncorrectly ==> r == acc)
      && (MakeVariable(f).name !in acc.parsedIncorrectly ==> r.notParsed == acc.notParsed + [MakeVariable(f).name])
  {
  }
}
