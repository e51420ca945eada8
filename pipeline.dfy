/**
 * `createManual`: parse the legacy index file (no file, no manual), then walk the help
 * archive's entries, extracting and committing every scripting page the entry filter
 * admits. The archive is given as its list of entries, each with the page the HTML
 * parser made of it; the two schema validators are given as predicates.
 */
module Pipeline {
  import opened Wrappers
  import opened JsText
  import opened Markup
  import opened GmlDocs
  import opened Fnames
  import opened PageExtract
  import opened Importer

  /** One entry of the help archive: its path, its file name, whether it is a directory, and its parsed page. */
  datatype ZipEntry = ZipEntry(entryName: string, name: string, isDirectory: bool, page: Page)

  const NormalScriptingDocs: string := "source/_build/3_scripting/4_gml_reference"
  const SecondaryDocs: string := "source/_build/3_scripting/3_gml_overview"

  /** What a run gives back: null (no index file), an uncaught TypeError, or the manual. */
  datatype RunOutcome = NoDocFile | Crashed | Produced(doc: DocFile)

  // ---------------------------------------------------------------------------
  // The entry filter

  predicate IsAsciiLetter(c: char)
  {
    'a' <= c <= 'z' || 'A' <= c <= 'Z'
  }

  /** `[a-z_]` under the `i` flag. */
  predicate IsNameHeadChar(c: char)
  {
    IsAsciiLetter(c) || c == '_'
  }

  /** `[a-z0-9_().]` under the `i` flag. */
  predicate IsNameTailChar(c: char)
  {
    IsAsciiLetter(c) || '0' <= c <= '9' || c == '_' || c == '(' || c == ')' || c == '.'
  }

  /** `/^[a-z_]+[a-z0-9_().]*$/i.test(name)`, as one character test per position. */
  predicate MatchesNamePattern(name: string)
  {
    |name| >= 1 && IsNameHeadChar(name[0]) && forall k :: 1 <= k < |name| ==> IsNameTailChar(name[k])
  }

  /** `name[..j]` matches `[a-z_]+` and `name[j..]` matches `[a-z0-9_().]*`. */
  predicate SplitsAt(name: string, j: int)
  {
    && 1 <= j <= |name|
    && (forall k :: 0 <= k < j ==> IsNameHeadChar(name[k]))
    && (forall k :: j <= k < |name| ==> IsNameTailChar(name[k]))
  }

  /** The regular expression read literally: a non-empty run of head characters, then a run of tail characters. */
  ghost predicate RegexShape(name: string)
  {
    exists j :: SplitsAt(name, j)
  }

  /** The entry lies under one of the two scripting folders of the manual. */
  predicate IsScriptingEntry(e: ZipEntry)
  {
    Includes(e.entryName, NormalScriptingDocs) || Includes(e.entryName, SecondaryDocs)
  }

  /** The entries the page loop parses; the others are skipped. */
  predicate Admitted(e: ZipEntry)
  {
    && IsScriptingEntry(e)
    && !e.isDirectory
    && e.name != "index.html"
    && MatchesNamePattern(e.name)
    && !Includes(e.name, " ")
    && !Includes(e.name, ".png")
    && !Includes(e.name, ".gif")
  }

  // ---------------------------------------------------------------------------
  // The run

  /** The page loop over a prefix of the archive; None once a page has crashed. */
  function RunPages(acc: Collected, fnames: FnamesParse, validFunction: DocFunction -> bool,
                    validVariable: DocVariable -> bool, entries: seq<ZipEntry>): Option<Collected>
    decreases |entries|
  {
    if entries == [] then Some(acc)
    else
      match RunPages(acc, fnames, validFunction, validVariable, entries[..|entries| - 1])
      case None => None
      case Some(a) =>
        var e := entries[|entries| - 1];
        if Admitted(e) then PageStep(a, fnames, validFunction, validVariable, e.entryName, e.page) else Some(a)
  }

  /** A whole run. */
  function Run(entries: seq<ZipEntry>, fnamesFile: Option<string>, validFunction: DocFunction -> bool,
               validVariable: DocVariable -> bool): RunOutcome
  {
    match fnamesFile
    case None => NoDocFile
    case Some(text) =>
      var fnames := FnamesOf(FileLines(text));
      match RunPages(NothingCollected, fnames, validFunction, validVariable, entries)
      case None => Crashed
      case Some(a) => Produced(DocFile(a.functions, a.variables, fnames))
  }

  /** createManual, from the index file's contents (None when it cannot be read) and the archive's entries. */
  method CreateManual(entries: seq<ZipEntry>, fnamesFile: Option<string>, validFunction: DocFunction -> bool,
                      validVariable: DocVariable -> bool) returns (r: RunOutcome)
    ensures r == Run(entries, fnamesFile, validFunction, validVariable)
  {
    var fnamesParse := ParseFnames(fnamesFile);
    if fnamesParse.None? {
      return NoDocFile;
    }
    var fnames := fnamesParse.value;
    var builder := new ManualBuilder(fnames, validFunction, validVariable);
    for i := 0 to |entries|
      invariant RunPages(NothingCollected, fnames, validFunction, validVariable, entries[..i]) == Some(builder.State())
    {
      assert entries[..i + 1][..i] == entries[..i];
      var thisZipEntry := entries[i];
      if Admitted(thisZipEntry) {
        var crashed := builder.ProcessPage(thisZipEntry.entryName, thisZipEntry.page);
        if crashed {
          CrashEndsRun(NothingCollected, fnames, validFunction, validVariable, entries, i + 1);
          return Crashed;
        }
      }
    }
    assert entries[..|entries|] == entries;
    return Produced(DocFile(builder.functions, builder.variables, fnames));
  }

  // ---------------------------------------------------------------------------
  // Lemmas

  /** The per-position test and the literal reading of the regular expression accept the same names. */
  lemma NamePatternIsRegex(name: string)
    ensures MatchesNamePattern(name) <==> RegexShape(name)
  {
    if MatchesNamePattern(name) {
      assert SplitsAt(name, 1);
    }
    if RegexShape(name) {
      var j :| SplitsAt(name, j);
      forall k | 1 <= k < |name|
        ensures IsNameTailChar(name[k])
      {
        if k < j {
          assert IsNameHeadChar(name[k]);
        }
      }
    }
  }

  /**
   * A name the pattern accepts holds no space, so the later space test never skips an
   * entry; the `.png`, `.gif` and `index.html` tests do, since the pattern accepts those names.
   */
  lemma PatternExcludesSpaces(name: string)
    requires MatchesNamePattern(name)
    ensures !Includes(name, " ")
    ensures MatchesNamePattern("index.html") && MatchesNamePattern("draw.png") && MatchesNamePattern("draw.gif")
  {
    forall i | 0 <= i <= |name| - 1
      ensures !OccursAt(name, " ", i)
    {
      OccursAtChar(name, ' ', i);
    }
  }

  /** After a page crashes the run stays crashed, whatever follows. */
  lemma {:induction false} CrashEndsRun(acc: Collected, fnames: FnamesParse, validFunction: DocFunction -> bool,
                                        validVariable: DocVariable -> bool, entries: seq<ZipEntry>, n: nat)
    requires n <= |entries| && RunPages(acc, fnames, validFunction, validVariable, entries[..n]).None?
    ensures RunPages(acc, fnames, validFunction, validVariable, entries).None?
    decreases |entries| - n
  {
    if n < |entries| {
      assert entries[..n + 1][..n] == entries[..n];
      CrashEndsRun(acc, fnames, validFunction, validVariable, entries, n + 1);
    } else {
      assert entries[..n] == entries;
    }
  }

  /** Every link in the collected manual is free of whitespace. */
  predicate LinksEncoded(acc: Collected)
  {
    && (forall k :: 0 <= k < |acc.functions| ==> NoWhitespace(acc.functions[k].link))
    && (forall k :: 0 <= k < |acc.variables| ==> NoWhitespace(acc.variables[k].link))
  }

  /** Replacing a word by one without whitespace keeps a whitespace-free text free of whitespace. */
  lemma {:induction false} ReplaceKeepsNoWhitespace(s: string, pattern: string, replacement: string)
    requires NoWhitespace(s) && NoWhitespace(replacement)
    ensures NoWhitespace(ReplaceFirst(s, pattern, replacement))
  {
    var i := IndexOf(s, pattern);
    if i != -1 {
      var front, back := s[..i], s[i + |pattern|..];
      assert ReplaceFirst(s, pattern, replacement) == front + replacement + back;
      NoWhitespaceSlice(s, 0, i);
      NoWhitespaceSlice(s, i + |pattern|, |s|);
      NoWhitespaceJoin(front, replacement);
      NoWhitespaceJoin(front + replacement, back);
    }
  }

  /** A slice of a whitespace-free text is whitespace-free. */
  lemma {:induction false} NoWhitespaceSlice(s: string, lo: int, hi: int)
    requires NoWhitespace(s) && 0 <= lo <= hi <= |s|
    ensures NoWhitespace(s[lo..hi])
  {
    forall k | 0 <= k < hi - lo ensures !IsWhitespace(s[lo..hi][k]) {
      assert s[lo..hi][k] == s[lo + k];
    }
  }

  /** Joining two whitespace-free texts gives a whitespace-free text. */
  lemma {:induction false} NoWhitespaceJoin(a: string, b: string)
    requires NoWhitespace(a) && NoWhitespace(b)
    ensures NoWhitespace(a + b)
  {
    forall k | 0 <= k < |a + b| ensures !IsWhitespace((a + b)[k]) {
      if k >= |a| {
        assert (a + b)[k] == b[k - |a|];
      }
    }
  }

  /** Each page keeps every link in the manual whitespace-free. */
  lemma {:induction false} PageStepKeepsLinksEncoded(acc: Collected, fnames: FnamesParse, validFunction: DocFunction -> bool,
                                  validVariable: DocVariable -> bool, entryName: string, page: Page)
    requires LinksEncoded(acc)
    requires PageStep(acc, fnames, validFunction, validVariable, entryName, page).Some?
    ensures LinksEncoded(PageStep(acc, fnames, validFunction, validVariable, entryName, page).value)
  {
    var d := ExtractPage(InitialDraft(entryName), page);
    var reported := acc.(parsedIncorrectly := acc.parsedIncorrectly + d.suspects);
    if d.kind == Some(Function) {
      FunctionCommitKeepsLinksEncoded(reported, validFunction, d.fn, page.h2);
    } else if d.kind == Some(Variable) {
      VariableCommitKeepsLinksEncoded(reported, validVariable, fnames, d.fn);
    }
  }

  lemma {:induction false} FunctionCommitKeepsLinksEncoded(acc: Collected, valid: DocFunction -> bool, f: DocFunction, h2: seq<Node>)
    requires LinksEncoded(acc) && FunctionCommit(acc, valid, f, h2).Some?
    ensures LinksEncoded(FunctionCommit(acc, valid, f, h2).value)
  {
    if valid(f) {
      var g := HardCodedName(CleanFunction(f), h2).value;
      CleanFunctionClears(f);
      assert g.link == CleanFunction(f).link;
      if !NameTaken(acc.functions, g.name) {
        FunctionClonesKeepLink(g, UKSpellings);
        var clones := FunctionClones(g, UKSpellings);
        var fs := acc.functions + clones + [g];
        assert FunctionCommit(acc, valid, f, h2).value.functions == fs;
        forall k | 0 <= k < |fs|
          ensures NoWhitespace(fs[k].link)
        {
          if k < |acc.functions| {
            assert fs[k] == acc.functions[k];
          } else if k < |fs| - 1 {
            assert fs[k] == clones[k - |acc.functions|];
          }
        }
      }
    }
  }

  lemma {:induction false} VariableCommitKeepsLinksEncoded(acc: Collected, valid: DocVariable -> bool, fnames: FnamesParse, f: DocFunction)
    requires LinksEncoded(acc)
    ensures LinksEncoded(VariableCommit(acc, valid, fnames, f))
  {
    var v := MakeVariable(f);
    if valid(v) {
      MakeVariableClears(f);
      AmericanWordsEncoded();
      VariableClonesEncoded(v, UKSpellings);
      var (clones, flag) := VariableClones(v, UKSpellings);
      var main := v.(doNotAutoComplete := flag, marker := if v.name in fnames.instanceVar then InstVar else v.marker);
      var vs := acc.variables + clones + [main];
      assert VariableCommit(acc, valid, fnames, f).variables == vs;
      forall k | 0 <= k < |vs|
        ensures NoWhitespace(vs[k].link)
      {
        if k < |acc.variables| {
          assert vs[k] == acc.variables[k];
        } else if k < |vs| - 1 {
          assert vs[k] == clones[k - |acc.variables|];
        }
      }
    }
  }

  /** The American words of the spelling table hold no whitespace. */
  lemma AmericanWordsEncoded()
    ensures forall k :: 0 <= k < |UKSpellings| ==> NoWhitespace(UKSpellings[k].1)
  {
  }

  /** A variable's copies keep its link free of whitespace: the American words hold none. */
  lemma {:induction false} VariableClonesEncoded(v: DocVariable, sp: seq<(string, string)>)
    requires NoWhitespace(v.link)
    requires forall k :: 0 <= k < |sp| ==> NoWhitespace(sp[k].1)
    ensures forall k :: 0 <= k < |VariableClones(v, sp).0| ==> NoWhitespace(VariableClones(v, sp).0[k].link)
    decreases |sp|
  {
    if sp != [] {
      VariableClonesEncoded(v, sp[..|sp| - 1]);
      var (uk, us) := sp[|sp| - 1];
      ReplaceKeepsNoWhitespace(v.link, uk, us);
    }
  }

  /** Throughout the run, every link the manual holds is free of whitespace. */
  lemma {:induction false} RunKeepsLinksEncoded(fnames: FnamesParse, validFunction: DocFunction -> bool,
                                                validVariable: DocVariable -> bool, entries: seq<ZipEntry>)
    requires RunPages(NothingCollected, fnames, validFunction, validVariable, entries).Some?
    ensures LinksEncoded(RunPages(NothingCollected, fnames, validFunction, validVariable, entries).value)
    decreases |entries|
  {
    if entries != [] {
      var front := entries[..|entries| - 1];
      RunKeepsLinksEncoded(fnames, validFunction, validVariable, front);
      var a := RunPages(NothingCollected, fnames, validFunction, validVariable, front).value;
      var e := entries[|entries| - 1];
      if Admitted(e) {
        PageStepKeepsLinksEncoded(a, fnames, validFunction, validVariable, e.entryName, e.page);
      }
    }
  }

  /** A produced manual carries the lists parsed from the index file and has whitespace-free links only. */
  lemma ProducedManual(entries: seq<ZipEntry>, fnamesFile: Option<string>, validFunction: DocFunction -> bool,
                       validVariable: DocVariable -> bool)
    requires Run(entries, fnamesFile, validFunction, validVariable).Produced?
    ensures var doc := Run(entries, fnamesFile, validFunction, validVariable).doc;
      && fnamesFile.Some? && doc.fnames == FnamesOf(FileLines(fnamesFile.value))
      && (forall k :: 0 <= k < |doc.functions| ==> NoWhitespace(doc.functions[k].link))
      && (forall k :: 0 <= k < |doc.variables| ==> NoWhitespace(doc.variables[k].link))
  {
    var fnames := FnamesOf(FileLines(fnamesFile.value));
    RunKeepsLinksEncoded(fnames, validFunction, validVariable, entries);
  }
}
