/**
 * The legacy index parser (parseFnames): the marker-suffixed index file is split into
 * lines and every kept line is filed under each marker it contains.
 *
 * stripRegexOut returns the whole match of `^(.+?)[#|*|@|&|$|£|!]*$`, not its first
 * group, so every stored entry is the trimmed line with its marker characters kept.
 */
module Fnames {
  import opened Wrappers
  import opened JsText
  import opened GmlDocs

  /** The characters of the class `[#|*|@|&|$|£|!]`. */
  predicate IsMarkerClassChar(c: char)
  {
    c == '#' || c == '|' || c == '*' || c == '@' || c == '&' || c == '$' || c == '\U{A3}' || c == '!'
  }

  /** `^(.+?)[#|*|@|&|$|£|!]*$` matches `line` with its group ending at `k`. */
  predicate MatchesWithGroupEnd(line: string, k: int)
  {
    && 1 <= k <= |line|
    && (forall i :: 0 <= i < k ==> !IsLineTerminator(line[i]))
    && (forall i :: k <= i < |line| ==> IsMarkerClassChar(line[i]))
  }

  /** The lazy group `(.+?)`: the shortest group end, from `from` on, for which the whole expression matches. */
  function LazyGroupEnd(line: string, from: nat): (k: Option<nat>)
    requires from >= 1
    ensures k.Some? ==> from <= k.value && MatchesWithGroupEnd(line, k.value)
    ensures k.Some? ==> forall j :: from <= j < k.value ==> !MatchesWithGroupEnd(line, j)
    ensures k.None? ==> forall j :: from <= j <= |line| ==> !MatchesWithGroupEnd(line, j)
    decreases |line| - from
  {
    if from > |line| then None
    else if MatchesWithGroupEnd(line, from) then Some(from)
    else LazyGroupEnd(line, from + 1)
  }

  /** The whole match of the expression as the regular-expression engine finds it: group first, then the trailing markers. */
  function RegexWholeMatch(str: string): Option<string>
  {
    match LazyGroupEnd(str, 1)
    case None => None
    case Some(k) => Some(str[..k] + str[k..])
  }

  /** No character of `s` is one that `.` refuses. */
  predicate HasNoLineTerminator(s: string)
  {
    forall i :: 0 <= i < |s| ==> !IsLineTerminator(s[i])
  }

  /**
   * stripRegexOut: `regRet[0]`, the whole match (group and trailing markers), or None when
   * the expression does not match. StripRegexOutIsWholeMatch shows that the expression
   * matches exactly the non-empty strings without a line terminator, and that the whole
   * match is then the string itself.
   */
  function StripRegexOut(str: string): Option<string>
  {
    if str != "" && HasNoLineTerminator(str) then Some(str) else None
  }

  /** What one line of the file contributes: its trimmed text, unless that is a `//` comment or stripRegexOut rejects it. */
  function LineEntry(line: string): Option<string>
  {
    var thisLine := Trim(line);
    if StartsWith(thisLine, "//") then None else StripRegexOut(thisLine)
  }

  /** The entry of every line of the file, in order. */
  function Entries(lines: seq<string>): (es: seq<Option<string>>)
    ensures |es| == |lines|
  {
    if lines == [] then [] else [LineEntry(lines[0])] + Entries(lines[1..])
  }

  /** What one entry adds to the list of `marker`. */
  function Filing(e: Option<string>, marker: string): seq<string>
  {
    if e.Some? && Includes(e.value, marker) then [e.value] else []
  }

  /** The entries, in file order, that contain `marker`. */
  function Filed(es: seq<Option<string>>, marker: string): seq<string>
  {
    if es == [] then [] else Filed(es[..|es| - 1], marker) + Filing(es[|es| - 1], marker)
  }

  /** One more entry adds its filing to the end of the list. */
  lemma FiledNext(es: seq<Option<string>>, i: int, marker: string)
    requires 0 <= i < |es|
    ensures Filed(es[..i + 1], marker) == Filed(es[..i], marker) + Filing(es[i], marker)
  {
    assert es[..i + 1][..i] == es[..i];
  }

  /** The four lists parseFnames builds from the lines of the file. */
  function FnamesOf(lines: seq<string>): FnamesParse
  {
    var es := Entries(lines);
    FnamesParse(Filed(es, InstVar), Filed(es, Constant), Filed(es, Obsolete), Filed(es, Readonly))
  }

  /** The lines parseFnames reads from the file's text. */
  function FileLines(text: string): seq<string>
  {
    SplitLines(NormalizeEoLSequences(text))
  }

  /**
   * parseFnames: None when the file cannot be read; otherwise, line by line, each kept
   * line is pushed onto every list whose marker it contains.
   */
  method ParseFnames(file: Option<string>) returns (r: Option<FnamesParse>)
    ensures file.None? ==> r.None?
    ensures file.Some? ==> r == Some(FnamesOf(FileLines(file.value)))
  {
    if file.None? {
      return None;
    }
    var fnamesFile := NormalizeEoLSequences(file.value);
    var ourLines := SplitLines(fnamesFile);
    ghost var es := Entries(ourLines);
    var constants, instanceVar, obsolete, readOnly := [], [], [], [];
    for i := 0 to |ourLines|
      invariant constants == Filed(es[..i], Constant)
      invariant instanceVar == Filed(es[..i], InstVar)
      invariant obsolete == Filed(es[..i], Obsolete)
      invariant readOnly == Filed(es[..i], Readonly)
    {
      EntryAt(ourLines, i);
      FiledNext(es, i, Constant);
      FiledNext(es, i, InstVar);
      FiledNext(es, i, Obsolete);
      FiledNext(es, i, Readonly);
      var baseWord := ReadLine(ourLines[i]);
      if baseWord.Some? {
        if Includes(baseWord.value, Constant) {
          constants := constants + [baseWord.value];
        }
        if Includes(baseWord.value, InstVar) {
          instanceVar := instanceVar + [baseWord.value];
        }
        if Includes(baseWord.value, Obsolete) {
          obsolete := obsolete + [baseWord.value];
        }
        if Includes(baseWord.value, Readonly) {
          readOnly := readOnly + [baseWord.value];
        }
      }
    }
    assert es[..|ourLines|] == es;
    assert FnamesOf(ourLines) == FnamesParse(instanceVar, constants, obsolete, readOnly);
    return Some(FnamesParse(instanceVar, constants, obsolete, readOnly));
  }

  /** The reading of one line: trimmed, skipped when it is a `//` comment, then passed through stripRegexOut. */
  method ReadLine(line: string) returns (baseWord: Option<string>)
    ensures baseWord == LineEntry(line)
    ensures baseWord.Some? ==> baseWord.value == Trim(line) && !StartsWith(baseWord.value, "//")
  {
    var thisLine := Trim(line);
    if StartsWith(thisLine, "//") {
      return None;
    }
    baseWord := StripRegexOut(thisLine);
  }

  // ---------------------------------------------------------------------------
  // Lemmas

  /**
   * stripRegexOut agrees with the regular expression on every string: it matches the
   * non-empty strings without a line terminator, and the whole match keeps the trailing
   * marker characters.
   */
  lemma StripRegexOutIsWholeMatch(str: string)
    ensures StripRegexOut(str) == RegexWholeMatch(str)
    ensures RegexWholeMatch(str).Some? <==> str != "" && HasNoLineTerminator(str)
    ensures RegexWholeMatch(str).Some? ==> RegexWholeMatch(str).value == str
  {
    match LazyGroupEnd(str, 1)
    case None =>
      if str != "" && HasNoLineTerminator(str) {
        assert MatchesWithGroupEnd(str, |str|);
      }
    case Some(k) =>
      assert str[..k] + str[k..] == str;
      assert MatchesWithGroupEnd(str, k);
      forall i | 0 <= i < |str|
        ensures !IsLineTerminator(str[i])
      {
        if i >= k {
          assert IsMarkerClassChar(str[i]);
        }
      }
  }

  /** The entry of line `i` is the `i`-th of the file's entries. */
  lemma {:induction false} EntryAt(lines: seq<string>, i: nat)
    requires i < |lines|
    ensures Entries(lines)[i] == LineEntry(lines[i])
  {
    if i > 0 {
      EntryAt(lines[1..], i - 1);
      assert lines[1..][i - 1] == lines[i];
    }
  }

  /** The lists keep file order: the entries of a file cut in two give the two halves' lists, one after the other. */
  lemma {:induction false} FiledConcat(a: seq<Option<string>>, b: seq<Option<string>>, marker: string)
    ensures Filed(a + b, marker) == Filed(a, marker) + Filed(b, marker)
  {
    if b == [] {
      assert a + b == a;
    } else {
      var b' := b[..|b| - 1];
      FiledConcat(a, b', marker);
      assert (a + b)[..|a + b| - 1] == a + b';
      assert (a + b)[|a + b| - 1] == b[|b| - 1];
    }
  }

  /**
   * A string is in a list exactly when some entry is that string and contains the list's
   * marker; an entry holding several markers is therefore filed under each of them.
   */
  lemma {:induction false} FiledMembers(es: seq<Option<string>>, marker: string, x: string)
    ensures x in Filed(es, marker) <==> exists i :: 0 <= i < |es| && es[i] == Some(x) && Includes(x, marker)
  {
    if es != [] {
      var front := es[..|es| - 1];
      FiledMembers(front, marker, x);
      if exists i :: 0 <= i < |es| && es[i] == Some(x) && Includes(x, marker) {
        var i :| 0 <= i < |es| && es[i] == Some(x) && Includes(x, marker);
        if i < |es| - 1 {
          assert front[i] == es[i];
        }
      }
      if x in Filed(front, marker) {
        var i :| 0 <= i < |front| && front[i] == Some(x) && Includes(x, marker);
        assert es[i] == front[i];
      }
    }
  }

  /** The InstanceVar list holds exactly the entries of the lines that contain `@`. */
  lemma InstanceVarMembers(lines: seq<string>, x: string)
    ensures x in FnamesOf(lines).instanceVar <==>
      exists i :: 0 <= i < |lines| && LineEntry(lines[i]) == Some(x) && Includes(x, InstVar)
  {
    var es := Entries(lines);
    FiledMembers(es, InstVar, x);
    if exists i :: 0 <= i < |lines| && LineEntry(lines[i]) == Some(x) && Includes(x, InstVar) {
      var i :| 0 <= i < |lines| && LineEntry(lines[i]) == Some(x) && Includes(x, InstVar);
      EntryAt(lines, i);
    }
    if x in FnamesOf(lines).instanceVar {
      var i :| 0 <= i < |es| && es[i] == Some(x) && Includes(x, InstVar);
      EntryAt(lines, i);
    }
  }

  /**
   * Because the whole match is stored, every entry of a list still contains that list's
   * marker: each InstanceVar entry contains `@`.
   */
  lemma {:induction false} FiledEntriesHoldMarker(es: seq<Option<string>>, marker: string)
    ensures forall x :: x in Filed(es, marker) ==> Includes(x, marker)
  {
    if es != [] {
      FiledEntriesHoldMarker(es[..|es| - 1], marker);
    }
  }

  /** Each list of a parsed file contains only strings that hold its marker. */
  lemma ParsedListsHoldMarkers(lines: seq<string>)
    ensures var p := FnamesOf(lines);
      && (forall x :: x in p.instanceVar ==> Includes(x, InstVar))
      && (forall x :: x in p.constants ==> Includes(x, Constant))
      && (forall x :: x in p.obsolete ==> Includes(x, Obsolete))
      && (forall x :: x in p.readOnly ==> Includes(x, Readonly))
  {
    var es := Entries(lines);
    FiledEntriesHoldMarker(es, InstVar);
    FiledEntriesHoldMarker(es, Constant);
    FiledEntriesHoldMarker(es, Obsolete);
    FiledEntriesHoldMarker(es, Readonly);
  }
}
