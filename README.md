# gms2-docs-parser: the documentation importer, modelled in Dafny

`DocumentationImporter.createManual` reads the GameMaker Studio 2 help archive and
produces the manual as data. It keeps the archive entries that lie under the two
scripting folders and pass the file-name filter. For each such entry:

- It looks at the page's `h3` headings. The "Syntax" line gives the signature. It also
  decides whether the page documents a function (the signature contains `(`) or a
  variable, and it fixes the name and the arity range.
- "Returns", "Description" and "Example" fill the other fields. The description is
  flattened into markdown-like text, and parameter tables supply the parameters.
- A function record is checked by the function-schema validator, cleaned of line
  terminators, and renamed for five hard-coded pages. It is dropped when its name was
  already committed, and otherwise committed after one American-spelling copy per
  British word it contains.
- A variable record is built, validated and given American copies. When at least one copy
  is made, its original is marked `doNotAutoComplete`. Its marker becomes `@` when the
  legacy `fnames` index lists it as an instance variable.
- Rejected records go to two failure lists.

The `fnames` index is parsed line by line into four marker lists. Without it, no manual
is made.

The model is organised by the program's own structure:

| file | module | what it holds |
|---|---|---|
| wrappers.dfy | Wrappers | Option and Result |
| js_text.dfy | JsText | `trim`, `includes`, `indexOf`, `replace`, `split`, and the three global regular-expression replacements (`clearLineTerminators`, `normalizeEoLSequences`, the link's `%20` encoding) |
| markup.dfy | Markup | the parsed page (text nodes and elements), `firstChild`/`childNodes`/`next` navigation, `loopTilData` |
| gml_docs.dfy | GmlDocs | the records of `declarations.ts` and the marker characters |
| fnames.dfy | Fnames | `stripRegexOut` and `parseFnames` |
| signature.dfy | Signature | the "Syntax" section: signature, classification, arity |
| sections.dfy | Sections | the Example text gatherer, description flattening, the "Returns:" paragraph fallback |
| param_table.dfy | ParamTable | the parameter-table row machine |
| page_extract.dfy | PageExtract | one page from a fresh record to the end of its tables, with the two levels of try/catch |
| importer.dfy | Importer | the commit step, and `ManualBuilder`, the class holding the manual and the failure lists |
| pipeline.dfy | Pipeline | the entry filter and `createManual` |

Each loop of the source is a Dafny method with loop invariants. Its `ensures` ties the
result to a recursive specification function. The lemmas state what the source promises
about those functions. Exceptions (a property read on a missing node) are modelled as a
`Flow` result: `Completed` or `Threw`, each carrying the state reached. A try/catch
becomes a match on that result.

The model follows the code as written, including where it departs from what its names and comments suggest:

- `stripRegexOut` returns the whole match (`regRet[0]`), not the captured base name. The
  lists of `fnames` therefore hold whole trimmed lines, marker characters included.
  `Fnames.ParsedListsHoldMarkers` proves this. As a result, the instance-variable
  reclassification can only fire for a variable whose name itself contains `@`
  (`Importer.NoAtStaysConstant`).
- Function names are not unique. A US copy is appended without any duplicate check, and
  it can coincide with a name committed earlier. Only the original is checked, and it is
  checked against everything committed so far, copies included.
- A function's US copy keeps the original's link. Only variable copies rewrite the link.
- `0 <= minParameters <= maxParameters` is not guaranteed. The italics quirk can set
  `minParameters` to any child position. `Signature.MinWithinMax` proves that the bound
  can fail only when `minParameters` is the value the italics quirk gave it.
- A hard-coded name on a page without an `h2` is not skipped: `loopTilData(undefined)`
  throws outside every try/catch, and the whole run fails.

## Model

| member | source | states |
|---|---|---|
| JsText.TrimStartRemovesLeading | src/documentationImporter.ts:156 | the start of `trim` removes exactly the leading whitespace and leaves a suffix that does not start with whitespace |
| JsText.TrimEndRemovesTrailing | src/documentationImporter.ts:156 | the end of `trim` removes exactly the trailing whitespace and leaves a prefix that does not end with whitespace |
| JsText.TrimIsCore | src/documentationImporter.ts:156 | `trim` returns a contiguous slice with only whitespace outside it and no whitespace at its ends |
| JsText.TrimFixpoint | src/documentationImporter.ts:156 | a string without whitespace at its ends is its own trim; trim is idempotent |
| JsText.IndexOf | src/documentationImporter.ts:173-176 | `indexOf` is -1 exactly when the substring does not occur, otherwise its first occurrence |
| JsText.ReplaceFirst | src/documentationImporter.ts:462-465 | `replace` with a string pattern keeps the text before the first occurrence, puts the replacement there, keeps the text after the occurrence and fixes the length; without an occurrence the text is unchanged |
| JsText.ReplaceAtFirst | src/documentationImporter.ts:462-473 | when the pattern first occurs at `i`, the result is the text before `i`, the replacement, and the text after the occurrence |
| JsText.ClearRemovesLineBreaks | src/documentationImporter.ts:590-592 | clearLineTerminators leaves no `\r` or `\n` and never lengthens the text |
| JsText.ClearIsNormalizeThenSpaces | src/documentationImporter.ts:590-592 | each `\r\n`, lone `\r` and lone `\n` becomes exactly one space, every other character is kept in order |
| JsText.ClearKeepsPlainText | src/documentationImporter.ts:590-592 | text without line breaks is unchanged |
| JsText.ClearIdempotent | src/documentationImporter.ts:590-592 | clearLineTerminators is idempotent |
| JsText.ClearConcat | src/documentationImporter.ts:590-592 | it works piecewise on any cut that does not split a `\r\n` |
| JsText.NormalizeEoLSequences | src/documentationImporter.ts:644-649 | normalizeEoLSequences leaves no `\r`, maps the empty text to `''` and never lengthens |
| JsText.NormalizeKeepsCrFreeText | src/documentationImporter.ts:644-649 | text without `\r` is unchanged |
| JsText.EncodeRemovesWhitespace | src/documentationImporter.ts:429 | the link's `/[\s]/g` → `%20` replacement leaves no whitespace and never shortens |
| JsText.EncodeKeepsPlainText | src/documentationImporter.ts:429 | a whitespace-free link is unchanged, so the encoding is idempotent |
| JsText.EncodeConcat | src/documentationImporter.ts:506 | the encoding works character by character, in order |
| JsText.SplitLines | src/documentationImporter.ts:602 | `split('\n')` gives at least one line |
| JsText.SplitLinesHaveNoNewline | src/documentationImporter.ts:602 | no line of `split('\n')` holds `\n` |
| JsText.JoinSplit | src/documentationImporter.ts:602 | joining the split lines with `\n` gives the text back |
| JsText.SplitJoin | src/documentationImporter.ts:602 | splitting the join of `\n`-free lines gives the lines back |
| Markup.FirstText | src/documentationImporter.ts:577-588 | what loopTilData finds is a text node |
| Markup.LoopTilData | src/documentationImporter.ts:577-588 | the while loop returns FirstText of its start node |
| Markup.FirstTextIsReached | src/documentationImporter.ts:577-588 | a found node is reached from the start by firstChild links through elements only; a text start node is returned itself |
| Markup.FirstTextNoneIff | src/documentationImporter.ts:577-588 | null is returned exactly when the chain of first children reaches an element with no children |
| Fnames.LazyGroupEnd | src/documentationImporter.ts:652 | the lazy group `(.+?)` ends at the smallest position from which the marker run reaches the end of the line |
| Fnames.StripRegexOutIsWholeMatch | src/documentationImporter.ts:651-657 | stripRegexOut equals the regex's whole match, which exists exactly for a non-empty line without line terminators and is the line itself |
| Fnames.Entries | src/documentationImporter.ts:612-621 | one entry per line of the file |
| Fnames.ReadLine | src/documentationImporter.ts:612-621 | one line yields its trimmed text unless it is a `//` comment or stripRegexOut rejects it, i.e. LineEntry |
| Fnames.ParseFnames | src/documentationImporter.ts:594-641 | an unreadable file gives null; otherwise the loop's four lists are those of FnamesOf over the normalised, split lines |
| Fnames.FiledMembers | src/documentationImporter.ts:620-637 | a string is in a marker's list exactly when some entry equals it and contains the marker |
| Fnames.InstanceVarMembers | src/documentationImporter.ts:612-629 | InstanceVar holds exactly the stripped, non-comment lines that contain `@` |
| Fnames.ParsedListsHoldMarkers | src/documentationImporter.ts:620-637 | every entry of each list contains that list's marker |
| Signature.AppendPiece | src/documentationImporter.ts:153-157 | one child appends exactly the trim of its first text to the signature, so an empty text adds nothing |
| Signature.SignaturePieceIsTrimmedText | src/documentationImporter.ts:153-157 | a child's signature piece is its first text with exactly the surrounding whitespace removed, and empty for an empty text |
| Signature.BuildSignature | src/documentationImporter.ts:152-166 | the child loop builds SignatureText and the italics value of minParameters |
| Signature.ScanArity | src/documentationImporter.ts:178-188 | the character loop computes Scan of the signature |
| Signature.ParseSyntax | src/documentationImporter.ts:148-221 | the Syntax branch computes ApplySyntax: signature, kind, name and arity |
| Signature.ItalicMinIsFirstLaterItalic | src/documentationImporter.ts:159-165 | a set minParameters is kept; from 0 it becomes the position of the first italic child after position 0, or stays 0 |
| Signature.ScanCountsCommas | src/documentationImporter.ts:181-184 | the scan counts every comma |
| Signature.ScanSeesBracket | src/documentationImporter.ts:185-187 | openBracket is undefined exactly when the signature has no `[` |
| Signature.ScanUncountedBracket | src/documentationImporter.ts:185-187 | when every `[` precedes all commas, openBracket stays 0 |
| Signature.ScanFirstCountedBracket | src/documentationImporter.ts:185-187 | at the first `[` that follows a comma, openBracket takes the comma count before it and keeps it |
| Signature.FunctionArity | src/documentationImporter.ts:190-202 | maxParameters is commas+1 with commas, and without commas 0 exactly when `()` appears, else 1 |
| Signature.SyntaxClassifies | src/documentationImporter.ts:169-220 | function exactly when the signature contains `(`; a function is named by the text before the first `(`; a variable by the text before the first `;`, or the whole signature |
| Signature.PrefixBeforeFirst | src/documentationImporter.ts:173-176 | the slice before the first occurrence of a character does not contain it |
| Signature.MinWithinMax | src/documentationImporter.ts:204-208 | minParameters ≤ maxParameters unless minParameters came from the italics quirk |
| Signature.BracketWithinCommas | src/documentationImporter.ts:181-187 | openBracket never exceeds the comma count |
| Sections.GatherText | src/documentationImporter.ts:285-291 | the Example loop concatenates the first text of each node |
| Sections.InlineGrandChild | src/documentationImporter.ts:242-265 | one grandchild is rendered as text, `[t](href)`, `**t**`, `*t*` or its first text |
| Sections.FlattenParent | src/documentationImporter.ts:241-266 | the grandchild loop concatenates the rendered grandchildren |
| Sections.FlattenDescription | src/documentationImporter.ts:237-272 | the block-quote loop flattens elements through their children and copies text nodes |
| Sections.FindReturnParagraph | src/documentationImporter.ts:313-327 | the paragraph loop computes ScanParagraphs, including its throw |
| Sections.FirstTextBeginsContent | src/documentationImporter.ts:577-588 | loopTilData's text is a prefix of the tree's whole text |
| Sections.CollectTextOfLeaves | src/documentationImporter.ts:285-291 | for text nodes the gathered text is all their text |
| Sections.FlattenPlainKeepsText | src/documentationImporter.ts:237-272 | a block without markup flattens to exactly its text content |
| Sections.InlineLeaves | src/documentationImporter.ts:241-243 | grandchildren that are all text are copied verbatim |
| Sections.FlattenConcat | src/documentationImporter.ts:237-272 | flattening works block by block, in order |
| Sections.InlineMarkup | src/documentationImporter.ts:244-259 | `b` renders `**t**`, `i` renders `*t*`, `a` renders `[t](href)` |
| Sections.NoReturnsParagraphKeeps | src/documentationImporter.ts:316-326 | without a "Returns:" paragraph the fallback keeps the return value |
| Sections.ParagraphsThrowIff | src/documentationImporter.ts:319-320 | the fallback throws exactly when a "Returns:" paragraph has no second child |
| Sections.ThrowCarriesValueSoFar | src/documentationImporter.ts:316-324 | when a "Returns:" paragraph without a second child throws, the throw carries the return value the earlier paragraphs set |
| Sections.EarlierReturnSurvivesLaterThrow | src/documentationImporter.ts:316-324 | a page whose first "Returns:" paragraph reads `Real` and whose second has no value throws with `Real` as the return value |
| Sections.LastReturnParagraphWins | src/documentationImporter.ts:319-324 | the last paragraph with a non-empty second text sets the return value, trimmed |
| ParamTable.ReadRow | src/documentationImporter.ts:345-397 | the cell loop and the push compute RowStep |
| ParamTable.ReadTbody | src/documentationImporter.ts:340-408 | the row loop and the variadic fix-up compute Tbody |
| ParamTable.ReadTable | src/documentationImporter.ts:338-410 | the loop over a table's children computes Table |
| ParamTable.ReadTables | src/documentationImporter.ts:330-414 | the table loop, each table in its own try/catch, computes Tables |
| ParamTable.RowsOnlyParamsGrow | src/documentationImporter.ts:343-397 | rows only append parameters and touch only the arity fields |
| ParamTable.TableChildrenOnlyParamsGrow | src/documentationImporter.ts:338-410 | the same for a whole table |
| ParamTable.TablesOnlyParamsGrow | src/documentationImporter.ts:330-414 | tables only append parameters, keep the kind, and a throwing table adds exactly the record's name to the suspects |
| ParamTable.CellsWithoutHeaderPair | src/documentationImporter.ts:355-372 | a row that starts without the "Argument" or the "Description" flag and has no header cell with that title ends without the flag and reads no cell |
| ParamTable.MissingHeaderNoParams | src/documentationImporter.ts:355-408 | a tbody without an "Argument" header or without a "Description" header leaves the record unchanged |
| ParamTable.CellsHeaderFlags | src/documentationImporter.ts:353-366 | after a row, each header flag is set exactly when it was set before or the row holds a header cell with that title |
| ParamTable.CellsCounted | src/documentationImporter.ts:353-371 | a row yields a parameter exactly when one of its `td` cells is reached with both flags set |
| ParamTable.RowAppendsParam | src/documentationImporter.ts:345-397 | a row that does not throw appends exactly its one parameter at the end when it is a `tr` with a counted cell, and nothing otherwise; a non-`tr` child changes nothing |
| ParamTable.RowsPushInRowOrder | src/documentationImporter.ts:343-397 | a tbody that completes appends one parameter per `tr` with a counted cell, in row order, after the parameters it started with |
| ParamTable.RowsTrackVariadic | src/documentationImporter.ts:390-397 | a `...` label sets maxParameters to 9999, and infParam is the index of the last such parameter |
| ParamTable.TbodyVariadic | src/documentationImporter.ts:390-408 | after a tbody with a `...` parameter, max is 9999 and min is the index of the last one; otherwise arity is unchanged |
| PageExtract.InitialDraft | src/documentationImporter.ts:116-128 | a fresh record has no parameters, min 0, max 999 and the link base URL + entry name |
| PageExtract.ApplyHeading | src/documentationImporter.ts:138-308 | one heading's body computes HeadingStep: the Syntax, Returns, Description and Example branches by substring |
| PageExtract.ReadExample | src/documentationImporter.ts:279-308 | the Example branch computes ExampleStep |
| PageExtract.ReadHeadings | src/documentationImporter.ts:137-310 | the heading loop computes Headings and stops at the first throw |
| PageExtract.ReadPage | src/documentationImporter.ts:116-417 | one page from the fresh record to the end of its tables computes ExtractPage, including the return value a throwing fallback has already written |
| PageExtract.HeadingsKeep | src/documentationImporter.ts:148-308 | headings never change the link, and without a "Syntax" heading never the kind |
| PageExtract.ExtractKeepsLinkAndKind | src/documentationImporter.ts:128-137 | the link is the base URL + entry name; with fewer than 3 `h3` the page is never classified |
| PageExtract.ExampleCodeSurvivesMissingExplanation | src/documentationImporter.ts:292-306 | when the explanation is missing, the code stays set and the name is reported |
| PageExtract.HeadingStepThrowsIff | src/documentationImporter.ts:148-226 | a heading throws exactly when it names "Syntax" and its second following sibling is missing or text, or names "Returns" and that sibling is missing, text, or an element without children |
| PageExtract.FallbackValueSurvivesThrow | src/documentationImporter.ts:316-324 | when the "Returns:" fallback throws on a later paragraph, the record keeps the return value the earlier paragraphs set and its name is reported |
| PageExtract.ReturnsValue | src/documentationImporter.ts:223-228 | when the Returns branch does not throw, a non-empty text first child becomes the return value untrimmed, and anything else leaves the draft unchanged |
| PageExtract.SuspectsGrow | src/documentationImporter.ts:411-416 | after the guarded part, only the record's own name is added to the suspects |
| Importer.CleanedParamsClear | src/documentationImporter.ts:431-434 | every cleaned parameter is free of line breaks, one per parameter |
| Importer.CleanParams | src/documentationImporter.ts:431-434 | the parameter loop computes CleanedParams |
| Importer.CleanFunctionClears | src/documentationImporter.ts:421-434 | every text field except example.code is free of line breaks, the link is whitespace-free, arity unchanged |
| Importer.HardCodedName | src/documentationImporter.ts:437-443 | a name not in the hard-coded list is unchanged; a hard-coded name becomes the h2's first text; only the name can change; the crash happens exactly for a hard-coded name without h2 |
| Importer.HasFunctionNamed | src/documentationImporter.ts:445-453 | the duplicate scan finds a saved function with the name exactly when there is one |
| Importer.FunctionClone | src/documentationImporter.ts:457-474 | a function copy's name, signature and return are the originals with the first British word replaced by the US one; it keeps link, parameters, documentation, example and arity |
| Importer.ColourCopyName | src/documentationImporter.ts:456-476 | the copy of `draw_set_colour` is named `draw_set_color` |
| Importer.VariableClone | src/documentationImporter.ts:512-526 | a variable copy's name, type and link are the originals with the first British word replaced by the US one; it keeps marker, example, documentation and flag |
| Importer.ReportNotParsed | src/documentationImporter.ts:483-487 | a rejected name that is not a suspect is appended to "Was not Parsed", repeats included; nothing changes when it was already a suspect |
| Importer.MakeVariableClears | src/documentationImporter.ts:493-506 | the variable's texts are free of line breaks except example.code, the link is whitespace-free, the marker is `#` |
| Importer.ManualBuilder.constructor | src/documentationImporter.ts:69-77 | the manual and both failure lists start empty |
| Importer.ManualBuilder.ProcessPage | src/documentationImporter.ts:111-545 | one admitted page computes PageStep on the builder's state, crash included |
| Importer.ManualBuilder.CommitFunction | src/documentationImporter.ts:419-489 | the function branch computes FunctionCommit, crashing exactly when FunctionCommit is None |
| Importer.NormaliseFunction | src/documentationImporter.ts:421-434 | the field clean-up computes CleanFunction |
| Importer.ApplyHardCodedName | src/documentationImporter.ts:436-443 | the hard-coded check computes HardCodedName, None being the crash on a page without h2 |
| Importer.AppendFunctionClones | src/documentationImporter.ts:456-478 | the spelling loop appends exactly FunctionClones |
| Importer.ManualBuilder.CommitVariable | src/documentationImporter.ts:491-545 | the variable branch computes VariableCommit |
| Importer.BuildVariable | src/documentationImporter.ts:493-506 | the variable record built from the draft is MakeVariable |
| Importer.AppendVariableClones | src/documentationImporter.ts:509-531 | the spelling loop appends exactly VariableClones and leaves the flag it computes |
| Importer.FewHeadingsCommitNothing | src/documentationImporter.ts:137 | a page with fewer than three `h3` commits nothing |
| Importer.RejectedFunctionNotCommitted | src/documentationImporter.ts:481-487 | a function the validator rejects is never committed; its name is appended to "Was not Parsed" unless it is a suspect, in which case nothing changes |
| Importer.DuplicateDropped | src/documentationImporter.ts:445-454 | a valid function whose final name is already committed, copies included, changes nothing |
| Importer.FunctionCommitted | src/documentationImporter.ts:456-479 | a new function is appended after one copy per matching British word; each copy keeps link and parameters and carries the US word |
| Importer.FunctionClonesMatch | src/documentationImporter.ts:456-476 | there is exactly one function copy per matching spelling pair, in table order |
| Importer.MatchingMembers | src/documentationImporter.ts:39-45 | the matching pairs are those of the table whose British word the name contains |
| Importer.VariableClonesMatch | src/documentationImporter.ts:510-531 | one variable copy per matching pair, each VariableClone of its pair (name, type and link rewritten); the first keeps the flag, later ones have it set; the flag is set after exactly when one matched |
| Importer.VariableClonesAreCopies | src/documentationImporter.ts:510-531 | copy k is VariableClone of the k-th matching pair, taken from the variable with the flag the loop has set by then |
| Importer.VariableCommitted | src/documentationImporter.ts:508-538 | the original comes last and is the built variable with only its flag (set exactly when there is a copy) and its marker (`@` exactly when its name is in InstanceVar, else `#`) changed; copies keep `#` |
| Importer.NoAtStaysConstant | src/documentationImporter.ts:534-535 | with InstanceVar parsed from an index file, a name without `@` keeps `#` |
| Importer.RejectedVariableNotCommitted | src/documentationImporter.ts:539-543 | a rejected variable adds no variable; its name is appended to "Was not Parsed" unless it is a suspect, in which case nothing changes |
| Pipeline.CreateManual | src/documentationImporter.ts:59-549 | no index file gives null; a crash ends the run; otherwise the manual is what Run computes over the entries in order |
| Pipeline.NamePatternIsRegex | src/documentationImporter.ts:99 | the per-character test accepts exactly the names matching `^[a-z_]+[a-z0-9_().]*$` case-insensitively |
| Pipeline.PatternExcludesSpaces | src/documentationImporter.ts:99-110 | an accepted name has no space; `index.html`, `.png` and `.gif` names pass the pattern |
| Pipeline.CrashEndsRun | src/documentationImporter.ts:438-439 | once a page crashes, the run fails |
| Pipeline.PageStepKeepsLinksEncoded | src/documentationImporter.ts:429 | a page keeps every link of the manual whitespace-free |
| Pipeline.RunKeepsLinksEncoded | src/documentationImporter.ts:506 | through the whole run, every link of the manual is whitespace-free |
| Pipeline.ProducedManual | src/documentationImporter.ts:59-73 | a produced manual carries the parsed index and only whitespace-free links |

## Left out

- `getManualPath` and `getManualZip` are left out: they are platform paths, file-system checks and AdmZip. The archive is given as a list of entries.
- The constructor's schema loading and Ajv compilation are left out: these are JSON files and a foreign validator. The two validators are parameters (`DocFunction -> bool`, `DocVariable -> bool`), and the model says nothing about what they accept.
- `cheerio.load` and the selectors `$('h3')`, `$('p')`, `$('table')`, `$('h2')` are left out. They are a foreign HTML parser, so each entry carries the nodes they select. `next` siblings of an `h3` are given with the heading, and whitespace normalisation is the parser's concern.
- `fse.readFileSync` of the index file is not modelled. Its contents are an `Option<string>` input, and None makes the run return null.
- The top-level script (`JSON.stringify`, `writeFileSync`) and the `console.log` diagnostics are output only, and are not modelled.
- The failure lists are kept in `ManualBuilder`. `createManual` never returns them, so `Pipeline.Run` does not either.
- Shared objects from the shallow `Object.assign` copies are not modelled. Nothing shared is changed after copying, so the records are values.
- JavaScript strings are UTF-16 code units. The model uses Dafny `char`, and each pattern is written as the character test it performs.
- `String.prototype.trim` and `\s` are modelled with the whitespace set of ECMAScript (WhiteSpace and LineTerminator). Surrogate pairs get no special treatment.
- `doNotAutoComplete` is a bool whose false stands for the absent field.
- The page's nodes are either text or elements, so a page holding comment or doctype nodes cannot be expressed. The HTML parser gives such nodes their text as `data`, and the source reads it: a comment as the first child of the Returns content becomes the return value (line 225), a comment as the second child of a "Returns:" paragraph sets the trimmed return value (line 320), and a comment header cell's text is compared with "Argument" and "Description" (line 356). `loopTilData` stops at a comment start node with null, since a comment has no first child (lines 580-585). None of this is modelled.
