/**
 * The records the importer produces. Four field names of the saved document are
 * Dafny keywords and are renamed: a function's `return` is `returnText`, a parameter's
 * `label` is `labelText`, a variable's `type` is `typeText` and its `object` is `marker`. The optional
 * `doNotAutoComplete` is a bool whose false stands for the absent field.
 */
module GmlDocs {
  import opened Wrappers

  datatype DocExample = DocExample(code: string, description: string)

  datatype DocParam = DocParam(labelText: string, documentation: string)

  datatype DocFunction = DocFunction(
    name: string,
    signature: string,
    parameters: seq<DocParam>,
    minParameters: nat,
    maxParameters: nat,
    example: DocExample,
    documentation: string,
    returnText: string,
    link: string)

  datatype DocVariable = DocVariable(
    name: string,
    example: DocExample,
    documentation: string,
    typeText: string,
    link: string,
    marker: string,
    doNotAutoComplete: bool)

  /** The four lists read from the legacy index file, one per marker character. */
  datatype FnamesParse = FnamesParse(
    instanceVar: seq<string>,
    constants: seq<string>,
    obsolete: seq<string>,
    readOnly: seq<string>)

  datatype DocFile = DocFile(functions: seq<DocFunction>, variables: seq<DocVariable>, fnames: FnamesParse)

  /** What a page documents, decided by its syntax line. */
  datatype DocType = Function | Variable

  /** The record being filled for one page, the page's kind once known, and the names this page pushed to the "may have been parsed incorrectly" list. */
  datatype Draft = Draft(fn: DocFunction, kind: Option<DocType>, suspects: seq<string>)

  // The marker characters of the legacy index (SpecialDocTypes).
  const Constant: string := "#"
  const Readonly: string := "*"
  const InstVar: string := "@"
  const Obsolete: string := "&"
  const Script: string := "!"

  /** maxParameters of a fresh record, before any syntax line is read. */
  const InitialMaxParameters: nat := 999
  /** maxParameters of a function with a variadic (`...`) parameter. */
  const VariadicMaxParameters: nat := 9999
}
