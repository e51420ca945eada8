/**
 * The "Syntax" section of a page: the signature is assembled from the children of the
 * node two siblings after the heading, the page is classified as a function (the
 * signature contains `(`) or a variable, and a function's arity is read off the commas
 * and the first optional-argument bracket of the signature.
 */
module Signature {
  import opened Wrappers
  import opened JsText
  import opened Markup
  import opened GmlDocs

  // ---------------------------------------------------------------------------
  // Assembling the signature

  /** What one child of the syntax line adds: its first text, trimmed, when that text is non-empty. */
  function SignaturePiece(child: Node): string
  {
    match FirstText(child)
    case Some(t) => if t.data != "" then Trim(t.data) else ""
    case None => ""
  }

  /** The pieces of all children, in order. */
  function SignatureText(children: seq<Node>): string
  {
    if children == [] then ""
    else SignatureText(children[..|children| - 1]) + SignaturePiece(children[|children| - 1])
  }

  /**
   * minParameters after the children are scanned: an `i` child at position `k` sets it to
   * `k` whenever it is still 0 (falsy) at that point.
   */
  function ItalicMin(min: nat, children: seq<Node>): nat
  {
    if children == [] then min
    else
      var m := ItalicMin(min, children[..|children| - 1]);
      if IsTag(children[|children| - 1], "i") && m == 0 then |children| - 1 else m
  }

  /** One child's contribution to the signature: its first text, trimmed, when non-empty. */
  method AppendPiece(sig: string, thisChild: Node) returns (r: string)
    ensures r == sig + SignaturePiece(thisChild)
    ensures r == sig + Trim(TextData(thisChild))
  {
    r := sig;
    var thisData := LoopTilData(thisChild);
    if thisData.Some? && thisData.value.data != "" {
      r := r + Trim(thisData.value.data);
    }
  }

  /**
   * A child's piece is its first text, trimmed: a stretch of that text with whitespace
   * only around it and none at its ends, and empty when the child has no text.
   */
  lemma SignaturePieceIsTrimmedText(child: Node)
    ensures SignaturePiece(child) == Trim(TextData(child))
    ensures exists a :: TrimmedAt(TextData(child), SignaturePiece(child), a)
    ensures TextData(child) == "" ==> SignaturePiece(child) == ""
  {
    TrimIsCore(TextData(child));
  }

  /**
   * The loop over the syntax line's children: each child's first text is appended
   * trimmed, and the italics test updates minParameters.
   */
  method BuildSignature(signature: string, minParameters: nat, children: seq<Node>) returns (sig: string, min: nat)
    ensures sig == signature + SignatureText(children)
    ensures min == ItalicMin(minParameters, children)
  {
    sig, min := signature, minParameters;
    for i := 0 to |children|
      invariant sig == signature + SignatureText(children[..i])
      invariant min == ItalicMin(minParameters, children[..i])
    {
      assert children[..i + 1][..i] == children[..i];
      var thisChild := children[i];
      assert SignatureText(children[..i + 1]) == SignatureText(children[..i]) + SignaturePiece(thisChild);
      ghost var before := sig;
      sig := AppendPiece(sig, thisChild);
      assert sig == signature + (SignatureText(children[..i]) + SignaturePiece(thisChild));
      if IsTag(thisChild, "i") {
        if min == 0 {
          min := i;
        }
      }
    }
    assert children[..|children|] == children;
  }

  // ---------------------------------------------------------------------------
  // Arity

  /** The number of commas in `s`. */
  function CommaCount(s: string): nat
  {
    multiset(s)[',']
  }

  /** What the character scan of a signature leaves: the comma count and `openBracket` (None for undefined). */
  datatype ArityScan = ArityScan(commas: nat, openBracket: Option<nat>)

  /**
   * The scan over the signature's characters: a comma increments the count; a `[` records
   * the count so far when openBracket is undefined or 0, both falsy.
   */
  function Scan(s: string): ArityScan
  {
    if s == [] then ArityScan(0, None)
    else
      var p := Scan(s[..|s| - 1]);
      var c := s[|s| - 1];
      var commas := if c == ',' then p.commas + 1 else p.commas;
      var openBracket := if c == '[' && (p.openBracket.None? || p.openBracket.value == 0) then Some(commas) else p.openBracket;
      ArityScan(commas, openBracket)
  }

  method ScanArity(signature: string) returns (commas: nat, openBracket: Option<nat>)
    ensures ArityScan(commas, openBracket) == Scan(signature)
  {
    commas, openBracket := 0, None;
    for i := 0 to |signature|
      invariant ArityScan(commas, openBracket) == Scan(signature[..i])
    {
      assert signature[..i + 1][..i] == signature[..i];
      var thisChar := signature[i];
      if thisChar == ',' {
        commas := commas + 1;
      }
      if thisChar == '[' && (openBracket.None? || openBracket.value == 0) {
        openBracket := Some(commas);
      }
    }
    assert signature[..|signature|] == signature;
  }

  /** maxParameters: one more than the commas, or, without commas, 0 for an empty `()` and 1 otherwise. */
  function MaxParameters(signature: string, commas: nat): nat
  {
    if commas > 0 then commas + 1
    else if Includes(signature, "()") then 0
    else 1
  }

  /** minParameters: the bracket position when there is one, else the italics value, else (when that is 0) maxParameters. */
  function MinParameters(openBracket: Option<nat>, min: nat, max: nat): nat
  {
    if openBracket.Some? then openBracket.value
    else if min == 0 then max
    else min
  }

  /** A `[` at position `k` that comes after at least one comma. */
  predicate CountedBracket(s: string, k: int)
  {
    0 <= k < |s| && s[k] == '[' && CommaCount(s[..k]) > 0
  }

  // ---------------------------------------------------------------------------
  // The Syntax heading

  /**
   * The effect of a "Syntax" heading whose signature node has `children`: the signature
   * grows, and the record is classified. A function is named by the text before its
   * first `(` and gets its arity; a variable is named by the text before its first `;`.
   */
  function ApplySyntax(fn: DocFunction, children: seq<Node>): (DocFunction, DocType)
  {
    var sig := fn.signature + SignatureText(children);
    var min := ItalicMin(fn.minParameters, children);
    if Includes(sig, "(") then
      var scan := Scan(sig);
      var max := MaxParameters(sig, scan.commas);
      (fn.(signature := sig, name := sig[..IndexOf(sig, "(")], maxParameters := max,
           minParameters := MinParameters(scan.openBracket, min, max)),
       Function)
    else
      var name := if Includes(sig, ";") then sig[..IndexOf(sig, ";")] else sig;
      (fn.(signature := sig, name := name, minParameters := min), Variable)
  }

  /** The "Syntax" branch of the heading loop, given the children of the signature node. */
  method ParseSyntax(fn: DocFunction, children: seq<Node>) returns (f: DocFunction, kind: DocType)
    ensures (f, kind) == ApplySyntax(fn, children)
  {
    var signature, min := BuildSignature(fn.signature, fn.minParameters, children);
    f := fn.(signature := signature, minParameters := min);
    var isFunction := Includes(signature, "(");
    if isFunction {
      kind := Function;
      f := f.(name := signature[..IndexOf(signature, "(")]);
      var commas, openBracket := ScanArity(signature);
      if commas > 0 {
        commas := commas + 1;
        f := f.(maxParameters := commas);
      }
      if commas == 0 {
        if !Includes(signature, "()") {
          f := f.(maxParameters := 1);
        } else {
          f := f.(maxParameters := 0);
        }
      }
      if openBracket.Some? {
        f := f.(minParameters := openBracket.value);
      } else if f.minParameters == 0 {
        f := f.(minParameters := f.maxParameters);
      }
    } else {
      if Includes(signature, ";") {
        f := f.(name := signature[..IndexOf(signature, ";")]);
      } else {
        f := f.(name := signature);
      }
      kind := Variable;
    }
  }

  // ---------------------------------------------------------------------------
  // Lemmas

  /**
   * The italics quirk: a record whose minParameters is already set keeps it; from 0, the
   * result is the position of the first italic child after position 0, or 0 when there is
   * none (an italic first child leaves 0, which the next italic child overwrites).
   */
  lemma {:induction false} ItalicMinIsFirstLaterItalic(min: nat, children: seq<Node>)
    ensures min != 0 ==> ItalicMin(min, children) == min
    ensures min == 0 && ItalicMin(min, children) == 0 ==>
      forall k :: 1 <= k < |children| ==> !IsTag(children[k], "i")
    ensures min == 0 && ItalicMin(min, children) != 0 ==>
      var m := ItalicMin(min, children);
      m < |children| && IsTag(children[m], "i") && forall k :: 1 <= k < m ==> !IsTag(children[k], "i")
  {
    if children != [] {
      var front := children[..|children| - 1];
      ItalicMinIsFirstLaterItalic(min, front);
      forall k | 1 <= k < |front|
        ensures front[k] == children[k]
      {
      }
    }
  }

  /** The scan counts every comma of the signature. */
  lemma {:induction false} ScanCountsCommas(s: string)
    ensures Scan(s).commas == CommaCount(s)
  {
    if s != [] {
      ScanCountsCommas(s[..|s| - 1]);
      assert s == s[..|s| - 1] + [s[|s| - 1]];
      assert multiset(s) == multiset(s[..|s| - 1]) + multiset{s[|s| - 1]};
    }
  }

  /** openBracket is defined exactly when the text holds a `[`. */
  lemma {:induction false} ScanSeesBracket(s: string)
    ensures Scan(s).openBracket.None? <==> '[' !in s
  {
    if s != [] {
      var front := s[..|s| - 1];
      ScanSeesBracket(front);
      assert s == front + [s[|s| - 1]];
    }
  }

  /** When no `[` follows a comma, a text holding `[` leaves openBracket at 0. */
  lemma {:induction false} ScanUncountedBracket(s: string)
    requires '[' in s && forall k :: !CountedBracket(s, k)
    ensures Scan(s).openBracket == Some(0)
  {
    var front := s[..|s| - 1];
    var last := |s| - 1;
    assert s == front + [s[last]];
    ScanCountsCommas(front);
    ScanSeesBracket(front);
    forall k ensures !CountedBracket(front, k) {
      CountedBracketInFront(s, k);
    }
    if '[' in front {
      ScanUncountedBracket(front);
    }
    if s[last] == '[' {
      assert !CountedBracket(s, last);
      assert s[..last] == front;
    }
  }

  /** At the first `[` that follows a comma, openBracket takes the comma count before it and keeps it. */
  lemma {:induction false} ScanFirstCountedBracket(s: string, j: int)
    requires CountedBracket(s, j) && forall k :: 0 <= k < j ==> !CountedBracket(s, k)
    ensures Scan(s).openBracket == Some(CommaCount(s[..j]))
    decreases |s|
  {
    var front := s[..|s| - 1];
    var last := |s| - 1;
    assert s == front + [s[last]];
    ScanCountsCommas(front);
    forall k | 0 <= k < j && k < last ensures !CountedBracket(front, k) {
      CountedBracketInFront(s, k);
    }
    if j < last {
      CountedBracketInFront(s, j);
      ScanFirstCountedBracket(front, j);
      assert s[..j] == front[..j];
    } else {
      assert s[..j] == front;
      ScanSeesBracket(front);
      if '[' in front {
        ScanUncountedBracket(front);
      }
    }
  }

  /** Below the last character, a counted `[` of a text is one of the text without its last character. */
  lemma CountedBracketInFront(s: string, k: int)
    requires s != []
    ensures CountedBracket(s, k) && k < |s| - 1 ==> CountedBracket(s[..|s| - 1], k)
    ensures CountedBracket(s[..|s| - 1], k) ==> CountedBracket(s, k)
  {
    if 0 <= k < |s| - 1 {
      assert s[..k] == s[..|s| - 1][..k];
    }
  }

  /** A function's maxParameters is one more than its comma count, and without commas 0 exactly when `()` appears. */
  lemma FunctionArity(fn: DocFunction, children: seq<Node>)
    requires ApplySyntax(fn, children).1 == Function
    ensures var sig := fn.signature + SignatureText(children);
      var f := ApplySyntax(fn, children).0;
      && (CommaCount(sig) > 0 ==> f.maxParameters == CommaCount(sig) + 1)
      && (CommaCount(sig) == 0 ==> (f.maxParameters == 0 <==> Includes(sig, "()")))
      && (CommaCount(sig) == 0 ==> f.maxParameters <= 1)
  {
    ScanCountsCommas(fn.signature + SignatureText(children));
  }

  /**
   * The record is a function exactly when its signature contains `(`; a function's name is
   * the signature up to its first `(`, and a variable's name is the signature up to its
   * first `;`, or the whole signature. Neither name contains the character it stops at.
   */
  lemma SyntaxClassifies(fn: DocFunction, children: seq<Node>)
    ensures var sig := fn.signature + SignatureText(children);
      var (f, kind) := ApplySyntax(fn, children);
      && f.signature == sig
      && (kind == Function <==> Includes(sig, "("))
      && sig[..|f.name|] == f.name
      && (kind == Function ==> !Includes(f.name, "(") && OccursAt(sig, "(", |f.name|))
      && (kind == Variable && Includes(sig, ";") ==> !Includes(f.name, ";") && OccursAt(sig, ";", |f.name|))
      && (kind == Variable && !Includes(sig, ";") ==> f.name == sig)
      && (kind == Variable ==> f.maxParameters == fn.maxParameters)
  {
    var sig := fn.signature + SignatureText(children);
    var (f, kind) := ApplySyntax(fn, children);
    if kind == Function {
      PrefixBeforeFirst(sig, '(');
    } else if Includes(sig, ";") {
      PrefixBeforeFirst(sig, ';');
    }
  }

  /** The text before the first occurrence of a character does not contain it. */
  lemma PrefixBeforeFirst(s: string, c: char)
    requires Includes(s, [c])
    ensures var i := IndexOf(s, [c]);
      0 <= i < |s| && s[i] == c && !Includes(s[..i], [c])
  {
    var i := IndexOf(s, [c]);
    OccursAtChar(s, c, i);
    if Includes(s[..i], [c]) {
      var j :| 0 <= j <= |s[..i]| - 1 && OccursAt(s[..i], [c], j);
      OccursAtChar(s[..i], c, j);
      OccursAtChar(s, c, j);
    }
  }

  /**
   * minParameters never exceeds maxParameters unless the italics quirk produced it: the
   * bracket position is at most the comma count, and the fallback is maxParameters itself.
   */
  lemma MinWithinMax(fn: DocFunction, children: seq<Node>)
    requires ApplySyntax(fn, children).1 == Function
    ensures var f := ApplySyntax(fn, children).0;
      f.minParameters <= f.maxParameters || f.minParameters == ItalicMin(fn.minParameters, children)
  {
    var sig := fn.signature + SignatureText(children);
    BracketWithinCommas(sig);
  }

  lemma {:induction false} BracketWithinCommas(s: string)
    ensures Scan(s).openBracket.Some? ==> Scan(s).openBracket.value <= Scan(s).commas
  {
    if s != [] {
      BracketWithinCommas(s[..|s| - 1]);
    }
  }
}
