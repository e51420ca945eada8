/**
 * The JavaScript string operations the importer relies on: `trim`, `includes`,
 * `indexOf`, `startsWith`, `replace` with a string pattern, `split('\n')`, and the
 * three global regular-expression replacements, each written out character by character.
 */
module JsText {

  /** The characters matched by the regular-expression class `\s` and removed by `String.prototype.trim`. */
  predicate IsWhitespace(c: char)
  {
    c == '\t' || c == '\n' || c == '\U{B}' || c == '\U{C}' || c == '\r' || c == ' '
    || c == '\U{A0}' || c == '\U{1680}' || ('\U{2000}' <= c <= '\U{200A}')
    || c == '\U{2028}' || c == '\U{2029}' || c == '\U{202F}' || c == '\U{205F}'
    || c == '\U{3000}' || c == '\U{FEFF}'
  }

  /** The characters that the regular-expression `.` does not match. */
  predicate IsLineTerminator(c: char)
  {
    c == '\n' || c == '\r' || c == '\U{2028}' || c == '\U{2029}'
  }

  predicate NoLineBreaks(s: string)
  {
    forall i :: 0 <= i < |s| ==> s[i] != '\r' && s[i] != '\n'
  }

  predicate NoWhitespace(s: string)
  {
    forall i :: 0 <= i < |s| ==> !IsWhitespace(s[i])
  }

  // ---------------------------------------------------------------------------
  // trim

  function TrimStart(s: string): string
  {
    if s != [] && IsWhitespace(s[0]) then TrimStart(s[1..]) else s
  }

  function TrimEnd(s: string): string
  {
    if s != [] && IsWhitespace(s[|s| - 1]) then TrimEnd(s[..|s| - 1]) else s
  }

  /** `s.trim()`; TrimIsCore states what it keeps and what it removes. */
  function Trim(s: string): string
  {
    TrimEnd(TrimStart(s))
  }

  /** TrimStart removes exactly the leading whitespace. */
  lemma {:induction false} TrimStartRemovesLeading(s: string)
    ensures var r := TrimStart(s);
      && |r| <= |s| && r == s[|s| - |r|..]
      && (forall i :: 0 <= i < |s| - |r| ==> IsWhitespace(s[i]))
      && (r != [] ==> !IsWhitespace(r[0]))
  {
    if s != [] && IsWhitespace(s[0]) {
      var t := s[1..];
      TrimStartRemovesLeading(t);
      var r := TrimStart(t);
      assert TrimStart(s) == r;
      assert t[|t| - |r|..] == s[|s| - |r|..];
      forall i | 0 <= i < |s| - |r|
        ensures IsWhitespace(s[i])
      {
        if i > 0 {
          assert s[i] == t[i - 1];
        }
      }
    }
  }

  /** TrimEnd removes exactly the trailing whitespace. */
  lemma {:induction false} TrimEndRemovesTrailing(s: string)
    ensures var r := TrimEnd(s);
      && |r| <= |s| && r == s[..|r|]
      && (forall i :: |r| <= i < |s| ==> IsWhitespace(s[i]))
      && (r != [] ==> !IsWhitespace(r[|r| - 1]))
  {
    if s != [] && IsWhitespace(s[|s| - 1]) {
      TrimEndRemovesTrailing(s[..|s| - 1]);
    }
  }

  /**
   * `trim` keeps a contiguous core of the string: everything before and after it is
   * whitespace, and the core neither starts nor ends with whitespace.
   */
  lemma TrimIsCore(s: string)
    ensures var r := Trim(s);
      exists a :: TrimmedAt(s, r, a)
  {
    var t := TrimStart(s);
    var r := TrimEnd(t);
    TrimStartRemovesLeading(s);
    TrimEndRemovesTrailing(t);
    var a := |s| - |t|;
    assert t == s[a..];
    assert r == t[..|r|];
    assert r == s[a..a + |r|];
    forall i | a + |r| <= i < |s|
      ensures IsWhitespace(s[i])
    {
      assert s[i] == t[i - a];
    }
    if r != [] {
      assert r[0] == t[0];
    }
    assert r == Trim(s) && TrimmedAt(s, r, a);
  }

  /** `r` is `s[a..a + |r|]`, with whitespace only outside it and none at its ends. */
  predicate TrimmedAt(s: string, r: string, a: int)
  {
    && 0 <= a && a + |r| <= |s| && r == s[a..a + |r|]
    && (forall i :: 0 <= i < a ==> IsWhitespace(s[i]))
    && (forall i :: a + |r| <= i < |s| ==> IsWhitespace(s[i]))
    && (r != [] ==> !IsWhitespace(r[0]) && !IsWhitespace(r[|r| - 1]))
  }

  /** A string with no whitespace at either end is its own trim, and trimming twice is trimming once. */
  lemma TrimFixpoint(s: string)
    ensures (s == [] || (!IsWhitespace(s[0]) && !IsWhitespace(s[|s| - 1]))) ==> Trim(s) == s
    ensures Trim(Trim(s)) == Trim(s)
  {
    TrimStartRemovesLeading(s);
    var t := TrimStart(s);
    TrimEndRemovesTrailing(t);
    var r := TrimEnd(t);
    assert r != [] ==> r[0] == t[0];
    TrimStartRemovesLeading(r);
    TrimEndRemovesTrailing(TrimStart(r));
    if s != [] && !IsWhitespace(s[0]) && !IsWhitespace(s[|s| - 1]) {
      assert t == s;
    }
  }

  // ---------------------------------------------------------------------------
  // includes, indexOf, startsWith

  predicate OccursAt(s: string, sub: string, i: int)
  {
    0 <= i && i + |sub| <= |s| && s[i..i + |sub|] == sub
  }

  /** `s.includes(sub)` */
  predicate Includes(s: string, sub: string)
  {
    exists i :: 0 <= i <= |s| - |sub| && OccursAt(s, sub, i)
  }

  /** `s.startsWith(prefix)` */
  predicate StartsWith(s: string, prefix: string)
  {
    |prefix| <= |s| && s[..|prefix|] == prefix
  }

  /** `s.indexOf(sub)`: the first occurrence, or -1 when there is none. */
  function IndexOf(s: string, sub: string): (r: int)
    ensures r == -1 <==> !Includes(s, sub)
    ensures r != -1 ==> OccursAt(s, sub, r) && forall j :: 0 <= j < r ==> !OccursAt(s, sub, j)
  {
    IndexFrom(s, sub, 0)
  }

  function IndexFrom(s: string, sub: string, k: nat): (r: int)
    requires forall j :: 0 <= j < k ==> !OccursAt(s, sub, j)
    ensures r == -1 ==> forall j :: 0 <= j <= |s| - |sub| ==> !OccursAt(s, sub, j)
    ensures r != -1 ==> k <= r && OccursAt(s, sub, r) && forall j :: 0 <= j < r ==> !OccursAt(s, sub, j)
    decreases |s| - k
  {
    if k + |sub| > |s| then -1
    else if s[k..k + |sub|] == sub then k
    else IndexFrom(s, sub, k + 1)
  }

  /** A one-character `indexOf` sees exactly the positions holding that character. */
  lemma OccursAtChar(s: string, c: char, i: int)
    requires 0 <= i < |s|
    ensures OccursAt(s, [c], i) <==> s[i] == c
  {
    if s[i] == c {
      assert s[i..i + 1] == [c];
    }
  }

  /**
   * `s.replace(pattern, replacement)` with a string pattern and a replacement that
   * holds no `$`: only the first occurrence is replaced.
   */
  function ReplaceFirst(s: string, pattern: string, replacement: string): (r: string)
    ensures !Includes(s, pattern) ==> r == s
    ensures Includes(s, pattern) ==>
      && |r| == |s| - |pattern| + |replacement|
      && r[..IndexOf(s, pattern)] == s[..IndexOf(s, pattern)]
      && OccursAt(r, replacement, IndexOf(s, pattern))
      && r[IndexOf(s, pattern) + |replacement|..] == s[IndexOf(s, pattern) + |pattern|..]
  {
    var i := IndexOf(s, pattern);
    if i == -1 then s
    else
      var r := s[..i] + replacement + s[i + |pattern|..];
      assert r[i..i + |replacement|] == replacement;
      assert r[i + |replacement|..] == s[i + |pattern|..];
      r
  }

  /** `replace` splices the replacement in at the first occurrence of the pattern and keeps both sides. */
  lemma {:induction false} ReplaceAtFirst(s: string, pattern: string, replacement: string, i: int)
    requires OccursAt(s, pattern, i) && forall j :: 0 <= j < i ==> !OccursAt(s, pattern, j)
    ensures ReplaceFirst(s, pattern, replacement) == s[..i] + replacement + s[i + |pattern|..]
  {
    assert Includes(s, pattern);
    var r := ReplaceFirst(s, pattern, replacement);
    assert IndexOf(s, pattern) == i;
    var t := s[..i] + replacement + s[i + |pattern|..];
    assert r[..i] == t[..i];
    assert r[i..i + |replacement|] == t[i..i + |replacement|];
    assert r[i + |replacement|..] == t[i + |replacement|..];
    assert r == r[..i] + r[i..i + |replacement|] + r[i + |replacement|..];
    assert t == t[..i] + t[i..i + |replacement|] + t[i + |replacement|..];
  }

  // ---------------------------------------------------------------------------
  // The three regular-expression replacements

  /** What clearLineTerminators makes of one character that does not start a `\r\n`. */
  function ClearChar(c: char): string
  {
    if c == '\r' || c == '\n' then " " else [c]
  }

  /** `data.replace(/\r?\n|\r/g, ' ')` (clearLineTerminators); ClearRemovesLineBreaks states what it leaves. */
  function ClearLineTerminators(s: string): string
    decreases |s|
  {
    if s == [] then []
    else if |s| > 1 && s[0] == '\r' && s[1] == '\n' then " " + ClearLineTerminators(s[2..])
    else ClearChar(s[0]) + ClearLineTerminators(s[1..])
  }

  /** `s.replace(/(\r\n|\r)/g, '\n')` */
  function CrToLf(s: string): (r: string)
    ensures forall i :: 0 <= i < |r| ==> r[i] != '\r'
    ensures |r| <= |s|
    decreases |s|
  {
    if s == [] then []
    else if s[0] == '\r' && |s| > 1 && s[1] == '\n' then "\n" + CrToLf(s[2..])
    else if s[0] == '\r' then "\n" + CrToLf(s[1..])
    else [s[0]] + CrToLf(s[1..])
  }

  /** normalizeEoLSequences: an empty text gives `''`, any other text has every `\r\n` and lone `\r` turned into `\n`. */
  function NormalizeEoLSequences(text: string): (r: string)
    ensures forall i :: 0 <= i < |r| ==> r[i] != '\r'
    ensures text == "" ==> r == ""
    ensures |r| <= |text|
  {
    if text == "" then "" else CrToLf(text)
  }

  /** Every `\n` becomes a space, every other character is kept. */
  function NewlinesToSpaces(s: string): (r: string)
  {
    if s == [] then [] else (if s[0] == '\n' then " " else [s[0]]) + NewlinesToSpaces(s[1..])
  }

  /** What the link encoding makes of one character. */
  function EncodeChar(c: char): string
  {
    if IsWhitespace(c) then "%20" else [c]
  }

  /** `link.replace(/[\s]/g, '%20')`; EncodeRemovesWhitespace states what it leaves. */
  function EncodeWhitespace(s: string): string
  {
    if s == [] then [] else EncodeChar(s[0]) + EncodeWhitespace(s[1..])
  }

  // ---------------------------------------------------------------------------
  // split('\n') and its inverse

  /** `s.split('\n')` */
  function SplitLines(s: string): (lines: seq<string>)
    ensures |lines| >= 1
  {
    if s == [] then [""]
    else
      var rest := SplitLines(s[1..]);
      if s[0] == '\n' then [""] + rest else [[s[0]] + rest[0]] + rest[1..]
  }

  /** `lines.join('\n')` */
  function JoinLines(lines: seq<string>): string
    requires |lines| >= 1
  {
    if |lines| == 1 then lines[0] else lines[0] + "\n" + JoinLines(lines[1..])
  }

  // ---------------------------------------------------------------------------
  // Lemmas

  /**
   * clearLineTerminators is normalizeEoLSequences followed by turning every
   * newline into a space: each `\r\n`, lone `\r` and lone `\n` becomes exactly one space.
   */
  lemma {:induction false} ClearIsNormalizeThenSpaces(s: string)
    ensures ClearLineTerminators(s) == NewlinesToSpaces(NormalizeEoLSequences(s))
    decreases |s|
  {
    if s == [] {
    } else if |s| > 1 && s[0] == '\r' && s[1] == '\n' {
      ClearIsNormalizeThenSpaces(s[2..]);
      CrToLfTail(s[2..]);
      var t := CrToLf(s[2..]);
      assert CrToLf(s) == "\n" + t;
      assert ("\n" + t)[1..] == t;
    } else if s[0] == '\r' || s[0] == '\n' {
      ClearIsNormalizeThenSpaces(s[1..]);
      CrToLfTail(s[1..]);
      var t := CrToLf(s[1..]);
      assert CrToLf(s) == [(if s[0] == '\r' then '\n' else s[0])] + t;
      assert ([(if s[0] == '\r' then '\n' else s[0])] + t)[1..] == t;
    } else {
      ClearIsNormalizeThenSpaces(s[1..]);
      CrToLfTail(s[1..]);
      var t := CrToLf(s[1..]);
      assert ([s[0]] + t)[1..] == t;
    }
  }

  lemma CrToLfTail(s: string)
    ensures NormalizeEoLSequences(s) == CrToLf(s)
  {
  }

  /** clearLineTerminators leaves no `\r` or `\n`, and never lengthens the text. */
  lemma {:induction false} ClearRemovesLineBreaks(s: string)
    ensures NoLineBreaks(ClearLineTerminators(s))
    ensures |ClearLineTerminators(s)| <= |s|
    decreases |s|
  {
    if s == [] {
    } else if |s| > 1 && s[0] == '\r' && s[1] == '\n' {
      ClearRemovesLineBreaks(s[2..]);
    } else {
      ClearRemovesLineBreaks(s[1..]);
    }
  }

  /** Text without line breaks passes through clearLineTerminators unchanged. */
  lemma {:induction false} ClearKeepsPlainText(s: string)
    requires NoLineBreaks(s)
    ensures ClearLineTerminators(s) == s
    decreases |s|
  {
    if s != [] {
      ClearKeepsPlainText(s[1..]);
      assert [s[0]] + s[1..] == s;
    }
  }

  /** clearLineTerminators is idempotent. */
  lemma ClearIdempotent(s: string)
    ensures ClearLineTerminators(ClearLineTerminators(s)) == ClearLineTerminators(s)
  {
    ClearRemovesLineBreaks(s);
    ClearKeepsPlainText(ClearLineTerminators(s));
  }

  /**
   * clearLineTerminators works piecewise and keeps order: cutting the text anywhere
   * except between the two halves of a `\r\n` commutes with it.
   */
  lemma {:induction false} ClearConcat(a: string, b: string)
    requires !(a != [] && a[|a| - 1] == '\r' && b != [] && b[0] == '\n')
    ensures ClearLineTerminators(a + b) == ClearLineTerminators(a) + ClearLineTerminators(b)
    decreases |a|
  {
    var ab := a + b;
    if a == [] {
      assert ab == b;
    } else {
      if |a| > 1 && a[0] == '\r' && a[1] == '\n' {
        assert ab[2..] == a[2..] + b;
        ClearConcat(a[2..], b);
        assert ClearLineTerminators(ab) == " " + ClearLineTerminators(ab[2..]) by {
          assert |ab| > 1 && ab[0] == '\r' && ab[1] == '\n';
        }
      } else {
        assert ab[1..] == a[1..] + b;
        ClearConcat(a[1..], b);
        assert ClearLineTerminators(ab) == ClearChar(a[0]) + ClearLineTerminators(ab[1..]) by {
          assert ab[0] == a[0];
          assert |a| > 1 ==> ab[1] == a[1];
          assert |a| == 1 && b != [] ==> ab[1] == b[0];
        }
      }
    }
  }

  /** Text without `\r` passes through normalizeEoLSequences unchanged. */
  lemma {:induction false} NormalizeKeepsCrFreeText(s: string)
    requires forall i :: 0 <= i < |s| ==> s[i] != '\r'
    ensures NormalizeEoLSequences(s) == s
    decreases |s|
  {
    if s != [] {
      NormalizeKeepsCrFreeText(s[1..]);
      assert [s[0]] + s[1..] == s;
    }
  }

  /** The link encoding leaves no whitespace and never shortens the text. */
  lemma {:induction false} EncodeRemovesWhitespace(s: string)
    ensures NoWhitespace(EncodeWhitespace(s))
    ensures |EncodeWhitespace(s)| >= |s|
  {
    if s != [] {
      EncodeRemovesWhitespace(s[1..]);
    }
  }

  /** A link without whitespace is left as it is; encoding is therefore idempotent. */
  lemma {:induction false} EncodeKeepsPlainText(s: string)
    requires NoWhitespace(s)
    ensures EncodeWhitespace(s) == s
  {
    if s != [] {
      EncodeKeepsPlainText(s[1..]);
      assert [s[0]] + s[1..] == s;
    }
  }

  /** The `%20` replacement works character by character, in order. */
  lemma {:induction false} EncodeConcat(a: string, b: string)
    ensures EncodeWhitespace(a + b) == EncodeWhitespace(a) + EncodeWhitespace(b)
  {
    var ab := a + b;
    if a == [] {
      assert ab == b;
    } else {
      assert ab[0] == a[0] && ab[1..] == a[1..] + b;
      EncodeConcat(a[1..], b);
      assert EncodeWhitespace(ab) == EncodeChar(a[0]) + (EncodeWhitespace(a[1..]) + EncodeWhitespace(b));
    }
  }

  /** Splitting on `\n` and joining with `\n` gives the text back. */
  lemma {:induction false} JoinSplit(s: string)
    ensures JoinLines(SplitLines(s)) == s
  {
    if s != [] {
      var tail := s[1..];
      JoinSplit(tail);
      JoinSplitStep(s[0], tail);
      assert s == [s[0]] + tail;
    }
  }

  /** One more character in front: a `\n` starts a new empty line, any other character extends the first line. */
  lemma JoinSplitStep(c: char, tail: string)
    requires JoinLines(SplitLines(tail)) == tail
    ensures JoinLines(SplitLines([c] + tail)) == [c] + tail
  {
    var s := [c] + tail;
    assert s[0] == c && s[1..] == tail;
    var rest := SplitLines(tail);
    if c == '\n' {
      var ls := [""] + rest;
      assert SplitLines(s) == ls;
      assert ls[1..] == rest;
      assert JoinLines(ls) == "" + "\n" + JoinLines(rest);
    } else {
      assert SplitLines(s) == [[c] + rest[0]] + rest[1..];
      JoinExtendsHead([c], rest);
    }
  }

  /** Putting `c` in front of the first line puts it in front of the join. */
  lemma {:induction false} JoinExtendsHead(c: string, lines: seq<string>)
    requires |lines| >= 1
    ensures JoinLines([c + lines[0]] + lines[1..]) == c + JoinLines(lines)
  {
    var ls := [c + lines[0]] + lines[1..];
    if |lines| == 1 {
      assert JoinLines(ls) == ls[0];
    } else {
      var x := JoinLines(lines[1..]);
      assert ls[1..] == lines[1..];
      assert JoinLines(ls) == (c + lines[0]) + "\n" + x;
      assert JoinLines(lines) == lines[0] + "\n" + x;
      assert (c + lines[0]) + "\n" + x == c + (lines[0] + "\n" + x);
    }
  }

  /** No line of `s.split('\n')` holds a `\n`. */
  lemma {:induction false} SplitLinesHaveNoNewline(s: string)
    ensures forall k :: 0 <= k < |SplitLines(s)| ==> '\n' !in SplitLines(s)[k]
  {
    if s != [] {
      SplitLinesHaveNoNewline(s[1..]);
    }
  }

  /** Joining lines that hold no `\n` and splitting again gives the same lines. */
  lemma {:induction false} SplitJoin(lines: seq<string>)
    requires |lines| >= 1
    requires forall k :: 0 <= k < |lines| ==> '\n' !in lines[k]
    ensures SplitLines(JoinLines(lines)) == lines
  {
    if |lines| == 1 {
      SplitPlain(lines[0], []);
      assert lines[0] + [] == lines[0];
    } else {
      SplitJoin(lines[1..]);
      var rest := "\n" + JoinLines(lines[1..]);
      SplitPlain(lines[0], rest);
      assert lines[0] + "\n" + JoinLines(lines[1..]) == lines[0] + rest;
      assert rest[1..] == JoinLines(lines[1..]);
      assert SplitLines(rest) == [""] + lines[1..];
      assert lines[0] + "" == lines[0];
      assert [lines[0]] + lines[1..] == lines;
    }
  }

  /** A piece without `\n` in front of `rest` becomes the head of the first line. */
  lemma {:induction false} SplitPlain(a: string, rest: string)
    requires '\n' !in a
    ensures SplitLines(a + rest) == [a + SplitLines(rest)[0]] + SplitLines(rest)[1..]
  {
    if a == [] {
      assert a + rest == rest;
      assert a + SplitLines(rest)[0] == SplitLines(rest)[0];
    } else {
      assert a == [a[0]] + a[1..];
      assert '\n' !in a[1..];
      SplitPlain(a[1..], rest);
      var rs := SplitLines(rest);
      var tail := SplitLines(a[1..] + rest);
      assert tail == [a[1..] + rs[0]] + rs[1..];
      assert tail[0] == a[1..] + rs[0] && tail[1..] == rs[1..];
      assert (a + rest)[1..] == a[1..] + rest;
      assert a[0] != '\n';
      assert SplitLines(a + rest) == [[a[0]] + tail[0]] + tail[1..];
      assert [a[0]] + (a[1..] + rs[0]) == a + rs[0];
    }
  }
}
