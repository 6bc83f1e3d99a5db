/**
 * Re-indenting JSON (`gojson::indent`): one pass over the text that knows only whether it is inside
 * a string. Whatever the text's own layout, the result reads as the same value.
 */
module GoJsonIndent {
  import opened Common
  import opened GoJson
  import opened JsonGrammar

  /** What every line starts with, and what each level adds. */
  datatype Layout = Layout(prefix: string, indent: string)

  predicate BlankLayout(layout: Layout) {
    Blank(layout.prefix) && Blank(layout.indent)
  }

  function Repeat(s: string, n: nat): string {
    if n == 0 then [] else s + Repeat(s, n - 1)
  }

  function NewLine(layout: Layout, depth: nat): string {
    "\n" + layout.prefix + Repeat(layout.indent, depth)
  }

  function Closing(c: char): char {
    if c == '{' then '}' else ']'
  }

  function Less(depth: nat): nat {
    if depth == 0 then 0 else depth - 1
  }

  /** The layout of `s` from outside any string, `depth` levels down. */
  function Outside(s: string, depth: nat, layout: Layout): string
    decreases |s|
  {
    if s == [] then []
    else
      var c := s[0];
      if c == '"' then [c] + Inside(s[1..], false, depth, layout)
      else if c == '{' || c == '[' then
        if |s| > 1 && s[1] == Closing(c) then [c, s[1]] + Outside(s[2..], depth, layout)
        else [c] + NewLine(layout, depth + 1) + Outside(s[1..], depth + 1, layout)
      else if c == '}' || c == ']' then
        NewLine(layout, Less(depth)) + [c] + Outside(s[1..], Less(depth), layout)
      else if c == ',' then [c] + NewLine(layout, depth) + Outside(s[1..], depth, layout)
      else if c == ':' then ": " + Outside(s[1..], depth, layout)
      else [c] + Outside(s[1..], depth, layout)
  }

  /** The layout of `s` from inside a string, just after a backslash or not. */
  function Inside(s: string, escaped: bool, depth: nat, layout: Layout): string
    decreases |s|
  {
    if s == [] then []
    else if !escaped && s[0] == '"' then [s[0]] + Outside(s[1..], depth, layout)
    else [s[0]] + Inside(s[1..], !escaped && s[0] == '\\', depth, layout)
  }

  /** The layout of what is left, wherever the pass is. */
  function Left(s: string, inString: bool, escaped: bool, depth: nat, layout: Layout): string {
    if inString then Inside(s, escaped, depth, layout) else Outside(s, depth, layout)
  }

  /** `indent`: the loop. */
  method Indent(compact: string, prefix: string, indent: string) returns (out: string)
    ensures out == Outside(compact, 0, Layout(prefix, indent))
  {
    out := "";
    var depth: nat := 0;
    var inString, escaped := false, false;
    var index := 0;
    ghost var layout := Layout(prefix, indent);
    ghost var whole := Outside(compact, 0, layout);
    assert compact[0..] == compact;
    while index < |compact|
      invariant 0 <= index <= |compact|
      invariant whole == out + Left(compact[index..], inString, escaped, depth, layout)
    {
      var piece;
      piece, index, inString, escaped, depth :=
        Advance(compact, index, inString, escaped, depth, prefix, indent);
      out := out + piece;
    }
  }

  /** The loop body. */
  method Advance(compact: string, index: nat, inString: bool, escaped: bool, depth: nat, prefix: string, indent: string)
    returns (piece: string, index': nat, inString': bool, escaped': bool, depth': nat)
    requires index < |compact|
    ensures index < index' <= |compact|
    ensures var layout := Layout(prefix, indent);
            Left(compact[index..], inString, escaped, depth, layout) ==
            piece + Left(compact[index'..], inString', escaped', depth', layout)
  {
    var character := compact[index];
    var skip;
    if inString {
      inString', escaped' := InString(compact[index..], character, escaped, depth, Layout(prefix, indent));
      piece, skip, depth' := [character], 1, depth;
    } else {
      var closes := index + 1 < |compact| && compact[index + 1] == Closing(character);
      piece, skip, depth', inString' := LayOut(compact[index..], closes, character, depth, prefix, indent);
      escaped' := false;
    }
    assert compact[index..][skip..] == compact[index + skip..];
    index' := index + skip;
  }

  /** The loop body inside a string. */
  method InString(ghost here: string, character: char, escaped: bool, ghost depth: nat, ghost layout: Layout)
    returns (inString: bool, escaped': bool)
    requires here != [] && character == here[0]
    ensures Inside(here, escaped, depth, layout) == [character] + Left(here[1..], inString, escaped', depth, layout)
  {
    inString, escaped' := true, false;
    if escaped {
    } else if character == '\\' {
      escaped' := true;
    } else if character == '"' {
      inString := false;
    }
  }

  /** The loop body outside a string: what is written for a character, and how many are consumed. */
  method LayOut(ghost here: string, closes: bool, character: char, depth: nat, prefix: string, indent: string)
    returns (piece: string, skip: nat, depth': nat, inString: bool)
    requires here != [] && character == here[0]
    requires closes <==> |here| > 1 && here[1] == Closing(character)
    ensures 1 <= skip <= |here|
    ensures var layout := Layout(prefix, indent);
            Outside(here, depth, layout) == piece + Left(here[skip..], inString, false, depth', layout)
  {
    skip, depth', inString := 1, depth, false;
    if character == '"' {
      return [character], 1, depth, true;
    } else if character == '{' || character == '[' {
      if closes {
        return [character, Closing(character)], 2, depth, false;
      }
      depth' := depth + 1;
      var line := WriteNewLine(prefix, indent, depth');
      piece := [character] + line;
    } else if character == '}' || character == ']' {
      depth' := if depth == 0 then 0 else depth - 1;
      var line := WriteNewLine(prefix, indent, depth');
      piece := line + [character];
    } else if character == ',' {
      var line := WriteNewLine(prefix, indent, depth);
      piece := [character] + line;
    } else if character == ':' {
      piece := ": ";
    } else {
      piece := [character];
    }
  }

  method WriteNewLine(prefix: string, indent: string, depth: nat) returns (line: string)
    ensures line == NewLine(Layout(prefix, indent), depth)
  {
    line := "\n" + prefix;
    var left := depth;
    while left > 0
      invariant 0 <= left <= depth
      invariant line + Repeat(indent, left) == NewLine(Layout(prefix, indent), depth)
    {
      line := line + indent;
      left := left - 1;
    }
  }

  // ---- Space -------------------------------------------------------------------------------

  lemma {:induction false} RepeatBlank(s: string, n: nat)
    requires Blank(s)
    ensures Blank(Repeat(s, n))
  {
    if n > 0 {
      RepeatBlank(s, n - 1);
    }
  }

  lemma SkipNewLine(layout: Layout, depth: nat, s: string)
    requires BlankLayout(layout)
    ensures SkipSpace(NewLine(layout, depth) + s) == SkipSpace(s)
  {
    RepeatBlank(layout.indent, depth);
    SkipBlank(NewLine(layout, depth), s);
  }

  /** Space at the head of the text only moves to the head of its layout. */
  lemma {:induction false} SkipOutside(s: string, depth: nat, layout: Layout)
    ensures SkipSpace(Outside(s, depth, layout)) == SkipSpace(Outside(SkipSpace(s), depth, layout))
  {
    if s != [] && IsSpace(s[0]) {
      var laid := Outside(s, depth, layout);
      assert laid[1..] == Outside(s[1..], depth, layout);
      SkipOutside(s[1..], depth, layout);
    }
  }

  /** What the reader sees first in the layout of a text whose own first character is not space. */
  function Seen(t: string, depth: nat, layout: Layout): string
    requires t != []
  {
    var c := t[0];
    if c == '}' || c == ']' then [c] + Outside(t[1..], Less(depth), layout)
    else Outside(t, depth, layout)
  }

  lemma SkipToSeen(s: string, depth: nat, layout: Layout)
    requires BlankLayout(layout) && SkipSpace(s) != []
    ensures SkipSpace(Outside(s, depth, layout)) == Seen(SkipSpace(s), depth, layout)
  {
    var t := SkipSpace(s);
    SkipOutside(s, depth, layout);
    var c := t[0];
    var laid := Outside(t, depth, layout);
    if c == '}' || c == ']' {
      var rest := [c] + Outside(t[1..], Less(depth), layout);
      assert laid == NewLine(layout, Less(depth)) + rest;
      SkipNewLine(layout, Less(depth), rest);
    } else {
      assert laid[0] == c;
    }
  }

  // ---- Strings, numbers and literals -------------------------------------------------------

  lemma HexInside(s: string, depth: nat, layout: Layout)
    requires Hex4(s).Some?
    ensures Inside(s, false, depth, layout) == s[..4] + Inside(s[4..], false, depth, layout)
  {
    forall i | 0 <= i < 4 ensures s[i] != '"' && s[i] != '\\' {
      if s[0] == '+' {
        if i > 0 { assert s[1..4][i - 1] == s[i]; assert HexDigit(s[i]).Some?; }
      } else {
        assert s[..4][i] == s[i]; assert HexDigit(s[i]).Some?;
      }
    }
    InsidePlain(s, 4, depth, layout);
  }

  lemma {:induction false} InsidePlain(s: string, n: nat, depth: nat, layout: Layout)
    requires n <= |s|
    requires forall i | 0 <= i < n :: s[i] != '"' && s[i] != '\\'
    ensures Inside(s, false, depth, layout) == s[..n] + Inside(s[n..], false, depth, layout)
  {
    if n > 0 {
      InsidePlain(s[1..], n - 1, depth, layout);
      assert s[..n] == [s[0]] + s[1..][..n - 1];
      assert s[1..][n - 1..] == s[n..];
    }
  }

  /** Four hexadecimal digits read the same in the layout. */
  lemma HexLaid(s: string, depth: nat, layout: Layout)
    requires Hex4(s).Some?
    ensures var laid := Inside(s, false, depth, layout);
            Hex4(laid) == Hex4(s) && laid[4..] == Inside(s[4..], false, depth, layout)
  {
    HexInside(s, depth, layout);
    var laid := Inside(s, false, depth, layout);
    assert laid[..4] == s[..4];
    assert laid[1..4] == s[..4][1..] == s[1..4];
    assert laid[0] == s[..4][0];
  }

  /** The two characters after an escape read the same in the layout. */
  lemma PeekLaid(s: string, depth: nat, layout: Layout)
    requires ReadString(s).Some?
    ensures var laid := Inside(s, false, depth, layout);
            (|s| >= 2 && s[0] == '\\' && s[1] == 'u') <==> (|laid| >= 2 && laid[0] == '\\' && laid[1] == 'u')
  {
    if |s| >= 2 && s[0] == '\\' {
      assert s[1..][1..] == s[2..];
    }
  }

  /** An escaped character reads the same in the layout. */
  lemma UnicodeLaid(s: string, depth: nat, layout: Layout)
    requires ReadUnicode(s).Some? && ReadString(ReadUnicode(s).value.rest).Some?
    ensures var read := ReadUnicode(s).value;
            ReadUnicode(Inside(s, false, depth, layout)) ==
            Some(Reading(read.value, Inside(read.rest, false, depth, layout)))
  {
    hide Scalar, HexValue, HexDigit, ReadString;
    HexLaid(s, depth, layout);
    var first, after := Hex4(s).value, s[4..];
    if 0xD800 <= first < 0xDC00 && |after| >= 2 && after[0] == '\\' && after[1] == 'u' {
      assert after[1..][1..] == after[2..];
      var laid := Inside(after, false, depth, layout);
      assert laid[..2] == after[..2] && laid[2..] == Inside(after[2..], false, depth, layout);
      HexLaid(after[2..], depth, layout);
      assert laid[6..] == laid[2..][4..];
      assert after[6..] == after[2..][4..];
    } else {
      PeekLaid(after, depth, layout);
    }
  }

  lemma {:induction false} StringLaid(s: string, depth: nat, layout: Layout)
    requires ReadString(s).Some?
    ensures var read := ReadString(s).value;
            ReadString(Inside(s, false, depth, layout)) ==
            Some(Reading(read.value, Outside(read.rest, depth, layout)))
    decreases |s|
  {
    var laid := Inside(s, false, depth, layout);
    if s[0] == '"' {
      assert laid[1..] == Outside(s[1..], depth, layout);
    } else {
      CharLaid(s, depth, layout);
      StringLaid(ReadChar(s).value.rest, depth, layout);
    }
  }

  lemma CharLaid(s: string, depth: nat, layout: Layout)
    requires s != [] && s[0] != '"'
    requires ReadChar(s).Some? && ReadString(ReadChar(s).value.rest).Some?
    ensures var laid := Inside(s, false, depth, layout);
            laid != [] && laid[0] != '"' &&
            ReadChar(laid) == Some(Reading(ReadChar(s).value.value, Inside(ReadChar(s).value.rest, false, depth, layout)))
  {
    var laid := Inside(s, false, depth, layout);
    if s[0] == '\\' {
      assert s[1..][1..] == s[2..];
      assert laid[..2] == s[..2] && laid[2..] == Inside(s[2..], false, depth, layout);
      if s[1] == 'u' {
        UnicodeLaid(s[2..], depth, layout);
      }
    } else {
      assert laid[1..] == Inside(s[1..], false, depth, layout);
    }
  }

  /** Characters the layout leaves alone outside strings. */
  predicate Plain(c: char) {
    c != '"' && c != '{' && c != '[' && c != '}' && c != ']' && c != ',' && c != ':'
  }

  lemma {:induction false} OutsidePlain(s: string, n: nat, depth: nat, layout: Layout)
    requires n <= |s|
    requires forall i | 0 <= i < n :: Plain(s[i])
    ensures Outside(s, depth, layout) == s[..n] + Outside(s[n..], depth, layout)
  {
    if n > 0 {
      OutsidePlain(s[1..], n - 1, depth, layout);
      assert Outside(s, depth, layout) == [s[0]] + Outside(s[1..], depth, layout);
      hide Outside;
      assert s[..n] == [s[0]] + s[1..][..n - 1];
      assert s[1..][n - 1..] == s[n..];
    }
  }

  predicate PlainUpTo(s: string, n: nat) {
    n <= |s| && forall i | 0 <= i < n :: Plain(s[i])
  }

  lemma PlainJoin(s: string, a: nat, n: nat)
    requires PlainUpTo(s, a) && PlainUpTo(s[a..], n)
    ensures PlainUpTo(s, a + n)
  {
    forall i | a <= i < a + n ensures Plain(s[i]) {
      assert s[i] == s[a..][i - a];
    }
  }

  lemma FractionPlain(s: string)
    requires FractionLength(s).Some?
    ensures PlainUpTo(s, FractionLength(s).value)
  {
    if StartsWith(s, '.') {
      PlainJoin(s, 1, DigitRun(s[1..]));
    }
  }

  lemma ExponentPlain(s: string)
    requires ExponentLength(s).Some?
    ensures PlainUpTo(s, ExponentLength(s).value)
  {
    if ExponentLength(s).value > 0 {
      var sign := if StartsWith(s[1..], '+') || StartsWith(s[1..], '-') then 1 else 0;
      if sign == 1 { assert s[1..][0] == s[1]; }
      PlainJoin(s, 1 + sign, DigitRun(s[1 + sign..]));
    }
  }

  lemma FromFractionPlain(s: string, at: nat)
    requires PlainUpTo(s, at) && LengthFromFraction(s, at).Some?
    ensures PlainUpTo(s, LengthFromFraction(s, at).value)
  {
    FractionPlain(s[at..]);
    var b := at + FractionLength(s[at..]).value;
    PlainJoin(s, at, b - at);
    ExponentPlain(s[b..]);
    PlainJoin(s, b, ExponentLength(s[b..]).value);
  }

  /** A number has no character the layout touches. */
  lemma NumberPlain(s: string)
    requires NumberLength(s).Some?
    ensures PlainUpTo(s, NumberLength(s).value)
  {
    var sign := if StartsWith(s, '-') then 1 else 0;
    var integer := IntegerLength(s[sign..]).value;
    PlainJoin(s, sign, integer);
    FromFractionPlain(s, sign + integer);
  }

  lemma NumberLaid(s: string, depth: nat, layout: Layout)
    requires NumberLength(s).Some?
    ensures var n := NumberLength(s).value;
            Outside(s, depth, layout) == s[..n] + Outside(s[n..], depth, layout) &&
            NumberLength(Outside(s, depth, layout)) == Some(n)
  {
    var n := NumberLength(s).value;
    NumberPlain(s);
    OutsidePlain(s, n, depth, layout);
    var laid := Outside(s, depth, layout);
    var rest := Outside(s[n..], depth, layout);
    assert laid[..n] == s[..n] && laid[n..] == rest;
    OutsideStarts(s[n..], depth, layout);
    NumberAlike(s, laid);
  }

  /** The layout starts as the text does, or with a line break. */
  lemma OutsideStarts(s: string, depth: nat, layout: Layout)
    ensures var laid := Outside(s, depth, layout);
            if s == [] then laid == [] else laid != [] && (laid[0] == s[0] || laid[0] == '\n')
  {
  }

  lemma LiteralLaid(s: string, text: string, value: Value, depth: nat, layout: Layout)
    requires text != [] && text <= s && forall c | c in text :: Plain(c)
    ensures ReadLiteral(Outside(s, depth, layout), text, value) ==
            Some(Reading(value, Outside(s[|text|..], depth, layout)))
  {
    forall i | 0 <= i < |text| ensures Plain(s[i]) {
      assert s[i] == text[i];
    }
    OutsidePlain(s, |text|, depth, layout);
    var laid := Outside(s, depth, layout);
    assert s[..|text|] == text;
    assert laid[|text|..] == Outside(s[|text|..], depth, layout);
  }

  // ---- Values ------------------------------------------------------------------------------

  /** `read` of the text, moved to its layout `k` levels down. */
  function Laid<T>(read: Reading<T>, k: nat, layout: Layout): Reading<T> {
    Reading(read.value, Outside(read.rest, k, layout))
  }

  /** A bracket that opens a non-empty container, or one with space in it. */
  lemma OpenSeen(t: string, k: nat, layout: Layout)
    requires t != [] && (t[0] == '{' || t[0] == '[')
    ensures Outside(t, k, layout) != [] && Outside(t, k, layout)[0] == t[0]
    ensures if StartsWith(t[1..], Closing(t[0])) then Outside(t, k, layout)[1..] == [Closing(t[0])] + Outside(t[2..], k, layout)
            else Outside(t, k, layout)[1..] == NewLine(layout, k + 1) + Outside(t[1..], k + 1, layout)
  {
    var laid := Outside(t, k, layout);
    if StartsWith(t[1..], Closing(t[0])) {
      assert t[1] == t[1..][0];
      assert laid == [t[0], t[1]] + Outside(t[2..], k, layout);
    } else {
      assert |t| > 1 ==> t[1] == t[1..][0];
      assert laid == [t[0]] + (NewLine(layout, k + 1) + Outside(t[1..], k + 1, layout));
    }
  }

  /** A text that reads as a value, laid out `k` levels down, reads as that value. */
  lemma {:induction false} ValueLaid(s: string, depth: nat, k: nat, layout: Layout)
    requires BlankLayout(layout) && ReadValue(s, depth).Some?
    ensures ReadValue(Outside(s, k, layout), depth) == Some(Laid(ReadValue(s, depth).value, k, layout))
    decreases |s|, 1
  {
    var t := SkipSpace(s);
    SkipTwice(s);
    ReadValueSkips(s, t, depth);
    SkipToSeen(s, k, layout);
    ReadValueStarts(t, depth);
    ReadValueSkips(Outside(s, k, layout), Outside(t, k, layout), depth) by {
      SkipToSeen(t, k, layout);
    }
    if t[0] == '[' {
      ArrayLaid(t, depth, k, layout);
    } else if t[0] == '{' {
      ObjectLaid(t, depth, k, layout);
    } else {
      ScalarLaid(t, depth, k, layout);
    }
  }

  lemma ReadValueStarts(t: string, depth: nat)
    requires t != [] && !IsSpace(t[0]) && ReadValue(t, depth).Some?
    ensures t[0] != '}' && t[0] != ']' && depth <= MAX_DEPTH
  {
  }

  lemma ScalarLaid(t: string, depth: nat, k: nat, layout: Layout)
    requires t != [] && !IsSpace(t[0]) && t[0] != '[' && t[0] != '{'
    requires ReadValue(t, depth).Some?
    ensures ReadValue(Outside(t, k, layout), depth) == Some(Laid(ReadValue(t, depth).value, k, layout))
  {
    ReadValueStarts(t, depth);
    var laid := Outside(t, k, layout);
    assert laid != [] && laid[0] == t[0];
    if t[0] == '"' {
      StringValueLaid(t, depth, k, layout);
    } else if t[0] == 't' || t[0] == 'f' || t[0] == 'n' {
      LiteralValueLaid(t, depth, k, layout);
    } else {
      ReadValueNumber(t, depth);
      NumberLaid(t, k, layout);
      ReadValueNumber(laid, depth);
      var n := NumberLength(t).value;
      assert laid[..n] == t[..n] && laid[n..] == Outside(t[n..], k, layout);
    }
  }

  lemma StringValueLaid(t: string, depth: nat, k: nat, layout: Layout)
    requires StartsWith(t, '"') && ReadValue(t, depth).Some?
    ensures ReadValue(Outside(t, k, layout), depth) == Some(Laid(ReadValue(t, depth).value, k, layout))
  {
    var laid := Outside(t, k, layout);
    var read := ReadString(t[1..]).value;
    ReadValueString(t, depth, read);
    StringLaid(t[1..], k, layout);
    assert laid[1..] == Inside(t[1..], false, k, layout);
    ReadValueString(laid, depth, Laid(read, k, layout));
  }

  lemma LiteralValueLaid(t: string, depth: nat, k: nat, layout: Layout)
    requires StartsWith(t, 't') || StartsWith(t, 'f') || StartsWith(t, 'n')
    requires ReadValue(t, depth).Some?
    ensures ReadValue(Outside(t, k, layout), depth) == Some(Laid(ReadValue(t, depth).value, k, layout))
  {
    var laid := Outside(t, k, layout);
    assert laid[0] == t[0];
    if t[0] == 't' {
      LiteralLaid(t, "true", Bool(true), k, layout);
    } else if t[0] == 'f' {
      LiteralLaid(t, "false", Bool(false), k, layout);
    } else {
      LiteralLaid(t, "null", Null, k, layout);
    }
  }

  lemma {:induction false} ArrayLaid(t: string, depth: nat, k: nat, layout: Layout)
    requires BlankLayout(layout) && StartsWith(t, '[') && ReadValue(t, depth).Some?
    ensures ReadValue(Outside(t, k, layout), depth) == Some(Laid(ReadValue(t, depth).value, k, layout))
    decreases |t|, 0
  {
    var laid, u := Outside(t, k, layout), t[1..];
    ReadValueArray(t, depth);
    OpenSeen(t, k, layout);
    ReadValueArray(laid, depth);
    if StartsWith(u, ']') {
      assert u[1..] == t[2..];
      assert laid[1..][1..] == Outside(t[2..], k, layout);
    } else {
      ArrayBodyLaid(u, depth, k, layout);
    }
  }

  lemma {:induction false} ArrayBodyLaid(u: string, depth: nat, k: nat, layout: Layout)
    requires BlankLayout(layout) && ReadArray(u, depth).Some?
    ensures ReadArray(NewLine(layout, k + 1) + Outside(u, k + 1, layout), depth) ==
            Some(Laid(ReadArray(u, depth).value, k, layout))
    decreases |u|, 3
  {
    var body := Outside(u, k + 1, layout);
    var v := SkipSpace(u);
    SkipNewLine(layout, k + 1, body);
    SkipTwice(u);
    NothingReads(depth);
    if !StartsWith(v, ']') {
      ElementStarts(v, depth);
    }
    hide Outside, Inside, ReadElements, ReadValue, SkipSpace, NewLine, Seen;
    SkipToSeen(u, k + 1, layout);
    if StartsWith(v, ']') {
      CloseSeen(v, k, layout);
    } else {
      OpenlySeen(v, k + 1, layout);
      ElementsLaid(v, depth, k, layout);
    }
  }

  lemma NothingReads(depth: nat)
    ensures ReadElements([], depth).None? && ReadMembers([], depth).None?
  {
  }

  lemma ElementStarts(v: string, depth: nat)
    requires v != [] && !IsSpace(v[0]) && ReadElements(v, depth).Some?
    ensures v[0] != '}' && v[0] != ']'
  {
    ReadValueStarts(v, depth + 1);
  }

  /** A closing bracket is seen one level up. */
  lemma CloseSeen(v: string, k: nat, layout: Layout)
    requires v != [] && (v[0] == ']' || v[0] == '}')
    ensures Seen(v, k + 1, layout) != [] && Seen(v, k + 1, layout)[0] == v[0]
    ensures Seen(v, k + 1, layout)[1..] == Outside(v[1..], k, layout)
  {
  }

  /** Anything else is seen as it is laid out. */
  lemma OpenlySeen(v: string, k: nat, layout: Layout)
    requires v != [] && !IsSpace(v[0]) && v[0] != ']' && v[0] != '}'
    ensures Seen(v, k, layout) == Outside(v, k, layout) && Outside(v, k, layout) != [] && Outside(v, k, layout)[0] == v[0]
  {
  }

  lemma {:induction false} ElementsLaid(s: string, depth: nat, k: nat, layout: Layout)
    requires BlankLayout(layout) && ReadElements(s, depth).Some?
    ensures ReadElements(Outside(s, k + 1, layout), depth) == Some(Laid(ReadElements(s, depth).value, k, layout))
    decreases |s|, 2
  {
    ValueLaid(s, depth + 1, k + 1, layout);
    var after := ReadValue(s, depth + 1).value.rest;
    var v := SkipSpace(after);
    SkipToSeen(after, k + 1, layout);
    var seen := SkipSpace(Outside(after, k + 1, layout));
    if StartsWith(v, ',') {
      ElementsLaid(v[1..], depth, k, layout);
      CommaSeen(v, k + 1, layout);
      ReadElementsSkips(seen[1..], Outside(v[1..], k + 1, layout), depth);
    } else {
      assert seen[1..] == Outside(v[1..], k, layout);
    }
  }

  lemma CommaSeen(v: string, k: nat, layout: Layout)
    requires BlankLayout(layout) && StartsWith(v, ',')
    ensures StartsWith(Seen(v, k, layout), ',')
    ensures SkipSpace(Seen(v, k, layout)[1..]) == SkipSpace(Outside(v[1..], k, layout))
  {
    var rest := Outside(v[1..], k, layout);
    CommaLaid(v, k, layout);
    hide Outside, Seen, SkipSpace;
    assert ("," + (NewLine(layout, k) + rest))[1..] == NewLine(layout, k) + rest;
    SkipNewLine(layout, k, rest);
  }

  lemma CommaLaid(v: string, k: nat, layout: Layout)
    requires StartsWith(v, ',')
    ensures Seen(v, k, layout) == "," + (NewLine(layout, k) + Outside(v[1..], k, layout))
  {
    hide NewLine;
  }

  lemma ColonSeen(v: string, k: nat, layout: Layout)
    requires StartsWith(v, ':')
    ensures StartsWith(Seen(v, k, layout), ':')
    ensures SkipSpace(Seen(v, k, layout)[1..]) == SkipSpace(Outside(v[1..], k, layout))
  {
    var rest := Outside(v[1..], k, layout);
    assert Seen(v, k, layout)[1..] == " " + rest;
    SkipBlank(" ", rest);
  }

  lemma {:induction false} ObjectLaid(t: string, depth: nat, k: nat, layout: Layout)
    requires BlankLayout(layout) && StartsWith(t, '{') && ReadValue(t, depth).Some?
    ensures ReadValue(Outside(t, k, layout), depth) == Some(Laid(ReadValue(t, depth).value, k, layout))
    decreases |t|, 0
  {
    var laid, u := Outside(t, k, layout), t[1..];
    ReadValueObject(t, depth);
    OpenSeen(t, k, layout);
    ReadValueObject(laid, depth);
    if StartsWith(u, '}') {
      assert u[1..] == t[2..];
      assert laid[1..][1..] == Outside(t[2..], k, layout);
    } else {
      ObjectBodyLaid(u, depth, k, layout);
    }
  }

  lemma {:induction false} ObjectBodyLaid(u: string, depth: nat, k: nat, layout: Layout)
    requires BlankLayout(layout) && ReadObject(u, depth).Some?
    ensures ReadObject(NewLine(layout, k + 1) + Outside(u, k + 1, layout), depth) ==
            Some(Laid(ReadObject(u, depth).value, k, layout))
    decreases |u|, 3
  {
    var body := Outside(u, k + 1, layout);
    var v := SkipSpace(u);
    SkipNewLine(layout, k + 1, body);
    SkipTwice(u);
    NothingReads(depth);
    if !StartsWith(v, '}') {
      MemberStarts(u, depth);
    }
    hide Outside, Inside, ReadMembers, ReadValue, SkipSpace, NewLine, Seen;
    SkipToSeen(u, k + 1, layout);
    if StartsWith(v, '}') {
      CloseSeen(v, k, layout);
    } else {
      OpenlySeen(v, k + 1, layout);
      MembersLaid(v, depth, k, layout);
    }
  }

  lemma MemberStarts(u: string, depth: nat)
    requires ReadMembers(SkipSpace(u), depth).Some?
    ensures SkipSpace(u) != [] && SkipSpace(u)[0] == '"'
  {
    SkipTwice(u);
  }

  lemma {:induction false} MembersLaid(s: string, depth: nat, k: nat, layout: Layout)
    requires BlankLayout(layout) && ReadMembers(s, depth).Some?
    ensures ReadMembers(Outside(s, k + 1, layout), depth) == Some(Laid(ReadMembers(s, depth).value, k, layout))
    decreases |s|, 2
  {
    var t := SkipSpace(s);
    var key := ReadString(t[1..]).value;
    KeyLaid(s, k + 1, layout);
    var u := SkipSpace(key.rest);
    SkipToSeen(key.rest, k + 1, layout);
    ColonSeen(u, k + 1, layout);
    ValueLaid(u[1..], depth + 1, k + 1, layout);
    ReadValueSkips(Seen(u, k + 1, layout)[1..], Outside(u[1..], k + 1, layout), depth + 1);
    var after := ReadValue(u[1..], depth + 1).value.rest;
    var v := SkipSpace(after);
    SkipToSeen(after, k + 1, layout);
    var seen := Seen(v, k + 1, layout);
    if StartsWith(v, ',') {
      MembersLaid(v[1..], depth, k, layout);
      CommaSeen(v, k + 1, layout);
      ReadMembersSkips(seen[1..], Outside(v[1..], k + 1, layout), depth);
    } else {
      assert seen[1..] == Outside(v[1..], k, layout);
    }
  }

  lemma KeyLaid(s: string, k: nat, layout: Layout)
    requires BlankLayout(layout) && StartsWith(SkipSpace(s), '"') && ReadString(SkipSpace(s)[1..]).Some?
    ensures var seen := SkipSpace(Outside(s, k, layout));
            StartsWith(seen, '"') &&
            ReadString(seen[1..]) == Some(Laid(ReadString(SkipSpace(s)[1..]).value, k, layout))
  {
    var t := SkipSpace(s);
    SkipToSeen(s, k, layout);
    StringLaid(t[1..], k, layout);
    assert Outside(t, k, layout)[1..] == Inside(t[1..], false, k, layout);
  }

  /** Every text that parses, re-indented with blanks, parses as the same value. */
  lemma ParseIndented(text: string, layout: Layout)
    requires BlankLayout(layout) && Parse(text).Some?
    ensures Parse(Outside(text, 0, layout)) == Parse(text)
  {
    ValueLaid(text, 0, 0, layout);
    SkipOutside(ReadValue(text, 0).value.rest, 0, layout);
  }

  /** A final line break stays a final line break. */
  lemma {:induction false} OutsideLine(s: string, k: nat, layout: Layout)
    ensures Outside(s + "\n", k, layout) == Outside(s, k, layout) + "\n"
    decreases |s|
  {
    var t := s + "\n";
    if s == [] {
      assert t == "\n" && t[1..] == [];
    } else {
      assert t[1..] == s[1..] + "\n";
      var c := s[0];
      if c == '"' {
        InsideLine(s[1..], false, k, layout);
      } else if c == '{' || c == '[' {
        if |s| > 1 && s[1] == Closing(c) {
          assert t[2..] == s[2..] + "\n";
          OutsideLine(s[2..], k, layout);
        } else {
          OutsideLine(s[1..], k + 1, layout);
        }
      } else if c == '}' || c == ']' {
        OutsideLine(s[1..], Less(k), layout);
      } else {
        OutsideLine(s[1..], k, layout);
      }
    }
  }

  lemma {:induction false} InsideLine(s: string, escaped: bool, k: nat, layout: Layout)
    ensures Inside(s + "\n", escaped, k, layout) == Inside(s, escaped, k, layout) + "\n"
    decreases |s|
  {
    var t := s + "\n";
    if s == [] {
      assert t == "\n" && t[1..] == [];
    } else {
      assert t[1..] == s[1..] + "\n";
      if !escaped && s[0] == '"' {
        OutsideLine(s[1..], k, layout);
      } else {
        InsideLine(s[1..], !escaped && s[0] == '\\', k, layout);
      }
    }
  }

  // ---- The layout of what the writers write ------------------------------------------------

  /** A value as `json.MarshalIndent` lays it out, `k` levels down. */
  function Pretty(value: Value, escapeHtml: bool, k: nat, layout: Layout): string
    decreases value, 1
  {
    match value
    case Array(elements) =>
      if elements == [] then "[]"
      else "[" + NewLine(layout, k + 1) + PrettyElements(elements, escapeHtml, k + 1, layout) + NewLine(layout, k) + "]"
    case Object(members) =>
      if members == [] then "{}"
      else "{" + NewLine(layout, k + 1) + PrettyMembers(members, escapeHtml, k + 1, layout) + NewLine(layout, k) + "}"
    case _ => Write(value, escapeHtml)
  }

  /** One element a line. */
  function PrettyElements(elements: seq<Value>, escapeHtml: bool, k: nat, layout: Layout): string
    requires elements != []
    decreases elements, 0
  {
    Pretty(elements[0], escapeHtml, k, layout) +
    if |elements| == 1 then "" else "," + NewLine(layout, k) + PrettyElements(elements[1..], escapeHtml, k, layout)
  }

  function PrettyMembers(members: seq<Member>, escapeHtml: bool, k: nat, layout: Layout): string
    requires members != []
    decreases members, 0
  {
    WriteString(members[0].key, true) + ": " + Pretty(members[0].value, escapeHtml, k, layout) +
    if |members| == 1 then "" else "," + NewLine(layout, k) + PrettyMembers(members[1..], escapeHtml, k, layout)
  }

  /** A line starts with the prefix and as many indents as it is levels down. */
  lemma {:induction false} NewLineMeans(layout: Layout, k: nat)
    ensures NewLine(layout, 0) == "\n" + layout.prefix
    ensures NewLine(layout, k + 1) == NewLine(layout, k) + layout.indent
  {
    assert layout.indent + [] == layout.indent;
    RepeatMore(layout.indent, k);
  }

  lemma {:induction false} RepeatMore(s: string, n: nat)
    ensures Repeat(s, n + 1) == Repeat(s, n) + s
  {
    if n == 0 {
      assert s + [] == [] + s;
    } else {
      RepeatMore(s, n - 1);
      assert s + (Repeat(s, n - 1) + s) == s + Repeat(s, n - 1) + s;
    }
  }

  lemma InsideEscape(c: char, escapeHtml: bool, more: string, k: nat, layout: Layout)
    ensures var p := EscapeChar(c, escapeHtml); Inside(p + more, false, k, layout) == p + Inside(more, false, k, layout)
  {
    var p := EscapeChar(c, escapeHtml);
    var s := p + more;
    if |p| == 1 {
      assert s[1..] == more;
    } else if |p| == 2 {
      assert s[1..][1..] == more && s[1..][0] == p[1];
    } else {
      InsideCode(c as int, more, k, layout);
      assert s == "\\u" + (HexText(c as int) + more);
    }
  }

  lemma InsideCode(code: nat, more: string, k: nat, layout: Layout)
    requires code < 0x1_0000
    ensures Inside("\\u" + (HexText(code) + more), false, k, layout) == "\\u" + HexText(code) + Inside(more, false, k, layout)
  {
    HexLower(code);
    hide HexText;
    var text := HexText(code);
    var s := text + more;
    forall i | 0 <= i < |text| ensures s[i] != '"' && s[i] != '\\' {
      assert s[i] == text[i] && text[i] in text;
    }
    InsidePlain(s, |text|, k, layout);
    assert s[..|text|] == text && s[|text|..] == more;
    var t := "\\u" + s;
    assert t[1..][0] == 'u' && t[1..][1..] == s;
  }

  lemma {:induction false} InsideEscaped(text: string, escapeHtml: bool, rest: string, k: nat, layout: Layout)
    ensures Inside(EscapeText(text, escapeHtml) + ("\"" + rest), false, k, layout) ==
            EscapeText(text, escapeHtml) + ("\"" + Outside(rest, k, layout))
  {
    hide EscapeChar, Inside, Outside;
    var end, laid := "\"" + rest, "\"" + Outside(rest, k, layout);
    if text == [] {
      InsideQuote(rest, k, layout);
      assert [] + end == end && [] + laid == laid;
    } else {
      var p, more := EscapeChar(text[0], escapeHtml), EscapeText(text[1..], escapeHtml);
      InsideEscape(text[0], escapeHtml, more + end, k, layout);
      InsideEscaped(text[1..], escapeHtml, rest, k, layout);
      Associate(p, more, end);
      Associate(p, more, laid);
    }
  }

  lemma Associate(a: string, b: string, c: string)
    ensures a + (b + c) == a + b + c
  {
  }

  lemma InsideQuote(rest: string, k: nat, layout: Layout)
    ensures Inside("\"" + rest, false, k, layout) == "\"" + Outside(rest, k, layout)
  {
    hide Outside;
    assert ("\"" + rest)[1..] == rest;
  }

  lemma StringPretty(text: string, escapeHtml: bool, rest: string, k: nat, layout: Layout)
    ensures Outside(WriteString(text, escapeHtml) + rest, k, layout) == WriteString(text, escapeHtml) + Outside(rest, k, layout)
  {
    hide EscapeText, Inside, Outside;
    var body := EscapeText(text, escapeHtml);
    InsideEscaped(text, escapeHtml, rest, k, layout);
    assert WriteString(text, escapeHtml) + rest == "\"" + (body + ("\"" + rest));
    QuoteLaid(body + ("\"" + rest), k, layout);
    Regroup("\"", body, "\"", Outside(rest, k, layout));
  }

  lemma QuoteLaid(more: string, k: nat, layout: Layout)
    ensures Outside("\"" + more, k, layout) == "\"" + Inside(more, false, k, layout)
  {
    hide Inside;
    assert ("\"" + more)[1..] == more;
  }

  lemma PlainPretty(text: string, rest: string, k: nat, layout: Layout)
    requires forall i | 0 <= i < |text| :: Plain(text[i])
    ensures Outside(text + rest, k, layout) == text + Outside(rest, k, layout)
  {
    var s := text + rest;
    OutsidePlain(s, |text|, k, layout);
    assert s[..|text|] == text && s[|text|..] == rest;
  }

  lemma ScalarPretty(value: Value, escapeHtml: bool, rest: string, k: nat, layout: Layout)
    requires Writable(value) && !value.Array? && !value.Object?
    ensures Outside(Write(value, escapeHtml) + rest, k, layout) == Write(value, escapeHtml) + Outside(rest, k, layout)
  {
    hide EscapeText, Outside, Inside, NumberLength;
    if value.String? {
      StringPretty(value.text, escapeHtml, rest, k, layout);
    } else {
      if value.Number? {
        NumberPlain(value.text);
      }
      PlainPretty(Write(value, escapeHtml), rest, k, layout);
    }
  }

  /** Laying out what the writers write is `json.MarshalIndent`. */
  lemma {:induction false} WrittenIsPretty(value: Value, escapeHtml: bool, rest: string, k: nat, layout: Layout)
    requires Writable(value)
    ensures Outside(Write(value, escapeHtml) + rest, k, layout) == Pretty(value, escapeHtml, k, layout) + Outside(rest, k, layout)
    decreases value, 1
  {
    match value
    case Array(elements) =>
      if elements != [] {
        ElementsPretty(elements, escapeHtml, rest, k, layout);
      }
      ArrayPretty(elements, escapeHtml, rest, k, layout);
    case Object(members) =>
      if members != [] {
        MembersPretty(members, escapeHtml, rest, k, layout);
      }
      ObjectPretty(members, escapeHtml, rest, k, layout);
    case _ => ScalarPretty(value, escapeHtml, rest, k, layout);
  }

  lemma ArrayPretty(elements: seq<Value>, escapeHtml: bool, rest: string, k: nat, layout: Layout)
    requires Writable(Array(elements))
    requires elements != [] ==>
               Outside(WriteElements(elements, escapeHtml) + ("]" + rest), k + 1, layout) ==
               PrettyElements(elements, escapeHtml, k + 1, layout) + (NewLine(layout, k) + "]" + Outside(rest, k, layout))
    ensures Outside(Write(Array(elements), escapeHtml) + rest, k, layout) ==
            Pretty(Array(elements), escapeHtml, k, layout) + Outside(rest, k, layout)
  {
    hide Write, WriteElements, PrettyElements, NewLine, Spells, Outside;
    ContainerTexts(elements, [], escapeHtml);
    if elements == [] {
      EmptyLaid('[', rest, k, layout);
    } else {
      var inner := WriteElements(elements, escapeHtml) + ("]" + rest);
      WriteSpells(elements[0], escapeHtml);
      SpelledStarts(Write(elements[0], escapeHtml), elements[0]);
      ElementsStart(elements, escapeHtml);
      OpenLaid('[', inner, k, layout);
      assert Write(Array(elements), escapeHtml) + rest == "[" + inner;
      Regroup("[" + NewLine(layout, k + 1), PrettyElements(elements, escapeHtml, k + 1, layout), NewLine(layout, k) + "]",
              Outside(rest, k, layout));
    }
  }

  lemma ContainerTexts(elements: seq<Value>, members: seq<Member>, escapeHtml: bool)
    ensures Write(Array(elements), escapeHtml) == if elements == [] then "[]" else "[" + WriteElements(elements, escapeHtml) + "]"
    ensures Write(Object(members), escapeHtml) == if members == [] then "{}" else "{" + WriteMembers(members, escapeHtml) + "}"
    ensures members != [] ==> StartsWith(WriteMembers(members, escapeHtml), '"')
  {
  }

  lemma ElementsStart(elements: seq<Value>, escapeHtml: bool)
    requires elements != [] && Write(elements[0], escapeHtml) != []
    ensures StartsWith(WriteElements(elements, escapeHtml), Write(elements[0], escapeHtml)[0])
  {
    hide Write;
  }

  lemma EmptyLaid(c: char, rest: string, k: nat, layout: Layout)
    requires c == '{' || c == '['
    ensures Outside([c, Closing(c)] + rest, k, layout) == [c, Closing(c)] + Outside(rest, k, layout)
  {
    assert ([c, Closing(c)] + rest)[2..] == rest;
  }

  lemma OpenLaid(c: char, inner: string, k: nat, layout: Layout)
    requires (c == '{' || c == '[') && !StartsWith(inner, Closing(c))
    ensures Outside([c] + inner, k, layout) == [c] + NewLine(layout, k + 1) + Outside(inner, k + 1, layout)
  {
    hide NewLine;
    assert ([c] + inner)[1..] == inner;
  }

  lemma Regroup(a: string, b: string, c: string, d: string)
    ensures a + (b + (c + d)) == a + b + c + d
  {
  }

  lemma {:induction false} ElementsPretty(elements: seq<Value>, escapeHtml: bool, rest: string, k: nat, layout: Layout)
    requires elements != [] && forall e | e in elements :: Writable(e)
    ensures Outside(WriteElements(elements, escapeHtml) + ("]" + rest), k + 1, layout) ==
            PrettyElements(elements, escapeHtml, k + 1, layout) + (NewLine(layout, k) + "]" + Outside(rest, k, layout))
    decreases elements, 0
  {
    hide Write, Pretty, NewLine, Outside, WriteElements, PrettyElements;
    ElementsTexts(elements, escapeHtml, rest, k, layout);
    if |elements| == 1 {
      WrittenIsPretty(elements[0], escapeHtml, "]" + rest, k + 1, layout);
      CloseLaid(']', rest, k, layout);
    } else {
      var more := WriteElements(elements[1..], escapeHtml) + ("]" + rest);
      WrittenIsPretty(elements[0], escapeHtml, "," + more, k + 1, layout);
      ElementsPretty(elements[1..], escapeHtml, rest, k, layout);
      CommaPretty(more, k + 1, layout);
      Regroup(Pretty(elements[0], escapeHtml, k + 1, layout), "," + NewLine(layout, k + 1),
              PrettyElements(elements[1..], escapeHtml, k + 1, layout), NewLine(layout, k) + "]" + Outside(rest, k, layout));
    }
  }

  lemma ElementsTexts(elements: seq<Value>, escapeHtml: bool, rest: string, k: nat, layout: Layout)
    requires elements != []
    ensures var first, pretty := Write(elements[0], escapeHtml), Pretty(elements[0], escapeHtml, k + 1, layout);
            if |elements| == 1 then
              WriteElements(elements, escapeHtml) == first && PrettyElements(elements, escapeHtml, k + 1, layout) == pretty
            else
              WriteElements(elements, escapeHtml) + ("]" + rest) ==
              first + ("," + (WriteElements(elements[1..], escapeHtml) + ("]" + rest))) &&
              PrettyElements(elements, escapeHtml, k + 1, layout) ==
              pretty + ("," + NewLine(layout, k + 1)) + PrettyElements(elements[1..], escapeHtml, k + 1, layout)
  {
    hide Write, Pretty, NewLine;
  }

  lemma CloseLaid(c: char, rest: string, k: nat, layout: Layout)
    requires c == ']' || c == '}'
    ensures Outside([c] + rest, k + 1, layout) == NewLine(layout, k) + [c] + Outside(rest, k, layout)
  {
    assert ([c] + rest)[1..] == rest;
  }

  lemma CommaPretty(more: string, k: nat, layout: Layout)
    ensures Outside("," + more, k, layout) == "," + NewLine(layout, k) + Outside(more, k, layout)
  {
    assert ("," + more)[1..] == more;
  }

  lemma ColonPretty(more: string, k: nat, layout: Layout)
    ensures Outside(":" + more, k, layout) == ": " + Outside(more, k, layout)
  {
    assert (":" + more)[1..] == more;
  }

  lemma ObjectPretty(members: seq<Member>, escapeHtml: bool, rest: string, k: nat, layout: Layout)
    requires members != [] ==>
               Outside(WriteMembers(members, escapeHtml) + ("}" + rest), k + 1, layout) ==
               PrettyMembers(members, escapeHtml, k + 1, layout) + (NewLine(layout, k) + "}" + Outside(rest, k, layout))
    ensures Outside(Write(Object(members), escapeHtml) + rest, k, layout) ==
            Pretty(Object(members), escapeHtml, k, layout) + Outside(rest, k, layout)
  {
    hide Write, WriteMembers, PrettyMembers, NewLine, Outside;
    ContainerTexts([], members, escapeHtml);
    if members == [] {
      EmptyLaid('{', rest, k, layout);
    } else {
      var inner := WriteMembers(members, escapeHtml) + ("}" + rest);
      OpenLaid('{', inner, k, layout);
      assert Write(Object(members), escapeHtml) + rest == "{" + inner;
      Regroup("{" + NewLine(layout, k + 1), PrettyMembers(members, escapeHtml, k + 1, layout), NewLine(layout, k) + "}",
              Outside(rest, k, layout));
    }
  }

  /** A key and its value. */
  lemma MemberPretty(member: Member, escapeHtml: bool, rest: string, k: nat, layout: Layout)
    requires Outside(Write(member.value, escapeHtml) + rest, k, layout) ==
             Pretty(member.value, escapeHtml, k, layout) + Outside(rest, k, layout)
    ensures Outside(WriteMember(member, escapeHtml) + rest, k, layout) ==
            WriteString(member.key, true) + ": " + Pretty(member.value, escapeHtml, k, layout) + Outside(rest, k, layout)
  {
    hide Write, Pretty, NewLine, Outside, WriteString;
    var key, value := WriteString(member.key, true), Write(member.value, escapeHtml);
    assert WriteMember(member, escapeHtml) + rest == key + (":" + (value + rest));
    StringPretty(member.key, true, ":" + (value + rest), k, layout);
    ColonPretty(value + rest, k, layout);
    Regroup(key, ": ", Pretty(member.value, escapeHtml, k, layout), Outside(rest, k, layout));
  }

  lemma {:induction false} MembersPretty(members: seq<Member>, escapeHtml: bool, rest: string, k: nat, layout: Layout)
    requires members != [] && forall m | m in members :: Writable(m.value)
    ensures Outside(WriteMembers(members, escapeHtml) + ("}" + rest), k + 1, layout) ==
            PrettyMembers(members, escapeHtml, k + 1, layout) + (NewLine(layout, k) + "}" + Outside(rest, k, layout))
    decreases members, 0
  {
    hide Write, WriteMember, WriteString, Pretty, NewLine, Outside;
    if |members| == 1 {
      WrittenIsPretty(members[0].value, escapeHtml, "}" + rest, k + 1, layout);
      MemberPretty(members[0], escapeHtml, "}" + rest, k + 1, layout);
      CloseLaid('}', rest, k, layout);
    } else {
      var first, more := WriteMember(members[0], escapeHtml), WriteMembers(members[1..], escapeHtml) + ("}" + rest);
      WrittenIsPretty(members[0].value, escapeHtml, "," + more, k + 1, layout);
      MemberPretty(members[0], escapeHtml, "," + more, k + 1, layout);
      MembersPretty(members[1..], escapeHtml, rest, k, layout);
      CommaPretty(more, k + 1, layout);
      assert WriteMembers(members, escapeHtml) + ("}" + rest) == first + ("," + more);
      Regroup(WriteString(members[0].key, true) + ": " + Pretty(members[0].value, escapeHtml, k + 1, layout),
              "," + NewLine(layout, k + 1), PrettyMembers(members[1..], escapeHtml, k + 1, layout),
              NewLine(layout, k) + "}" + Outside(rest, k, layout));
    }
  }
}
