/**
 * What a JSON text is of which value, by the grammar of RFC 8259 and apart from the reader and the
 * writers of `gojson.rs`, and that the reader reads exactly that.
 */
module JsonGrammar {

  import opened Common
  import opened GoJson

  // ---- Strings: section 7 of RFC 8259 ------------------------------------------------------

  /** Section 2: the characters allowed around tokens. */
  predicate Space(s: string) {
    forall c | c in s :: c in " \t\r\n"
  }

  const HEX_LOWER := "0123456789abcdef"
  const HEX_UPPER := "0123456789ABCDEF"

  predicate IsHex(c: char, digit: nat) {
    digit < 16 && (c == HEX_LOWER[digit] || c == HEX_UPPER[digit])
  }

  /** Four hexadecimal digits; the source also takes a plus sign for the first. */
  ghost predicate IsCode(s: string, code: nat) {
    |s| == 4 &&
    exists a: nat, b: nat, c: nat, d: nat ::
      (IsHex(s[0], a) || (s[0] == '+' && a == 0)) && IsHex(s[1], b) && IsHex(s[2], c) && IsHex(s[3], d) &&
      code == 4096 * a + 256 * b + 16 * c + d
  }

  predicate IsHigh(code: nat) {
    0xD800 <= code <= 0xDBFF
  }

  predicate IsLow(code: nat) {
    0xDC00 <= code <= 0xDFFF
  }

  /** An escaped code in front. */
  ghost predicate StartsCode(s: string, code: nat) {
    |s| >= 6 && s[0] == '\\' && s[1] == 'u' && IsCode(s[2..6], code)
  }

  /** The letters that escape a character, and its code. */
  predicate IsLetter(letter: char, code: int) {
    (letter == '"' && code == 0x22) || (letter == '\\' && code == 0x5C) || (letter == '/' && code == 0x2F) ||
    (letter == 'b' && code == 0x08) || (letter == 'f' && code == 0x0C) || (letter == 'n' && code == 0x0A) ||
    (letter == 'r' && code == 0x0D) || (letter == 't' && code == 0x09)
  }

  /**
   * How a character is spelled in front of more of the string: by itself, by a letter, by its code, or
   * beyond the basic plane by a pair of surrogates. A surrogate that is not half of a pair spells the
   * replacement character.
   */
  ghost predicate Piece(p: string, c: char, after: string) {
    (|p| == 1 && p[0] == c && c != '"' && c != '\\' && c as int >= 0x20) ||
    (|p| == 2 && p[0] == '\\' && IsLetter(p[1], c as int)) ||
    (|p| == 6 && exists code: nat | StartsCode(p, code) ::
       if IsHigh(code) || IsLow(code) then
         c == '\U{FFFD}' && !(IsHigh(code) && exists low: nat | IsLow(low) :: StartsCode(after, low))
       else c as int == code) ||
    (|p| == 12 && exists high: nat, low: nat | IsHigh(high) && IsLow(low) ::
       StartsCode(p[..6], high) && StartsCode(p[6..], low) && c as int == 0x1_0000 + 0x400 * (high - 0xD800) + (low - 0xDC00))
  }

  /** The text between a string's quotes. */
  ghost predicate Body(t: string, text: string)
    decreases |text|
  {
    if text == [] then t == []
    else exists k | 0 < k <= |t| :: Piece(t[..k], text[0], t[k..]) && Body(t[k..], text[1..])
  }

  ghost predicate StringText(t: string, text: string) {
    |t| >= 2 && t[0] == '"' && t[|t| - 1] == '"' && Body(t[1..|t| - 1], text)
  }

  // ---- Numbers: section 6 ------------------------------------------------------------------

  predicate Digits(s: string) {
    s != [] && forall c | c in s :: c in "0123456789"
  }

  predicate IntegerText(s: string) {
    s == "0" || (Digits(s) && s[0] != '0')
  }

  predicate FractionText(s: string) {
    s == [] || (s[0] == '.' && Digits(s[1..]))
  }

  predicate ExponentText(s: string) {
    s == [] || (s[0] in "eE" && (Digits(s[1..]) || (|s| > 1 && s[1] in "+-" && Digits(s[2..]))))
  }

  ghost predicate NumberText(s: string) {
    exists a, b, c | 0 <= a <= b <= c <= |s| ::
      (s[..a] == "" || s[..a] == "-") && IntegerText(s[a..b]) && FractionText(s[b..c]) && ExponentText(s[c..])
  }

  // ---- Values: sections 3 to 5 -------------------------------------------------------------

  ghost predicate Spells(t: string, value: Value)
    decreases value, 2
  {
    match value
    case Null => t == "null"
    case Bool(flag) => t == if flag then "true" else "false"
    case Number(text) => t == text && NumberText(t)
    case String(text) => StringText(t, text)
    case Array(elements) =>
      |t| >= 2 && t[0] == '[' && t[|t| - 1] == ']' &&
      if elements == [] then Space(t[1..|t| - 1]) else ElementsText(t[1..|t| - 1], elements)
    case Object(members) =>
      |t| >= 2 && t[0] == '{' && t[|t| - 1] == '}' &&
      if members == [] then Space(t[1..|t| - 1]) else MembersText(t[1..|t| - 1], members)
  }

  /** With space around it. */
  ghost predicate Padded(t: string, value: Value)
    decreases value, 3
  {
    exists i, j | 0 <= i <= j <= |t| :: Space(t[..i]) && Spells(t[i..j], value) && Space(t[j..])
  }

  ghost predicate ElementsText(t: string, elements: seq<Value>)
    requires elements != []
    decreases elements, 0
  {
    if |elements| == 1 then Padded(t, elements[0])
    else exists k | 0 <= k < |t| :: t[k] == ',' && Padded(t[..k], elements[0]) && ElementsText(t[k + 1..], elements[1..])
  }

  ghost predicate MemberText(t: string, member: Member)
    decreases member, 4
  {
    exists i, j, k | 0 <= i <= j <= k < |t| ::
      Space(t[..i]) && StringText(t[i..j], member.key) && Space(t[j..k]) && t[k] == ':' && Padded(t[k + 1..], member.value)
  }

  ghost predicate MembersText(t: string, members: seq<Member>)
    requires members != []
    decreases members, 0
  {
    if |members| == 1 then MemberText(t, members[0])
    else exists k | 0 <= k < |t| :: t[k] == ',' && MemberText(t[..k], members[0]) && MembersText(t[k + 1..], members[1..])
  }

  // ---- Reading hexadecimal codes -----------------------------------------------------------

  lemma HexDigitIs(c: char, digit: nat)
    ensures HexDigit(c) == Some(digit) <==> IsHex(c, digit)
  {
  }

  /** The value of a digit that may be missing. */
  lemma HexIs(c: char)
    ensures HexDigit(c).Some? ==> IsHex(c, HexDigit(c).value)
    ensures forall digit: nat | IsHex(c, digit) :: HexDigit(c) == Some(digit)
  {
    if HexDigit(c).Some? {
      HexDigitIs(c, HexDigit(c).value);
    }
    forall digit: nat | IsHex(c, digit) ensures HexDigit(c) == Some(digit) {
      HexDigitIs(c, digit);
    }
  }

  lemma PlusIsNoDigit()
    ensures HexDigit('+').None?
  {
  }

  lemma CodeReads(s: string, code: nat)
    requires |s| >= 4
    ensures Hex4(s) == Some(code) <==> IsCode(s[..4], code)
  {
    hide HexDigit, IsHex, HexValue;
    var t := s[..4];
    assert s[1..4] == t[1..];
    FourValues(t);
    HexIs(t[0]);
    HexIs(t[1]);
    HexIs(t[2]);
    HexIs(t[3]);
    PlusIsNoDigit();
    if Hex4(s) == Some(code) {
      var a := if t[0] == '+' then 0 else HexDigit(t[0]).value;
      assert (IsHex(t[0], a) || (t[0] == '+' && a == 0)) && IsHex(t[1], HexDigit(t[1]).value) &&
             IsHex(t[2], HexDigit(t[2]).value) && IsHex(t[3], HexDigit(t[3]).value);
    }
  }

  lemma FourValues(t: string)
    requires |t| == 4
    ensures HexValue(t, 0) ==
            match (HexDigit(t[0]), HexDigit(t[1]), HexDigit(t[2]), HexDigit(t[3]))
            case (Some(a), Some(b), Some(c), Some(d)) => Some(4096 * a + 256 * b + 16 * c + d)
            case _ => None
    ensures HexValue(t[1..], 0) ==
            match (HexDigit(t[1]), HexDigit(t[2]), HexDigit(t[3]))
            case (Some(b), Some(c), Some(d)) => Some(256 * b + 16 * c + d)
            case _ => None
  {
    if HexDigit(t[0]).Some? {
      ThreeValues(t[1..], HexDigit(t[0]).value);
    }
    ThreeValues(t[1..], 0);
  }

  lemma ThreeValues(t: string, soFar: nat)
    requires |t| == 3
    ensures HexValue(t, soFar) ==
            match (HexDigit(t[0]), HexDigit(t[1]), HexDigit(t[2]))
            case (Some(b), Some(c), Some(d)) => Some(4096 * soFar + 256 * b + 16 * c + d)
            case _ => None
  {
    hide HexDigit;
    var u, v := t[1..], t[2..];
    assert u[1..] == v && v[1..] == [];
    forall x: nat ensures HexValue(v, x) == match HexDigit(t[2]) case None => None case Some(d) => Some(16 * x + d) {
      assert HexValue([], x) == Some(x);
    }
    forall x: nat ensures HexValue(u, x) == match HexDigit(t[1]) case None => None case Some(c) => HexValue(v, 16 * x + c) {
    }
  }

  // ---- Reading strings ---------------------------------------------------------------------

  /** A piece in front of more of a string reads as its character. */
  lemma PieceReads(p: string, c: char, after: string, text: string, rest: string)
    requires Piece(p, c, after) && Body(after, text)
    ensures p != [] && p[0] != '"'
    ensures ReadChar(p + (after + "\"" + rest)) == Some(Reading(c, after + "\"" + rest))
  {
    var more := after + "\"" + rest;
    var s := p + more;
    if |p| == 1 {
      assert s[1..] == more;
    } else if |p| == 2 {
      assert s[2..] == more;
    } else {
      assert s[2..] == p[2..] + more;
      UnicodeReads(p, c, after, text, rest);
    }
  }

  /** An escaped code in front reads as the code. */
  lemma StartsReads(s: string, code: nat, more: string)
    requires StartsCode(s, code)
    ensures |s| >= 6 && s[0] == '\\' && s[1] == 'u' && |s[2..] + more| >= 4 && Hex4(s[2..] + more) == Some(code)
  {
    hide IsCode, Hex4;
    var u := s[2..] + more;
    assert u[..4] == s[2..6];
    CodeReads(u, code);
  }

  lemma ReadsSingle(u: string, code: nat)
    requires |u| >= 4 && Hex4(u) == Some(code)
    requires IsHigh(code) && |u| >= 6 && u[4] == '\\' && u[5] == 'u' ==> Hex4(u[6..]).Some? && !IsLow(Hex4(u[6..]).value)
    ensures ReadUnicode(u) == Some(Reading(Scalar(code), u[4..]))
    ensures code <= 0xFFFF
    ensures Scalar(code) == if IsHigh(code) || IsLow(code) then '\U{FFFD}' else code as char
  {
    CodeBound(u);
    hide Hex4;
    assert |u[4..]| >= 2 ==> u[4..][2..] == u[6..];
  }

  lemma CodeBound(u: string)
    requires |u| >= 4 && Hex4(u).Some?
    ensures Hex4(u).value <= 0xFFFF
  {
    FourValues(u[..4]);
    assert u[1..4] == u[..4][1..];
  }

  lemma ReadsPair(u: string, high: nat, low: nat)
    requires |u| >= 10 && Hex4(u) == Some(high) && IsHigh(high) && u[4] == '\\' && u[5] == 'u'
    requires Hex4(u[6..]) == Some(low) && IsLow(low)
    ensures ReadUnicode(u) == Some(Reading((0x1_0000 + 0x400 * (high - 0xD800) + (low - 0xDC00)) as char, u[10..]))
  {
    hide Hex4;
    assert u[4..][2..] == u[6..] && u[4..][6..] == u[10..];
  }

  lemma UnicodeReads(p: string, c: char, after: string, text: string, rest: string)
    requires |p| >= 6 && Piece(p, c, after) && Body(after, text)
    ensures p[0] == '\\' && p[1] == 'u'
    ensures ReadUnicode(p[2..] + (after + "\"" + rest)) == Some(Reading(c, after + "\"" + rest))
  {
    if |p| == 12 {
      PairReads(p, c, after, after + "\"" + rest);
    } else {
      SingleReads(p, c, after, text, rest);
    }
  }

  lemma PairReads(p: string, c: char, after: string, more: string)
    requires |p| == 12 && Piece(p, c, after)
    ensures p[0] == '\\' && p[1] == 'u' && ReadUnicode(p[2..] + more) == Some(Reading(c, more))
  {
    hide StartsCode, Hex4, ReadUnicode;
    var high: nat, low: nat :| IsHigh(high) && IsLow(low) && StartsCode(p[..6], high) && StartsCode(p[6..], low) &&
                               c as int == 0x1_0000 + 0x400 * (high - 0xD800) + (low - 0xDC00);
    StartsReads(p[..6], high, p[6..] + more);
    StartsReads(p[6..], low, more);
    var u := p[2..] + more;
    assert u == p[..6][2..] + (p[6..] + more);
    assert u[6..] == p[6..][2..] + more && u[10..] == more;
    ReadsPair(u, high, low);
  }

  lemma SingleReads(p: string, c: char, after: string, text: string, rest: string)
    requires |p| == 6 && Piece(p, c, after) && Body(after, text)
    ensures p[0] == '\\' && p[1] == 'u'
    ensures ReadUnicode(p[2..] + (after + "\"" + rest)) == Some(Reading(c, after + "\"" + rest))
  {
    hide StartsCode, Hex4, ReadUnicode, Body;
    var more := after + "\"" + rest;
    var u := p[2..] + more;
    var code: nat :| StartsCode(p, code) &&
      if IsHigh(code) || IsLow(code) then
        c == '\U{FFFD}' && !(IsHigh(code) && exists low: nat | IsLow(low) :: StartsCode(after, low))
      else c as int == code;
    StartsReads(p, code, more);
    assert u[4..] == more && (|u| >= 6 ==> u[6..] == more[2..]);
    if IsHigh(code) {
      LoneReads(after, text, rest);
    }
    ReadsSingle(u, code);
  }

  /** What follows a surrogate that is no half of a pair: another code, that is no low surrogate, or none. */
  lemma LoneReads(after: string, text: string, rest: string)
    requires Body(after, text) && !exists low: nat | IsLow(low) :: StartsCode(after, low)
    ensures var more := after + "\"" + rest;
            |more| >= 2 && more[0] == '\\' && more[1] == 'u' ==>
              Hex4(more[2..]).Some? && !IsLow(Hex4(more[2..]).value)
  {
    hide Hex4, StartsCode;
    var more := after + "\"" + rest;
    assert more[0] == if after == [] then '"' else after[0];
    if |more| >= 2 && more[0] == '\\' && more[1] == 'u' {
      var k :| 0 < k <= |after| && Piece(after[..k], text[0], after[k..]) && Body(after[k..], text[1..]);
      var code := PieceCode(after[..k], text[0], after[k..], more[1]);
      StartsMore(after[..k], code, after);
      StartsReads(after, code, "\"" + rest);
      TailOf(after, "\"" , rest);
    }
  }

  lemma TailOf(a: string, b: string, c: string)
    requires |a| >= 2
    ensures (a + b + c)[2..] == a[2..] + (b + c)
  {
  }

  /** A piece that starts with a backslash and goes on with a `u` starts a code. */
  lemma PieceCode(p: string, c: char, after: string, next: char) returns (code: nat)
    requires Piece(p, c, after) && p[0] == '\\' && next == 'u' && (|p| > 1 ==> p[1] == next)
    ensures StartsCode(p, code)
  {
    if |p| == 12 {
      code := PairCode(p, c, after);
    } else if |p| == 6 {
      hide StartsCode;
      code :| StartsCode(p, code);
    } else {
      assert false;
    }
  }

  lemma PairCode(p: string, c: char, after: string) returns (code: nat)
    requires |p| == 12 && Piece(p, c, after)
    ensures StartsCode(p, code)
  {
    hide StartsCode;
    code :| StartsCode(p[..6], code);
    StartsMore(p[..6], code, p);
  }

  lemma StartsMore(p: string, code: nat, s: string)
    requires StartsCode(p, code) && p <= s
    ensures StartsCode(s, code)
  {
    hide IsCode;
    assert s[2..6] == p[2..6];
  }

  lemma {:induction false} BodyReads(t: string, text: string, rest: string)
    requires Body(t, text)
    ensures ReadString(t + "\"" + rest) == Some(Reading(text, rest))
    decreases |text|
  {
    hide Piece, ReadChar;
    var s := t + "\"" + rest;
    if text == [] {
      assert s == "\"" + rest && s[1..] == rest;
    } else {
      var k :| 0 < k <= |t| && Piece(t[..k], text[0], t[k..]) && Body(t[k..], text[1..]);
      PieceReads(t[..k], text[0], t[k..], text[1..], rest);
      BodyReads(t[k..], text[1..], rest);
      Split(t, k, "\"", rest);
      assert text == [text[0]] + text[1..];
    }
  }

  lemma Split(t: string, k: nat, b: string, c: string)
    requires k <= |t|
    ensures t + b + c == t[..k] + (t[k..] + b + c)
  {
    assert t == t[..k] + t[k..];
  }

  /** Conversely, what reads as a character is a piece, in front of whatever part of the rest. */
  lemma CharIsPiece(s: string, n: nat)
    requires s != [] && s[0] != '"' && ReadChar(s).Some?
    requires n <= |ReadChar(s).value.rest|
    ensures var read := ReadChar(s).value;
            var k := |s| - |read.rest|;
            0 < k && s[k..] == read.rest && Piece(s[..k], read.value, read.rest[..n])
  {
    var read := ReadChar(s).value;
    if s[0] == '\\' {
      if s[1] == 'u' {
        CodeIsPiece(s, n);
      }
    }
  }

  lemma CodeIsPiece(s: string, n: nat)
    requires |s| >= 2 && s[0] == '\\' && s[1] == 'u' && ReadUnicode(s[2..]).Some?
    requires n <= |ReadUnicode(s[2..]).value.rest|
    ensures var read := ReadUnicode(s[2..]).value;
            var k := |s| - |read.rest|;
            0 < k && s[k..] == read.rest && Piece(s[..k], read.value, read.rest[..n])
  {
    var u := s[2..];
    var first, after := Hex4(u).value, u[4..];
    CodeBound(u);
    CodeStarts(s, first);
    assert s[6..] == after;
    hide Hex4, StartsCode;
    if IsHigh(first) && |after| >= 2 && after[0] == '\\' && after[1] == 'u' {
      var second := Hex4(after[2..]).value;
      CodeStarts(after, second);
      if IsLow(second) {
        var p := s[..12];
        assert p[..6] == s[..6] && p[6..] == after[..6] && s[12..] == after[6..];
      } else {
        NotPaired(after, n, second);
      }
    } else if IsHigh(first) {
      NoCode(after, n);
    }
  }

  lemma CodeStarts(s: string, code: nat)
    requires |s| >= 2 && s[0] == '\\' && s[1] == 'u' && Hex4(s[2..]) == Some(code)
    ensures |s| >= 6 && StartsCode(s[..6], code)
  {
    assert s[..6][2..6] == s[2..][..4];
    CodeReads(s[2..], code);
  }

  lemma NoCode(after: string, n: nat)
    requires n <= |after| && !(|after| >= 2 && after[0] == '\\' && after[1] == 'u')
    ensures !exists low: nat | IsLow(low) :: StartsCode(after[..n], low)
  {
  }

  lemma NotPaired(after: string, n: nat, second: nat)
    requires n <= |after| && |after| >= 6 && Hex4(after[2..]) == Some(second) && !IsLow(second)
    ensures !exists low: nat | IsLow(low) :: StartsCode(after[..n], low)
  {
    forall low: nat | IsLow(low) ensures !StartsCode(after[..n], low) {
      if StartsCode(after[..n], low) {
        assert after[..n][2..6] == after[2..][..4];
        CodeReads(after[2..], low);
      }
    }
  }

  lemma {:induction false} StringIsBody(s: string) returns (j: nat)
    requires ReadString(s).Some?
    ensures j < |s| && s[j] == '"' && Body(s[..j], ReadString(s).value.value) && s[j + 1..] == ReadString(s).value.rest
    decreases |s|
  {
    hide Piece, ReadChar;
    if s[0] == '"' {
      return 0;
    }
    var read := ReadChar(s).value;
    var more := ReadString(read.rest).value;
    var k := |s| - |read.rest|;
    j := StringIsBody(read.rest);
    CharIsPiece(s, j);
    BodyLonger(s, k, j, read.value, more.value);
    assert s[k + j + 1..] == read.rest[j + 1..];
    assert s[k + j] == read.rest[j];
    j := k + j;
  }

  lemma BodyLonger(s: string, k: nat, j: nat, c: char, text: string)
    requires 0 < k <= k + j <= |s| && Piece(s[..k], c, s[k..][..j]) && Body(s[k..][..j], text)
    ensures Body(s[..k + j], [c] + text)
  {
    hide Piece;
    var t := s[..k + j];
    assert t[..k] == s[..k] && t[k..] == s[k..][..j];
    assert ([c] + text)[1..] == text;
  }

  // ---- Reading numbers ---------------------------------------------------------------------

  lemma DigitIs(c: char)
    ensures IsDigit(c) <==> c in "0123456789"
  {
  }

  lemma DigitsAre(s: string)
    ensures Digits(s) <==> s != [] && forall i | 0 <= i < |s| :: IsDigit(s[i])
  {
    forall i | 0 <= i < |s| ensures IsDigit(s[i]) <==> s[i] in "0123456789" {
      DigitIs(s[i]);
    }
  }

  /** What the lengths of the parts cut off are the parts. */
  lemma IntegerIs(s: string)
    requires IntegerLength(s).Some?
    ensures IntegerText(s[..IntegerLength(s).value])
  {
    var part := s[..IntegerLength(s).value];
    DigitsAre(part);
    assert part[0] == s[0];
    if s[0] == '0' {
      assert part == "0";
    }
  }

  lemma FractionIs(s: string)
    requires FractionLength(s).Some?
    ensures FractionText(s[..FractionLength(s).value])
  {
    var part := s[..FractionLength(s).value];
    if part != [] {
      DigitsAre(part[1..]);
      assert forall i | 0 <= i < |part| - 1 :: part[1..][i] == s[1..][i];
    }
  }

  lemma ExponentIs(s: string)
    requires ExponentLength(s).Some?
    ensures ExponentText(s[..ExponentLength(s).value])
  {
    hide DigitRun;
    var part := s[..ExponentLength(s).value];
    if part != [] {
      var sign := if StartsWith(s[1..], '+') || StartsWith(s[1..], '-') then 1 else 0;
      var digits, from := part[1 + sign..], s[1 + sign..];
      DigitsAre(digits);
      assert forall i | 0 <= i < |digits| :: digits[i] == from[i];
      assert sign == 1 ==> part[1] == s[1..][0];
    }
  }

  lemma NumberIs(s: string)
    requires NumberLength(s).Some?
    ensures NumberText(s[..NumberLength(s).value])
  {
    hide IntegerLength, FractionLength, ExponentLength, IntegerText, FractionText, ExponentText;
    var n := NumberLength(s).value;
    var part := s[..n];
    var a := if StartsWith(s, '-') then 1 else 0;
    var b := a + IntegerLength(s[a..]).value;
    var c := b + FractionLength(s[b..]).value;
    IntegerIs(s[a..]);
    FractionIs(s[b..]);
    ExponentIs(s[c..]);
    assert part[a..b] == s[a..][..b - a] && part[b..c] == s[b..][..c - b] && part[c..] == s[c..][..n - c];
    assert part[..a] == if a == 0 then "" else "-";
  }

  lemma IntegerEnds(s: string, n: nat)
    requires n <= |s| && IntegerText(s[..n]) && (n < |s| ==> !IsDigit(s[n]))
    ensures IntegerLength(s) == Some(n)
  {
    DigitsAre(s[..n]);
    assert s[..n][0] == s[0];
    if s[0] != '0' {
      assert forall i | 0 <= i < n :: s[..n][i] == s[i];
      DigitRunOf(s, n);
    }
  }

  lemma FractionEnds(s: string, n: nat)
    requires n <= |s| && FractionText(s[..n]) && (n < |s| ==> !IsDigit(s[n]) && s[n] != '.')
    ensures FractionLength(s) == Some(n)
  {
    if n > 0 {
      DigitsAre(s[..n][1..]);
      assert s[..n][0] == s[0];
      assert forall i | 0 <= i < n - 1 :: s[..n][1..][i] == s[1..][i];
      DigitRunOf(s[1..], n - 1);
    }
  }

  lemma ExponentEnds(s: string)
    requires ExponentText(s)
    ensures ExponentLength(s) == Some(|s|)
  {
    if s != [] {
      DigitsAre(s[1..]);
      if Digits(s[1..]) {
        assert IsDigit(s[1..][0]);
        DigitRunOf(s[1..], |s| - 1);
      } else {
        DigitsAre(s[2..]);
        assert s[1..][0] == s[1];
        DigitRunOf(s[2..], |s| - 2);
      }
    }
  }

  /** What a number's fraction or exponent starts with is no digit. */
  lemma PartsStart(s: string, b: nat, c: nat)
    requires b <= c <= |s| && FractionText(s[b..c]) && ExponentText(s[c..])
    ensures c < |s| ==> s[c] == 'e' || s[c] == 'E'
    ensures b < |s| ==> s[b] == '.' || s[b] == 'e' || s[b] == 'E'
  {
    if c < |s| {
      assert s[c..][0] == s[c];
    }
    if b < c {
      assert s[b..c][0] == s[b];
    }
  }

  lemma NumberEnds(s: string)
    requires NumberText(s)
    ensures IsNumber(s)
  {
    hide IntegerLength, FractionLength, ExponentLength, IntegerText, FractionText, ExponentText;
    var a, b, c :| 0 <= a <= b <= c <= |s| && (s[..a] == "" || s[..a] == "-") &&
                   IntegerText(s[a..b]) && FractionText(s[b..c]) && ExponentText(s[c..]);
    hide NumberText;
    PartsEnd(s, a, b, c);
  }

  lemma PartsEnd(s: string, a: nat, b: nat, c: nat)
    requires a <= b <= c <= |s| && (s[..a] == "" || s[..a] == "-")
    requires IntegerText(s[a..b]) && FractionText(s[b..c]) && ExponentText(s[c..])
    ensures IsNumber(s)
  {
    hide IntegerLength, FractionLength, ExponentLength, IntegerText, FractionText, ExponentText;
    PartsStart(s, b, c);
    SignEnds(s, a, b);
    IntegerCut(s, a, b);
    FractionCut(s, b, c);
    ExponentEnds(s[c..]);
  }

  lemma IntegerCut(s: string, a: nat, b: nat)
    requires a <= b <= |s| && IntegerText(s[a..b]) && (b < |s| ==> !IsDigit(s[b]))
    ensures IntegerLength(s[a..]) == Some(b - a)
  {
    hide IntegerText;
    assert s[a..][..b - a] == s[a..b];
    assert b < |s| ==> s[a..][b - a] == s[b];
    IntegerEnds(s[a..], b - a);
  }

  lemma FractionCut(s: string, b: nat, c: nat)
    requires b <= c <= |s| && FractionText(s[b..c]) && (c < |s| ==> !IsDigit(s[c]) && s[c] != '.')
    ensures FractionLength(s[b..]) == Some(c - b)
  {
    hide FractionText;
    assert s[b..][..c - b] == s[b..c];
    assert c < |s| ==> s[b..][c - b] == s[c];
    FractionEnds(s[b..], c - b);
  }

  lemma SignEnds(s: string, a: nat, b: nat)
    requires a <= b <= |s| && (s[..a] == "" || s[..a] == "-") && IntegerText(s[a..b])
    ensures a == if StartsWith(s, '-') then 1 else 0
  {
    DigitsAre(s[a..b]);
    assert s[a..b][0] == s[a];
    if a > 0 {
      assert s[..a][0] == s[0];
    }
  }

  // ---- Space -------------------------------------------------------------------------------

  lemma SpaceIs(c: char)
    ensures IsSpace(c) <==> c in " \t\r\n"
  {
  }

  lemma SkipOver(blank: string, s: string)
    requires Space(blank)
    ensures SkipSpace(blank + s) == SkipSpace(s)
  {
    forall c | c in blank ensures IsSpace(c) {
      SpaceIs(c);
    }
    SkipBlank(blank, s);
  }

  /** What is skipped is space, and what is left starts with none. */
  lemma {:induction false} SkipIs(s: string) returns (i: nat)
    ensures i <= |s| && Space(s[..i]) && SkipSpace(s) == s[i..] && (i < |s| ==> !IsSpace(s[i]))
    decreases |s|
  {
    i := 0;
    if s != [] && IsSpace(s[0]) {
      SpaceIs(s[0]);
      i := SkipIs(s[1..]);
      assert s[..i + 1] == [s[0]] + s[1..][..i] && s[i + 1..] == s[1..][i..];
      i := i + 1;
    }
  }

  /** Space, or what delimits a value, goes on no number. */
  lemma SpaceDelimits(blank: string, rest: string)
    requires Space(blank) && Delimits(rest)
    ensures Delimits(blank + rest)
  {
    if blank != [] {
      SpaceIs(blank[0]);
    } else {
      assert blank + rest == rest;
    }
  }

  // ---- Every spelled value is read ---------------------------------------------------------

  lemma LiteralReads(value: Value, t: string, rest: string, depth: nat)
    requires (value.Null? || value.Bool?) && Spells(t, value)
    ensures ReadValue(t + rest, depth) == if depth > MAX_DEPTH then None else Some(Reading(value, rest))
  {
    hide ReadString, ReadArray, ReadObject, NumberLength;
    assert (t + rest)[|t|..] == rest;
    assert t <= t + rest;
  }

  lemma StringReads(t: string, text: string, rest: string)
    requires StringText(t, text)
    ensures StartsWith(t + rest, '"') && ReadString((t + rest)[1..]) == Some(Reading(text, rest))
  {
    var body := t[1..|t| - 1];
    hide Body, ReadString;
    assert (t + rest)[1..] == body + "\"" + rest;
    BodyReads(body, text, rest);
  }

  /**
   * A text of a value, in front of anything that delimits it, is read as the value, exactly when that
   * is not nested too deep.
   */
  lemma {:induction false} SpelledReads(t: string, value: Value, rest: string, depth: nat)
    requires Spells(t, value) && Delimits(rest)
    ensures ReadValue(t + rest, depth) == if Fits(value, depth) then Some(Reading(value, rest)) else None
    decreases value, 1
  {
    match value
    case Null => LiteralReads(value, t, rest, depth);
    case Bool(flag) => LiteralReads(value, t, rest, depth);
    case Number(text) =>
      NumberEnds(t);
      NumberReads(t, rest, depth);
    case String(text) =>
      StringReads(t, text, rest);
      ReadValueString(t + rest, depth, Reading(text, rest));
    case Array(elements) =>
      var inner := t[1..|t| - 1];
      if elements != [] {
        ElementsRead(inner, elements, rest, depth);
      }
      ArrayReads(t, inner, elements, rest, depth);
    case Object(members) =>
      var inner := t[1..|t| - 1];
      if members != [] {
        MembersRead(inner, members, rest, depth);
      }
      ObjectReads(t, inner, members, rest, depth);
  }

  lemma ArrayReads(t: string, inner: string, elements: seq<Value>, rest: string, depth: nat)
    requires |t| >= 2 && t[0] == '[' && t[|t| - 1] == ']' && inner == t[1..|t| - 1]
    requires if elements == [] then Space(inner)
             else
               ReadElements(inner + "]" + rest, depth) == (if ElementsFit(elements, depth) then Some(Reading(elements, rest)) else None) &&
               !StartsWith(SkipSpace(inner + "]" + rest), ']')
    ensures var value := Array(elements);
            ReadValue(t + rest, depth) == if Fits(value, depth) then Some(Reading(value, rest)) else None
  {
    hide ReadElements, ReadValue;
    var s := inner + "]" + rest;
    assert (t + rest)[0] == '[' && (t + rest)[1..] == s;
    ReadValueArray(t + rest, depth);
    if elements == [] {
      assert s == inner + ("]" + rest) && ("]" + rest)[1..] == rest;
      SkipOver(inner, "]" + rest);
    } else {
      SkipTwice(s);
      ReadElementsSkips(s, SkipSpace(s), depth);
    }
  }

  lemma ObjectReads(t: string, inner: string, members: seq<Member>, rest: string, depth: nat)
    requires |t| >= 2 && t[0] == '{' && t[|t| - 1] == '}' && inner == t[1..|t| - 1]
    requires if members == [] then Space(inner)
             else
               ReadMembers(inner + "}" + rest, depth) == (if MembersFit(members, depth) then Some(Reading(members, rest)) else None) &&
               !StartsWith(SkipSpace(inner + "}" + rest), '}')
    ensures var value := Object(members);
            ReadValue(t + rest, depth) == if Fits(value, depth) then Some(Reading(value, rest)) else None
  {
    hide ReadMembers, ReadValue;
    var s := inner + "}" + rest;
    assert (t + rest)[0] == '{' && (t + rest)[1..] == s;
    ReadValueObject(t + rest, depth);
    if members == [] {
      assert s == inner + ("}" + rest) && ("}" + rest)[1..] == rest;
      SkipOver(inner, "}" + rest);
    } else {
      SkipTwice(s);
      ReadMembersSkips(s, SkipSpace(s), depth);
    }
  }

  /** No text of a value is empty, or starts with space or what closes a container. */
  lemma SpelledStarts(t: string, value: Value)
    requires Spells(t, value)
    ensures t != [] && !IsSpace(t[0]) && t[0] != ']' && t[0] != '}'
  {
    if value.Number? {
      NumberEnds(t);
    }
  }

  /** With space around it a text of a value reads the same, but for the space that is left. */
  lemma {:induction false} PaddedReads(t: string, value: Value, rest: string, depth: nat) returns (after: string)
    requires Padded(t, value) && Delimits(rest)
    ensures ReadValue(t + rest, depth) == if Fits(value, depth) then Some(Reading(value, after)) else None
    ensures SkipSpace(after) == SkipSpace(rest)
    ensures var seen := SkipSpace(t + rest); seen != [] && seen[0] != ']' && seen[0] != '}'
    decreases value, 2
  {
    hide Spells, ReadValue;
    var i, j :| 0 <= i <= j <= |t| && Space(t[..i]) && Spells(t[i..j], value) && Space(t[j..]);
    after := t[j..] + rest;
    SpaceDelimits(t[j..], rest);
    SkipOver(t[j..], rest);
    SpelledReads(t[i..j], value, after, depth);
    SpelledStarts(t[i..j], value);
    assert t + rest == t[..i] + (t[i..j] + after);
    SkipOver(t[..i], t[i..j] + after);
    ReadValueSkips(t + rest, t[i..j] + after, depth);
    assert SkipSpace(t[i..j] + after) == t[i..j] + after;
  }

  lemma {:induction false} ElementsRead(t: string, elements: seq<Value>, rest: string, depth: nat)
    requires elements != [] && ElementsText(t, elements)
    ensures ReadElements(t + "]" + rest, depth) == if ElementsFit(elements, depth) then Some(Reading(elements, rest)) else None
    ensures !StartsWith(SkipSpace(t + "]" + rest), ']')
    decreases elements, 0
  {
    hide Padded, ReadValue, SkipSpace;
    if |elements| == 1 {
      assert t + "]" + rest == t + ("]" + rest);
      var after := PaddedReads(t, elements[0], "]" + rest, depth + 1);
      LastElementRead(t + "]" + rest, elements[0], after, rest, depth);
      assert elements == [elements[0]];
    } else {
      var k :| 0 <= k < |t| && t[k] == ',' && Padded(t[..k], elements[0]) && ElementsText(t[k + 1..], elements[1..]);
      var more := t[k + 1..] + "]" + rest;
      assert t + "]" + rest == t[..k] + ("," + more);
      var after := PaddedReads(t[..k], elements[0], "," + more, depth + 1);
      ElementsRead(t[k + 1..], elements[1..], rest, depth);
      MoreElementsRead(t + "]" + rest, elements[0], elements[1..], after, more, rest, depth);
      assert elements == [elements[0]] + elements[1..];
    }
  }

  lemma LastElementRead(s: string, element: Value, after: string, rest: string, depth: nat)
    requires ReadValue(s, depth + 1) == if Fits(element, depth + 1) then Some(Reading(element, after)) else None
    requires SkipSpace(after) == SkipSpace("]" + rest)
    ensures ReadElements(s, depth) == if ElementsFit([element], depth) then Some(Reading([element], rest)) else None
  {
    assert SkipSpace("]" + rest) == "]" + rest && ("]" + rest)[1..] == rest;
    assert HeightOfElements([element]) == Height(element);
  }

  lemma MoreElementsRead(s: string, element: Value, elements: seq<Value>, after: string, more: string, rest: string, depth: nat)
    requires elements != []
    requires ReadValue(s, depth + 1) == if Fits(element, depth + 1) then Some(Reading(element, after)) else None
    requires SkipSpace(after) == SkipSpace("," + more)
    requires ReadElements(more, depth) == if ElementsFit(elements, depth) then Some(Reading(elements, rest)) else None
    ensures var all := [element] + elements;
            ReadElements(s, depth) == if ElementsFit(all, depth) then Some(Reading(all, rest)) else None
  {
    assert SkipSpace("," + more) == "," + more && ("," + more)[1..] == more;
    assert ([element] + elements)[1..] == elements;
  }

  /** The text of a member, given what follows it. */
  lemma {:induction false} MemberReads(t: string, member: Member, rest: string, depth: nat)
    requires MemberText(t, member) && rest != [] && (rest[0] == ',' || rest[0] == '}')
    ensures ReadMembers(t + rest, depth) ==
            if !Fits(member.value, depth + 1) then None
            else if rest[0] == ',' then
              match ReadMembers(rest[1..], depth)
              case None => None
              case Some(more) => Some(Reading([member] + more.value, more.rest))
            else Some(Reading([member], rest[1..]))
    ensures !StartsWith(SkipSpace(t + rest), '}')
    decreases member, 3
  {
    hide StringText, Padded, ReadString, ReadValue, ReadMembers;
    var i, j, k :| 0 <= i <= j <= k < |t| && Space(t[..i]) && StringText(t[i..j], member.key) && Space(t[j..k]) &&
                   t[k] == ':' && Padded(t[k + 1..], member.value);
    var tail := t[k + 1..] + rest;
    var body := t[j..k] + (":" + tail);
    MemberParts(t, i, j, k, rest);
    SkipOver(t[..i], t[i..j] + body);
    StringReads(t[i..j], member.key, body);
    SkipOver(t[j..k], ":" + tail);
    var after := PaddedReads(t[k + 1..], member.value, rest, depth + 1);
    MemberRead(t + rest, t[i..j] + body, member, body, tail, after, rest, depth);
  }

  lemma MemberParts(t: string, i: nat, j: nat, k: nat, rest: string)
    requires i <= j <= k < |t| && t[k] == ':'
    ensures t + rest == t[..i] + (t[i..j] + (t[j..k] + (":" + (t[k + 1..] + rest))))
  {
  }

  lemma MemberRead(s: string, u: string, member: Member, body: string, tail: string, after: string, rest: string, depth: nat)
    requires SkipSpace(s) == SkipSpace(u) && StartsWith(u, '"') && ReadString(u[1..]) == Some(Reading(member.key, body))
    requires SkipSpace(body) == SkipSpace(":" + tail)
    requires ReadValue(tail, depth + 1) == if Fits(member.value, depth + 1) then Some(Reading(member.value, after)) else None
    requires SkipSpace(after) == SkipSpace(rest) && rest != [] && (rest[0] == ',' || rest[0] == '}')
    ensures ReadMembers(s, depth) ==
            if !Fits(member.value, depth + 1) then None
            else if rest[0] == ',' then
              match ReadMembers(rest[1..], depth)
              case None => None
              case Some(more) => Some(Reading([member] + more.value, more.rest))
            else Some(Reading([member], rest[1..]))
    ensures !StartsWith(SkipSpace(s), '}')
  {
    hide ReadString, ReadValue;
    assert SkipSpace(u) == u && SkipSpace(rest) == rest;
    assert SkipSpace(":" + tail) == ":" + tail && (":" + tail)[1..] == tail;
  }

  lemma {:induction false} MembersRead(t: string, members: seq<Member>, rest: string, depth: nat)
    requires members != [] && MembersText(t, members)
    ensures ReadMembers(t + "}" + rest, depth) == if MembersFit(members, depth) then Some(Reading(members, rest)) else None
    ensures !StartsWith(SkipSpace(t + "}" + rest), '}')
    decreases members, 0
  {
    hide MemberText, ReadMembers, SkipSpace;
    if |members| == 1 {
      assert t + "}" + rest == t + ("}" + rest);
      MemberReads(t, members[0], "}" + rest, depth);
      LastMemberRead(t + "}" + rest, members[0], rest, depth);
      assert members == [members[0]];
    } else {
      var k :| 0 <= k < |t| && t[k] == ',' && MemberText(t[..k], members[0]) && MembersText(t[k + 1..], members[1..]);
      var more := t[k + 1..] + "}" + rest;
      assert t + "}" + rest == t[..k] + ("," + more);
      MemberReads(t[..k], members[0], "," + more, depth);
      MembersRead(t[k + 1..], members[1..], rest, depth);
      MoreMembersRead(t + "}" + rest, members[0], members[1..], more, rest, depth);
      assert members == [members[0]] + members[1..];
    }
  }

  lemma LastMemberRead(s: string, member: Member, rest: string, depth: nat)
    requires ReadMembers(s, depth) == if !Fits(member.value, depth + 1) then None else Some(Reading([member], ("}" + rest)[1..]))
    ensures ReadMembers(s, depth) == if MembersFit([member], depth) then Some(Reading([member], rest)) else None
  {
    hide ReadMembers;
    MembersFitBoth([member], depth);
    hide Fits, MembersFit;
    assert ("}" + rest)[1..] == rest;
  }

  lemma MoreMembersRead(s: string, member: Member, members: seq<Member>, more: string, rest: string, depth: nat)
    requires members != []
    requires ReadMembers(s, depth) ==
             if !Fits(member.value, depth + 1) then None
             else
               match ReadMembers(("," + more)[1..], depth)
               case None => None
               case Some(read) => Some(Reading([member] + read.value, read.rest))
    requires ReadMembers(more, depth) == if MembersFit(members, depth) then Some(Reading(members, rest)) else None
    ensures var all := [member] + members;
            ReadMembers(s, depth) == if MembersFit(all, depth) then Some(Reading(all, rest)) else None
  {
    hide ReadMembers;
    MembersFitBoth([member] + members, depth);
    hide Fits, MembersFit;
    assert ("," + more)[1..] == more && ([member] + members)[1..] == members;
  }

  // ---- Whatever is read is spelled ---------------------------------------------------------

  lemma ScalarSpelled(t: string, depth: nat) returns (n: nat)
    requires t != [] && !IsSpace(t[0]) && t[0] != '[' && t[0] != '{' && ReadValue(t, depth).Some?
    ensures n <= |t| && Spells(t[..n], ReadValue(t, depth).value.value) && t[n..] == ReadValue(t, depth).value.rest
    ensures Fits(ReadValue(t, depth).value.value, depth)
  {
    hide ReadString, NumberLength, ReadArray, ReadObject, Body, NumberText;
    assert SkipSpace(t) == t;
    if t[0] == '"' {
      n := QuotedSpelled(t);
    } else if t[0] == 't' || t[0] == 'n' {
      n := 4;
    } else if t[0] == 'f' {
      n := 5;
    } else {
      n := NumberLength(t).value;
      NumberIs(t);
    }
  }

  lemma StringCut(t: string, j: nat, text: string)
    requires j + 1 < |t| && t[0] == '"' && t[1..][j] == '"' && Body(t[1..][..j], text)
    ensures StringText(t[..j + 2], text)
  {
    hide Body;
    var part := t[..j + 2];
    assert part[1..|part| - 1] == t[1..][..j];
  }

  /** What is read is a text of the value, after space and before what is left. */
  lemma {:induction false} ReadSpelled(s: string, depth: nat) returns (i: nat, j: nat)
    requires ReadValue(s, depth).Some?
    ensures var read := ReadValue(s, depth).value;
            i <= j <= |s| && Space(s[..i]) && Spells(s[i..j], read.value) && s[j..] == read.rest && Fits(read.value, depth)
    decreases |s|, 3
  {
    hide Spells, ReadValue, Fits;
    i := SkipIs(s);
    var t := s[i..];
    SkipTwice(s);
    ReadValueSkips(s, t, depth);
    NothingIsValue(t, depth);
    var n;
    if t[0] == '[' {
      n := ArraySpelled(t, depth);
    } else if t[0] == '{' {
      n := ObjectSpelled(t, depth);
    } else {
      n := ScalarSpelled(t, depth);
    }
    j := i + n;
    assert s[i..j] == t[..n] && s[j..] == t[n..];
  }

  lemma NothingIsValue(t: string, depth: nat)
    requires ReadValue(t, depth).Some?
    ensures SkipSpace(t) != []
  {
    hide ReadString, NumberLength, ReadArray, ReadObject;
  }

  lemma {:induction false} ArraySpelled(t: string, depth: nat) returns (n: nat)
    requires StartsWith(t, '[') && ReadValue(t, depth).Some?
    ensures n <= |t| && Spells(t[..n], ReadValue(t, depth).value.value) && t[n..] == ReadValue(t, depth).value.rest
    ensures Fits(ReadValue(t, depth).value.value, depth)
    decreases |t|, 2
  {
    hide ReadElements, ElementsText, ReadValue;
    ReadValueArray(t, depth);
    var u := t[1..];
    var k := SkipIs(u);
    if StartsWith(SkipSpace(u), ']') {
      n := k + 2;
      Enclosed(t, u, k);
      assert t[n..] == u[k..][1..];
    } else {
      SkipTwice(u);
      ReadElementsSkips(u, SkipSpace(u), depth);
      var m := ElementsSpelled(u, depth);
      n := m + 2;
      Enclosed(t, u, m);
    }
  }

  lemma {:induction false} ElementsSpelled(s: string, depth: nat) returns (n: nat)
    requires ReadElements(s, depth).Some?
    ensures var read := ReadElements(s, depth).value;
            n < |s| && s[n] == ']' && s[n + 1..] == read.rest && read.value != [] && ElementsText(s[..n], read.value) &&
            ElementsFit(read.value, depth)
    decreases |s|, 5
  {
    hide ReadValue, Spells, Fits, ElementsFit, ElementsText, Padded, Space;
    var value := ReadValue(s, depth + 1).value;
    var j := ElementSpelled(s, depth + 1);
    n := j;
    if s[n] == ']' {
      LastElementText(s[..n], value.value, depth);
    } else {
      var more := ElementsSpelled(s[n + 1..], depth);
      MoreElementsText(s[..n + 1 + more], n, value.value, ReadElements(s[n + 1..], depth).value.value, depth, s, more);
      n := n + 1 + more;
    }
  }

  /** A value, and where what follows it and its space starts. */
  lemma {:induction false} ElementSpelled(s: string, depth: nat) returns (n: nat)
    requires ReadValue(s, depth).Some?
    ensures var read := ReadValue(s, depth).value;
            n <= |s| && SkipSpace(read.rest) == s[n..] && Padded(s[..n], read.value) && Fits(read.value, depth)
    decreases |s|, 4
  {
    hide ReadValue, Spells, Fits, Padded;
    var i, j := ReadSpelled(s, depth);
    var rest := ReadValue(s, depth).value.rest;
    var k := SkipIs(rest);
    n := j + k;
    assert s[n..] == rest[k..];
    PaddedUpTo(s, i, j, n, ReadValue(s, depth).value.value, k);
  }

  lemma PaddedUpTo(s: string, i: nat, j: nat, n: nat, value: Value, k: nat)
    requires i <= j <= n <= |s| && n == j + k && Space(s[..i]) && Spells(s[i..j], value) && Space(s[j..][..k])
    ensures Padded(s[..n], value)
  {
    hide Spells;
    var t := s[..n];
    assert t[..i] == s[..i] && t[i..j] == s[i..j] && t[j..] == s[j..][..k];
  }

  lemma LastElementText(t: string, element: Value, depth: nat)
    requires Padded(t, element) && Fits(element, depth + 1)
    ensures ElementsText(t, [element]) && ElementsFit([element], depth)
  {
    assert HeightOfElements([element]) == Height(element);
  }

  lemma MoreElementsText(t: string, k: nat, element: Value, elements: seq<Value>, depth: nat, s: string, more: nat)
    requires k < |s| && k + 1 + more <= |s| && t == s[..k + 1 + more] && s[k] == ','
    requires Padded(s[..k], element) && elements != [] && ElementsText(s[k + 1..][..more], elements)
    requires Fits(element, depth + 1) && ElementsFit(elements, depth)
    ensures ElementsText(t, [element] + elements) && ElementsFit([element] + elements, depth)
  {
    assert t[..k] == s[..k] && t[k + 1..] == s[k + 1..][..more];
    assert ([element] + elements)[1..] == elements;
  }

  /** What stands between the first character of `t` and the one at `n + 1`. */
  lemma Enclosed(t: string, u: string, n: nat)
    requires t != [] && u == t[1..] && n < |u|
    ensures t[..n + 2][1..n + 1] == u[..n] && t[n + 2..] == u[n + 1..] && t[n + 1] == u[n]
  {
  }

  lemma {:induction false} ObjectSpelled(t: string, depth: nat) returns (n: nat)
    requires StartsWith(t, '{') && ReadValue(t, depth).Some?
    ensures n <= |t| && Spells(t[..n], ReadValue(t, depth).value.value) && t[n..] == ReadValue(t, depth).value.rest
    ensures Fits(ReadValue(t, depth).value.value, depth)
    decreases |t|, 2
  {
    hide ReadMembers, MembersText, ReadValue;
    ReadValueObject(t, depth);
    var u := t[1..];
    var k := SkipIs(u);
    if StartsWith(SkipSpace(u), '}') {
      n := k + 2;
      Enclosed(t, u, k);
      assert t[n..] == u[k..][1..];
    } else {
      SkipTwice(u);
      ReadMembersSkips(u, SkipSpace(u), depth);
      var m := MembersSpelled(u, depth);
      n := m + 2;
      Enclosed(t, u, m);
    }
  }

  /** The key of the first member, its colon and the text of its value. */
  lemma KeySpelled(s: string, depth: nat) returns (i: nat, j: nat, k: nat)
    requires ReadMembers(s, depth).Some?
    ensures i <= j <= k < |s| && Space(s[..i]) && Space(s[j..k]) && s[k] == ':' && i < |s| && s[i] == '"'
    ensures ReadString(s[i + 1..]).Some? && StringText(s[i..j], ReadString(s[i + 1..]).value.value)
    ensures SkipSpace(s) == s[i..] && SkipSpace(ReadString(s[i + 1..]).value.rest) == s[k..]
  {
    hide ReadString, StringText, ReadValue, Space, SkipSpace;
    i := SkipIs(s);
    var t := s[i..];
    assert t[1..] == s[i + 1..];
    var n := QuotedSpelled(t);
    j := i + n;
    assert s[i..j] == t[..n] && s[j..] == t[n..];
    var m := SkipIs(s[j..]);
    k := j + m;
    assert s[j..k] == s[j..][..m] && s[k..] == s[j..][m..];
  }

  /** A string in its quotes. */
  lemma QuotedSpelled(t: string) returns (n: nat)
    requires StartsWith(t, '"') && ReadString(t[1..]).Some?
    ensures n <= |t| && StringText(t[..n], ReadString(t[1..]).value.value) && t[n..] == ReadString(t[1..]).value.rest
  {
    hide ReadString, StringText, Body;
    var m := StringIsBody(t[1..]);
    StringCut(t, m, ReadString(t[1..]).value.value);
    n := m + 2;
    assert t[n..] == t[1..][m + 1..];
  }

  lemma {:induction false} MembersSpelled(s: string, depth: nat) returns (n: nat)
    requires ReadMembers(s, depth).Some?
    ensures var read := ReadMembers(s, depth).value;
            n < |s| && s[n] == '}' && s[n + 1..] == read.rest && read.value != [] && MembersText(s[..n], read.value) &&
            MembersFit(read.value, depth)
    decreases |s|, 6
  {
    hide ReadString, StringText, ReadValue, Spells, Fits, MembersFit, MembersText, MemberText, Padded, Space;
    var member := ReadMembers(s, depth).value.value[0];
    n := MemberSpelled(s, depth);
    if s[n] == '}' {
      LastMemberText(s[..n], member, depth);
    } else {
      var more := MembersSpelled(s[n + 1..], depth);
      MoreMembersText(s[..n + 1 + more], n, member, ReadMembers(s[n + 1..], depth).value.value, depth, s, more);
      n := n + 1 + more;
    }
  }

  /** The first member, and where what follows it and its space starts. */
  lemma {:induction false} MemberSpelled(s: string, depth: nat) returns (n: nat)
    requires ReadMembers(s, depth).Some?
    ensures var read := ReadMembers(s, depth).value;
            n < |s| && read.value != [] && MemberText(s[..n], read.value[0]) && Fits(read.value[0].value, depth + 1) &&
            if s[n] == ',' then
              ReadMembers(s[n + 1..], depth).Some? &&
              var more := ReadMembers(s[n + 1..], depth).value;
              read == Reading([read.value[0]] + more.value, more.rest)
            else s[n] == '}' && read == Reading([read.value[0]], s[n + 1..])
    decreases |s|, 5
  {
    hide ReadString, StringText, ReadValue, Spells, Fits, MemberText, Padded, Space;
    var i, j, k := KeySpelled(s, depth);
    var key := ReadString(s[i + 1..]).value.value;
    var tail := s[k + 1..];
    assert s[k..][1..] == tail && s[i..][1..] == s[i + 1..];
    var value := ReadValue(tail, depth + 1).value;
    var m := ElementSpelled(tail, depth + 1);
    n := k + 1 + m;
    assert s[n..] == tail[m..];
    var member := Member(key, value.value);
    MemberCut(s, i, j, k, m, member);
    assert n < |s| ==> s[n..][0] == s[n] && s[n..][1..] == s[n + 1..];
  }

  lemma MemberCut(s: string, i: nat, j: nat, k: nat, m: nat, member: Member)
    requires i <= j <= k < |s| && k + 1 + m <= |s| && Space(s[..i]) && Space(s[j..k]) && s[k] == ':'
    requires StringText(s[i..j], member.key) && Padded(s[k + 1..][..m], member.value)
    ensures MemberText(s[..k + 1 + m], member)
  {
    hide StringText, Padded;
    var t := s[..k + 1 + m];
    assert t[..i] == s[..i] && t[i..j] == s[i..j] && t[j..k] == s[j..k] && t[k + 1..] == s[k + 1..][..m];
  }

  lemma LastMemberText(t: string, member: Member, depth: nat)
    requires MemberText(t, member) && Fits(member.value, depth + 1)
    ensures MembersText(t, [member]) && MembersFit([member], depth)
  {
    hide MemberText;
    MembersFitBoth([member], depth);
  }

  lemma MoreMembersText(t: string, k: nat, member: Member, members: seq<Member>, depth: nat, s: string, more: nat)
    requires k < |s| && k + 1 + more <= |s| && t == s[..k + 1 + more] && s[k] == ','
    requires MemberText(s[..k], member) && members != [] && MembersText(s[k + 1..][..more], members)
    requires Fits(member.value, depth + 1) && MembersFit(members, depth)
    ensures MembersText(t, [member] + members) && MembersFit([member] + members, depth)
  {
    hide MemberText;
    assert t[..k] == s[..k] && t[k + 1..] == s[k + 1..][..more];
    assert ([member] + members)[1..] == members;
    MembersFitBoth([member] + members, depth);
  }

  // ---- The reader is the grammar -----------------------------------------------------------

  /**
   * A document parses as a value exactly if it is a text of the value, with space around it, and the
   * value is nested no deeper than 10000.
   */
  lemma ParseMeans(data: string, value: Value)
    ensures Parse(data) == Some(value) <==> Padded(data, value) && Height(value) <= 10_000
  {
    hide Padded, ReadValue;
    if Padded(data, value) {
      var after := PaddedReads(data, value, [], 0);
      assert data + [] == data && SkipSpace([]) == [];
    }
    if Parse(data) == Some(value) {
      var i, j := ReadSpelled(data, 0);
      var k := SkipIs(data[j..]);
      PaddedUpTo(data, i, j, |data|, value, k);
      assert data[..|data|] == data;
    }
  }

  // ---- The writers write it ----------------------------------------------------------------

  lemma HexCharIs(digit: nat)
    requires digit < 16
    ensures IsHex(HexChar(digit), digit) && HexChar(digit) in HEX_LOWER
  {
    assert HEX_LOWER[digit] in HEX_LOWER;
    assert HexDigit(HexChar(digit)) == Some(digit);
    HexDigitIs(HexChar(digit), digit);
    assert HexChar(digit) != HEX_UPPER[digit] || digit < 10;
    assert digit < 10 ==> HEX_UPPER[digit] == HEX_LOWER[digit];
  }

  lemma HexTextIs(code: nat)
    requires code < 0x1_0000
    ensures IsCode(HexText(code), code)
  {
    hide HexChar, IsHex;
    HexParts(code);
    var a, b, c, d := code / 0x1000, code / 0x100 % 16, code / 16 % 16, code % 16;
    HexCharIs(a);
    HexCharIs(b);
    HexCharIs(c);
    HexCharIs(d);
    var t := HexText(code);
    assert IsHex(t[0], a) && IsHex(t[1], b) && IsHex(t[2], c) && IsHex(t[3], d);
  }

  lemma HexParts(code: nat)
    requires code < 0x1_0000
    ensures code / 0x1000 < 16
    ensures 0x1000 * (code / 0x1000) + 0x100 * (code / 0x100 % 16) + 16 * (code / 16 % 16) + code % 16 == code
  {
    var a, b, c := code / 16, code / 0x100, code / 0x1000;
    assert a == 16 * b + a % 16;
    assert b == 16 * c + b % 16;
  }

  lemma EscapeIsPiece(c: char, escapeHtml: bool, after: string)
    ensures Piece(EscapeChar(c, escapeHtml), c, after)
  {
    var p := EscapeChar(c, escapeHtml);
    if |p| > 2 {
      HexTextIs(c as int);
      hide HexText, IsCode;
      assert p[2..6] == HexText(c as int);
      assert StartsCode(p, c as int);
    }
  }

  lemma {:induction false} EscapeIsBody(text: string, escapeHtml: bool)
    ensures Body(EscapeText(text, escapeHtml), text)
  {
    if text != [] {
      hide Piece, EscapeChar;
      EscapeIsBody(text[1..], escapeHtml);
      var p, more := EscapeChar(text[0], escapeHtml), EscapeText(text[1..], escapeHtml);
      EscapeIsPiece(text[0], escapeHtml, more);
      EscapeCharLength(text[0], escapeHtml);
      assert (p + more)[..|p|] == p && (p + more)[|p|..] == more;
    }
  }

  lemma EscapeCharLength(c: char, escapeHtml: bool)
    ensures EscapeChar(c, escapeHtml) != []
  {
  }

  lemma WriteStringSpells(text: string, escapeHtml: bool)
    ensures StringText(WriteString(text, escapeHtml), text)
  {
    hide Body, EscapeText;
    EscapeIsBody(text, escapeHtml);
    var t := WriteString(text, escapeHtml);
    assert t[1..|t| - 1] == EscapeText(text, escapeHtml);
  }

  lemma BarePadded(t: string, value: Value)
    requires Spells(t, value)
    ensures Padded(t, value)
  {
    hide Spells;
    assert t[..0] == [] && t[0..|t|] == t && t[|t|..] == [];
  }

  /** What is written is a text of the value. */
  lemma {:induction false} WriteSpells(value: Value, escapeHtml: bool)
    requires Writable(value)
    ensures Spells(Write(value, escapeHtml), value)
    decreases value, 1
  {
    match value
    case Number(text) => NumberIs(text); assert text[..|text|] == text;
    case String(text) => WriteStringSpells(text, escapeHtml);
    case Array(elements) =>
      if elements != [] {
        WriteElementsSpell(elements, escapeHtml);
      }
      var t := Write(value, escapeHtml);
      assert t[1..|t| - 1] == WriteElements(elements, escapeHtml);
    case Object(members) =>
      if members != [] {
        WriteMembersSpell(members, escapeHtml);
      }
      var t := Write(value, escapeHtml);
      assert t[1..|t| - 1] == WriteMembers(members, escapeHtml);
    case _ =>
  }

  lemma {:induction false} WriteElementsSpell(elements: seq<Value>, escapeHtml: bool)
    requires elements != [] && forall e | e in elements :: Writable(e)
    ensures ElementsText(WriteElements(elements, escapeHtml), elements)
    decreases elements, 0
  {
    hide Padded, Write;
    WriteSpells(elements[0], escapeHtml);
    BarePadded(Write(elements[0], escapeHtml), elements[0]);
    if |elements| > 1 {
      WriteElementsSpell(elements[1..], escapeHtml);
      var first, more := Write(elements[0], escapeHtml), WriteElements(elements[1..], escapeHtml);
      var t := first + "," + more;
      assert t[..|first|] == first && t[|first|] == ',' && t[|first| + 1..] == more;
    }
  }

  lemma WriteMemberSpells(member: Member, escapeHtml: bool)
    requires Spells(Write(member.value, escapeHtml), member.value)
    ensures MemberText(WriteMember(member, escapeHtml), member)
  {
    hide Padded, Write, WriteString, StringText, Spells;
    WriteStringSpells(member.key, true);
    BarePadded(Write(member.value, escapeHtml), member.value);
    var key, value := WriteString(member.key, true), Write(member.value, escapeHtml);
    var t := key + ":" + value;
    var k := |key|;
    assert t[..0] == [] && t[0..k] == key && t[k..k] == [] && t[k] == ':' && t[k + 1..] == value;
  }

  lemma {:induction false} WriteMembersSpell(members: seq<Member>, escapeHtml: bool)
    requires members != [] && forall m | m in members :: Writable(m.value)
    ensures MembersText(WriteMembers(members, escapeHtml), members)
    decreases members, 0
  {
    hide MemberText, WriteMember;
    WriteSpells(members[0].value, escapeHtml);
    WriteMemberSpells(members[0], escapeHtml);
    if |members| > 1 {
      WriteMembersSpell(members[1..], escapeHtml);
      var first, more := WriteMember(members[0], escapeHtml), WriteMembers(members[1..], escapeHtml);
      var t := first + "," + more;
      assert t[..|first|] == first && t[|first|] == ',' && t[|first| + 1..] == more;
    }
  }

  /**
   * Reading what the writers wrote gives the value back, whatever delimits it, exactly when it is
   * not nested too deep.
   */
  lemma WrittenReads(value: Value, escapeHtml: bool, rest: string, depth: nat)
    requires Writable(value) && Delimits(rest)
    ensures ReadValue(Write(value, escapeHtml) + rest, depth) ==
            if Fits(value, depth) then Some(Reading(value, rest)) else None
  {
    WriteSpells(value, escapeHtml);
    SpelledReads(Write(value, escapeHtml), value, rest, depth);
  }

  /** `parse` inverts the writers, exactly on the values nested no deeper than the reader goes. */
  lemma ParseInvertsWrite(value: Value, escapeHtml: bool)
    requires Writable(value)
    ensures Parse(Write(value, escapeHtml)) == if Height(value) <= MAX_DEPTH then Some(value) else None
  {
    WrittenReads(value, escapeHtml, [], 0);
    assert Write(value, escapeHtml) + [] == Write(value, escapeHtml);
  }

  /**
   * A character is written as itself unless it has to be escaped: the two of RFC 8259 (section 7), the
   * controls, the two line separators, and the three of HTML where asked. Then it is by its letter if it
   * has one, and otherwise by its code in lower case.
   */
  lemma EscapeMeans(c: char, escapeHtml: bool)
    ensures var p, code := EscapeChar(c, escapeHtml), c as int;
            if c == '"' || c == '\\' || code in {0x08, 0x09, 0x0A, 0x0C, 0x0D} then
              |p| == 2 && p[0] == '\\' && p[1] != '/' && IsLetter(p[1], code)
            else if code < 0x20 || code == 0x2028 || code == 0x2029 || (escapeHtml && (c == '<' || c == '>' || c == '&')) then
              |p| == 6 && StartsCode(p, code) && forall d | d in p[2..] :: d in HEX_LOWER
            else p == [c]
  {
    var p, code := EscapeChar(c, escapeHtml), c as int;
    if |p| == 6 {
      HexTextIs(code);
      HexLower(code);
      hide HexText, IsCode;
      assert p[2..6] == p[2..] == HexText(code);
    }
  }

  lemma HexLower(code: nat)
    requires code < 0x1_0000
    ensures forall d | d in HexText(code) :: d in HEX_LOWER
  {
    HexParts(code);
    HexCharIs(code / 0x1000);
    HexCharIs(code / 0x100 % 16);
    HexCharIs(code / 16 % 16);
    HexCharIs(code % 16);
  }
}
