/**
 * The JSON reader and writers of `gojson.rs`, as functions of text. Texts are sequences of Unicode
 * scalar values; every character the reader tells apart is ASCII, so reading valid UTF-8 byte by
 * byte or character by character is the same. Why a reading fails is not kept.
 */
module GoJson {
  import opened Common

  /** What a text says: every member, as often as it is there and where; a number by its text. */
  datatype Value =
    | Null
    | Bool(flag: bool)
    | Number(text: string)
    | String(text: string)
    | Array(elements: seq<Value>)
    | Object(members: seq<Member>)

  datatype Member = Member(key: string, value: Value)

  /** Something read, and the text after it. */
  datatype Reading<T> = Reading(value: T, rest: string)

  const MAX_DEPTH := 10_000

  // ---- Reading -----------------------------------------------------------------------------

  predicate IsSpace(c: char) {
    c == ' ' || c == '\t' || c == '\r' || c == '\n'
  }

  function SkipSpace(s: string): (r: string)
    ensures |r| <= |s|
    ensures r != [] ==> !IsSpace(r[0])
  {
    if s != [] && IsSpace(s[0]) then SkipSpace(s[1..]) else s
  }

  predicate StartsWith(s: string, c: char) {
    s != [] && s[0] == c
  }

  /** The numeric value of a hexadecimal digit. */
  function HexDigit(c: char): (r: Option<nat>)
    ensures r.Some? ==> r.value < 16
  {
    if '0' <= c <= '9' then Some(c as int - 48)
    else if 'a' <= c <= 'f' then Some(c as int - 87)
    else if 'A' <= c <= 'F' then Some(c as int - 55)
    else None
  }

  function HexValue(digits: string, soFar: nat): (r: Option<nat>)
    ensures r.Some? ==> forall c | c in digits :: HexDigit(c).Some?
  {
    if digits == [] then Some(soFar)
    else
      match HexDigit(digits[0])
      case None => None
      case Some(digit) => HexValue(digits[1..], 16 * soFar + digit)
  }

  /** Four characters as `u32::from_str_radix` reads them: a leading plus sign is allowed. */
  function Hex4(s: string): Option<nat> {
    if |s| < 4 then None
    else if s[0] == '+' then HexValue(s[1..4], 0)
    else HexValue(s[..4], 0)
  }

  const REPLACEMENT := '\U{FFFD}'

  /** `char::from_u32`, or the replacement character. */
  function Scalar(code: nat): char {
    if code < 0xD800 || 0xE000 <= code < 0x11_0000 then code as char else REPLACEMENT
  }

  /** A `\u` escape, after the `u`: the character and the text after it. */
  function ReadUnicode(s: string): (r: Option<Reading<char>>)
    ensures r.Some? ==> |r.value.rest| < |s|
  {
    match Hex4(s)
    case None => None
    case Some(first) =>
      var after := s[4..];
      if 0xD800 <= first < 0xDC00 && |after| >= 2 && after[0] == '\\' && after[1] == 'u' then
        match Hex4(after[2..])
        case None => None
        case Some(second) =>
          if 0xDC00 <= second < 0xE000 then
            Some(Reading(Scalar(0x1_0000 + 0x400 * (first - 0xD800) + (second - 0xDC00)), after[6..]))
          else Some(Reading(REPLACEMENT, after))
      else Some(Reading(Scalar(first), after))
  }

  /** The character a one-letter escape stands for. */
  function Unescaped(c: char): Option<char> {
    if c == '"' || c == '\\' || c == '/' then Some(c)
    else if c == 'b' then Some(8 as char)
    else if c == 'f' then Some(12 as char)
    else if c == 'n' then Some('\n')
    else if c == 'r' then Some('\r')
    else if c == 't' then Some('\t')
    else None
  }

  /** One character of a string's text, escaped or not; not its closing quote. */
  function ReadChar(s: string): (r: Option<Reading<char>>)
    ensures r.Some? ==> |r.value.rest| < |s|
  {
    if s == [] then None
    else if s[0] == '\\' then
      if |s| < 2 then None
      else if s[1] == 'u' then ReadUnicode(s[2..])
      else
        match Unescaped(s[1])
        case None => None
        case Some(c) => Some(Reading(c, s[2..]))
    else if s[0] as int < 0x20 then None
    else Some(Reading(s[0], s[1..]))
  }

  /** A string's text after the opening quote. */
  function ReadString(s: string): (r: Option<Reading<string>>)
    ensures r.Some? ==> |r.value.rest| < |s|
    decreases |s|
  {
    if s == [] then None
    else if s[0] == '"' then Some(Reading([], s[1..]))
    else
      match ReadChar(s)
      case None => None
      case Some(read) =>
        match ReadString(read.rest)
        case None => None
        case Some(more) => Some(Reading([read.value] + more.value, more.rest))
  }

  predicate IsDigit(c: char) {
    '0' <= c <= '9'
  }

  /** The length of the run of digits at the head of `s`. */
  function DigitRun(s: string): (r: nat)
    ensures r <= |s|
    ensures forall i | 0 <= i < r :: IsDigit(s[i])
    ensures r < |s| ==> !IsDigit(s[r])
  {
    if s != [] && IsDigit(s[0]) then 1 + DigitRun(s[1..]) else 0
  }

  /** The length of an integer part: a zero, or digits. */
  function IntegerLength(s: string): (r: Option<nat>)
    ensures r.Some? ==> 0 < r.value <= |s|
  {
    if s == [] || !IsDigit(s[0]) then None
    else if s[0] == '0' then Some(1)
    else Some(DigitRun(s))
  }

  /** The length of an optional fraction. */
  function FractionLength(s: string): (r: Option<nat>)
    ensures r.Some? ==> r.value <= |s|
  {
    if !StartsWith(s, '.') then Some(0)
    else
      var run := DigitRun(s[1..]);
      if run == 0 then None else Some(1 + run)
  }

  /** The length of an optional exponent. */
  function ExponentLength(s: string): (r: Option<nat>)
    ensures r.Some? ==> r.value <= |s|
  {
    if !StartsWith(s, 'e') && !StartsWith(s, 'E') then Some(0)
    else
      var sign := if StartsWith(s[1..], '+') || StartsWith(s[1..], '-') then 1 else 0;
      var run := DigitRun(s[1 + sign..]);
      if run == 0 then None else Some(1 + sign + run)
  }

  /** The length of a number whose first `at` characters are its sign, integer and fraction. */
  function LengthFromExponent(s: string, at: nat): (r: Option<nat>)
    requires at <= |s|
    ensures r.Some? ==> at <= r.value <= |s|
  {
    match ExponentLength(s[at..])
    case None => None
    case Some(exponent) => Some(at + exponent)
  }

  function LengthFromFraction(s: string, at: nat): (r: Option<nat>)
    requires at <= |s|
    ensures r.Some? ==> at <= r.value <= |s|
  {
    match FractionLength(s[at..])
    case None => None
    case Some(fraction) => LengthFromExponent(s, at + fraction)
  }

  /** The length of the number at the head of `s`. */
  function NumberLength(s: string): (r: Option<nat>)
    ensures r.Some? ==> 0 < r.value <= |s|
  {
    var sign := if StartsWith(s, '-') then 1 else 0;
    match IntegerLength(s[sign..])
    case None => None
    case Some(integer) => LengthFromFraction(s, sign + integer)
  }

  function ReadLiteral(s: string, text: string, value: Value): (r: Option<Reading<Value>>)
    requires text != []
    ensures r.Some? ==> |r.value.rest| < |s|
  {
    if text <= s then Some(Reading(value, s[|text|..])) else None
  }

  function ReadValue(s: string, depth: nat): (r: Option<Reading<Value>>)
    ensures r.Some? ==> |r.value.rest| < |s|
    decreases |s|, 0
  {
    var t := SkipSpace(s);
    if depth > MAX_DEPTH || t == [] then None
    else if t[0] == '{' then ReadObject(t[1..], depth)
    else if t[0] == '[' then ReadArray(t[1..], depth)
    else if t[0] == '"' then
      match ReadString(t[1..])
      case None => None
      case Some(read) => Some(Reading(String(read.value), read.rest))
    else if t[0] == 't' then ReadLiteral(t, "true", Bool(true))
    else if t[0] == 'f' then ReadLiteral(t, "false", Bool(false))
    else if t[0] == 'n' then ReadLiteral(t, "null", Null)
    else if t[0] == '-' || IsDigit(t[0]) then
      match NumberLength(t)
      case None => None
      case Some(length) => Some(Reading(Number(t[..length]), t[length..]))
    else None
  }

  function ReadObject(s: string, depth: nat): (r: Option<Reading<Value>>)
    ensures r.Some? ==> |r.value.rest| < |s|
    decreases |s|, 2
  {
    var t := SkipSpace(s);
    if StartsWith(t, '}') then Some(Reading(Object([]), t[1..]))
    else
      match ReadMembers(t, depth)
      case None => None
      case Some(read) => Some(Reading(Object(read.value), read.rest))
  }

  function ReadMembers(s: string, depth: nat): (r: Option<Reading<seq<Member>>>)
    ensures r.Some? ==> |r.value.rest| < |s|
    decreases |s|, 1
  {
    var t := SkipSpace(s);
    if !StartsWith(t, '"') then None
    else
      match ReadString(t[1..])
      case None => None
      case Some(key) =>
        var u := SkipSpace(key.rest);
        if !StartsWith(u, ':') then None
        else
          match ReadValue(u[1..], depth + 1)
          case None => None
          case Some(value) =>
            var member := Member(key.value, value.value);
            var v := SkipSpace(value.rest);
            if StartsWith(v, ',') then
              match ReadMembers(v[1..], depth)
              case None => None
              case Some(more) => Some(Reading([member] + more.value, more.rest))
            else if StartsWith(v, '}') then Some(Reading([member], v[1..]))
            else None
  }

  function ReadArray(s: string, depth: nat): (r: Option<Reading<Value>>)
    ensures r.Some? ==> |r.value.rest| < |s|
    decreases |s|, 2
  {
    var t := SkipSpace(s);
    if StartsWith(t, ']') then Some(Reading(Array([]), t[1..]))
    else
      match ReadElements(t, depth)
      case None => None
      case Some(read) => Some(Reading(Array(read.value), read.rest))
  }

  function ReadElements(s: string, depth: nat): (r: Option<Reading<seq<Value>>>)
    ensures r.Some? ==> |r.value.rest| < |s|
    decreases |s|, 1
  {
    match ReadValue(s, depth + 1)
    case None => None
    case Some(value) =>
      var v := SkipSpace(value.rest);
      if StartsWith(v, ',') then
        match ReadElements(v[1..], depth)
        case None => None
        case Some(more) => Some(Reading([value.value] + more.value, more.rest))
      else if StartsWith(v, ']') then Some(Reading([value.value], v[1..]))
      else None
  }

  /** One document; only space may follow it. */
  function Parse(data: string): Option<Value> {
    match ReadValue(data, 0)
    case None => None
    case Some(read) => if SkipSpace(read.rest) == [] then Some(read.value) else None
  }

  // ---- Space before a value does not matter

  lemma {:induction false} SkipTwice(s: string)
    ensures SkipSpace(SkipSpace(s)) == SkipSpace(s)
  {
    if s != [] && IsSpace(s[0]) {
      SkipTwice(s[1..]);
    }
  }

  lemma ReadValueSkips(s: string, t: string, depth: nat)
    requires SkipSpace(s) == SkipSpace(t)
    ensures ReadValue(s, depth) == ReadValue(t, depth)
  {
  }

  lemma ReadElementsSkips(s: string, t: string, depth: nat)
    requires SkipSpace(s) == SkipSpace(t)
    ensures ReadElements(s, depth) == ReadElements(t, depth)
  {
    ReadValueSkips(s, t, depth + 1);
  }

  lemma ReadMembersSkips(s: string, t: string, depth: nat)
    requires SkipSpace(s) == SkipSpace(t)
    ensures ReadMembers(s, depth) == ReadMembers(t, depth)
  {
  }

  predicate Blank(s: string) {
    forall c | c in s :: IsSpace(c)
  }

  lemma {:induction false} SkipBlank(blank: string, s: string)
    requires Blank(blank)
    ensures SkipSpace(blank + s) == SkipSpace(s)
  {
    if blank == [] {
      assert blank + s == s;
    } else {
      assert (blank + s)[1..] == blank[1..] + s;
      SkipBlank(blank[1..], s);
    }
  }

  // ---- Writing -----------------------------------------------------------------------------

  function HexChar(digit: nat): char
    requires digit < 16
  {
    if digit < 10 then (48 + digit) as char else (87 + digit) as char
  }

  /** Four lower-case hexadecimal digits. */
  function HexText(code: nat): string
    requires code < 0x1_0000
  {
    [HexChar(code / 0x1000), HexChar(code / 0x100 % 16), HexChar(code / 16 % 16), HexChar(code % 16)]
  }

  function EscapeChar(c: char, escapeHtml: bool): string {
    if c == '"' then "\\\""
    else if c == '\\' then "\\\\"
    else if c == '\n' then "\\n"
    else if c == '\r' then "\\r"
    else if c == '\t' then "\\t"
    else if c == 8 as char then "\\b"
    else if c == 12 as char then "\\f"
    else if c as int < 0x20 || c as int == 0x2028 || c as int == 0x2029 ||
            (escapeHtml && (c == '<' || c == '>' || c == '&')) then
      "\\u" + HexText(c as int)
    else [c]
  }

  function EscapeText(text: string, escapeHtml: bool): string {
    if text == [] then [] else EscapeChar(text[0], escapeHtml) + EscapeText(text[1..], escapeHtml)
  }

  function WriteString(text: string, escapeHtml: bool): string {
    "\"" + EscapeText(text, escapeHtml) + "\""
  }

  /** A value as the writers put it together: keys are always written HTML-safe. */
  function Write(value: Value, escapeHtml: bool): string
    decreases value, 1
  {
    match value
    case Null => "null"
    case Bool(flag) => if flag then "true" else "false"
    case Number(text) => text
    case String(text) => WriteString(text, escapeHtml)
    case Array(elements) => "[" + WriteElements(elements, escapeHtml) + "]"
    case Object(members) => "{" + WriteMembers(members, escapeHtml) + "}"
  }

  function WriteElements(elements: seq<Value>, escapeHtml: bool): string
    decreases elements, 0
  {
    if elements == [] then []
    else if |elements| == 1 then Write(elements[0], escapeHtml)
    else Write(elements[0], escapeHtml) + "," + WriteElements(elements[1..], escapeHtml)
  }

  function WriteMember(member: Member, escapeHtml: bool): string
    decreases member, 2
  {
    WriteString(member.key, true) + ":" + Write(member.value, escapeHtml)
  }

  function WriteMembers(members: seq<Member>, escapeHtml: bool): string
    decreases members, 0
  {
    if members == [] then []
    else if |members| == 1 then WriteMember(members[0], escapeHtml)
    else WriteMember(members[0], escapeHtml) + "," + WriteMembers(members[1..], escapeHtml)
  }

  // ---- What the writers write is read back -------------------------------------------------

  predicate IsNumber(text: string) {
    NumberLength(text) == Some(|text|)
  }

  /** Every number is written as one. */
  predicate Writable(value: Value)
    decreases value
  {
    match value
    case Number(text) => IsNumber(text)
    case Array(elements) => forall e | e in elements :: Writable(e)
    case Object(members) => forall m | m in members :: Writable(m.value)
    case _ => true
  }

  function Max(a: nat, b: nat): nat {
    if a < b then b else a
  }

  /** How far the deepest value is nested. */
  function Height(value: Value): nat
    decreases value, 1
  {
    match value
    case Array(elements) => if elements == [] then 0 else 1 + HeightOfElements(elements)
    case Object(members) => if members == [] then 0 else 1 + HeightOfMembers(members)
    case _ => 0
  }

  function HeightOfElements(elements: seq<Value>): nat
    decreases elements, 0
  {
    if elements == [] then 0 else Max(Height(elements[0]), HeightOfElements(elements[1..]))
  }

  function HeightOfMembers(members: seq<Member>): nat
    decreases members, 0
  {
    if members == [] then 0 else Max(Height(members[0].value), HeightOfMembers(members[1..]))
  }

  /** Whether a character can go on a number. */
  predicate GoesOn(c: char) {
    IsDigit(c) || c == '.' || c == 'e' || c == 'E'
  }

  /** `after` ends a number as surely as `rest` did. */
  predicate EndsLike(rest: string, after: string) {
    after == [] || !GoesOn(after[0]) || (rest != [] && rest[0] == after[0])
  }

  lemma {:induction false} DigitRunOf(s: string, k: nat)
    requires k <= |s|
    requires forall i | 0 <= i < k :: IsDigit(s[i])
    requires k < |s| ==> !IsDigit(s[k])
    ensures DigitRun(s) == k
  {
    if k > 0 {
      DigitRunOf(s[1..], k - 1);
    }
  }

  /** `t` starts with the first `n` characters of `s`, and then ends a number as `s` does. */
  predicate Alike(s: string, t: string, n: nat) {
    n <= |s| && n <= |t| && s[..n] == t[..n] && EndsLike(s[n..], t[n..])
  }

  lemma AlikeLater(s: string, t: string, n: nat, k: nat)
    requires Alike(s, t, n) && k <= n
    ensures Alike(s[k..], t[k..], n - k)
  {
    assert s[k..][..n - k] == s[..n][k..];
    assert t[k..][..n - k] == t[..n][k..];
    assert s[k..][n - k..] == s[n..] && t[k..][n - k..] == t[n..];
  }

  lemma AlikeAt(s: string, t: string, n: nat)
    requires Alike(s, t, n)
    ensures forall i | 0 <= i < n :: s[i] == t[i]
    ensures n < |t| ==> !GoesOn(t[n]) || (n < |s| && s[n] == t[n])
  {
    assert forall i | 0 <= i < n :: s[i] == s[..n][i] && t[i] == t[..n][i];
    if n < |t| {
      assert t[n..][0] == t[n];
      if n < |s| { assert s[n..][0] == s[n]; }
    }
  }

  lemma DigitRunAlike(s: string, t: string, n: nat)
    requires Alike(s, t, n) && DigitRun(s) <= n
    ensures DigitRun(t) == DigitRun(s)
  {
    AlikeAt(s, t, n);
    DigitRunOf(t, DigitRun(s));
  }

  lemma IntegerAlike(s: string, t: string, n: nat)
    requires Alike(s, t, n) && IntegerLength(s).Some? && IntegerLength(s).value <= n
    ensures IntegerLength(t) == IntegerLength(s)
  {
    AlikeAt(s, t, n);
    if s[0] != '0' {
      DigitRunAlike(s, t, n);
    }
  }

  lemma FractionAlike(s: string, t: string, n: nat)
    requires Alike(s, t, n) && FractionLength(s).Some? && FractionLength(s).value <= n
    ensures FractionLength(t) == FractionLength(s)
  {
    AlikeAt(s, t, n);
    if StartsWith(s, '.') {
      AlikeLater(s, t, n, 1);
      DigitRunAlike(s[1..], t[1..], n - 1);
    }
  }

  lemma ExponentAlike(s: string, t: string, n: nat)
    requires Alike(s, t, n) && ExponentLength(s).Some? && ExponentLength(s).value <= n
    ensures ExponentLength(t) == ExponentLength(s)
  {
    hide DigitRun;
    AlikeAt(s, t, n);
    if StartsWith(s, 'e') || StartsWith(s, 'E') {
      var sign := if StartsWith(s[1..], '+') || StartsWith(s[1..], '-') then 1 else 0;
      assert s[1..][0] == s[1] && t[1..][0] == t[1];
      AlikeLater(s, t, n, 1 + sign);
      DigitRunAlike(s[1 + sign..], t[1 + sign..], n - 1 - sign);
    }
  }

  lemma FromExponentAlike(s: string, t: string, at: nat)
    requires at <= |s| && LengthFromExponent(s, at).Some? && Alike(s, t, LengthFromExponent(s, at).value)
    ensures LengthFromExponent(t, at) == LengthFromExponent(s, at)
  {
    hide ExponentLength;
    var n := LengthFromExponent(s, at).value;
    AlikeLater(s, t, n, at);
    ExponentAlike(s[at..], t[at..], n - at);
  }

  lemma FromFractionSame(s: string, t: string, at: nat, fraction: nat)
    requires at <= |s| && at <= |t|
    requires FractionLength(s[at..]) == FractionLength(t[at..]) == Some(fraction)
    requires LengthFromExponent(s, at + fraction) == LengthFromExponent(t, at + fraction)
    ensures LengthFromFraction(s, at) == LengthFromFraction(t, at)
  {
    hide FractionLength, LengthFromExponent;
  }

  lemma FractionWithin(s: string, at: nat, fraction: nat)
    requires at <= |s| && LengthFromFraction(s, at).Some? && FractionLength(s[at..]).value == fraction
    ensures at + fraction <= |s| && LengthFromExponent(s, at + fraction) == LengthFromFraction(s, at)
    ensures at + fraction <= LengthFromFraction(s, at).value
  {
  }

  lemma FractionAt(s: string, t: string, n: nat, at: nat)
    requires Alike(s, t, n) && at <= n && FractionLength(s[at..]).Some? && at + FractionLength(s[at..]).value <= n
    ensures FractionLength(t[at..]) == FractionLength(s[at..])
  {
    AlikeLater(s, t, n, at);
    FractionAlike(s[at..], t[at..], n - at);
  }

  lemma FromFractionAlike(s: string, t: string, at: nat)
    requires at <= |s| && LengthFromFraction(s, at).Some? && Alike(s, t, LengthFromFraction(s, at).value)
    ensures LengthFromFraction(t, at) == LengthFromFraction(s, at)
  {
    var n, fraction := LengthFromFraction(s, at).value, FractionLength(s[at..]).value;
    FractionWithin(s, at, fraction);
    FractionAt(s, t, n, at);
    FromExponentAlike(s, t, at + fraction);
    FromFractionSame(s, t, at, fraction);
  }

  /** A number is read the same in front of any text that ends it. */
  lemma NumberAlike(s: string, t: string)
    requires NumberLength(s).Some? && Alike(s, t, NumberLength(s).value)
    ensures NumberLength(t) == NumberLength(s)
  {
    hide IntegerLength, LengthFromFraction, DigitRun;
    var n := NumberLength(s).value;
    AlikeAt(s, t, n);
    var sign := if StartsWith(s, '-') then 1 else 0;
    AlikeLater(s, t, n, sign);
    IntegerAlike(s[sign..], t[sign..], n - sign);
    FromFractionAlike(s, t, sign + IntegerLength(s[sign..]).value);
  }

  /** Text after a written value: it cannot lengthen a number. */
  predicate Delimits(rest: string) {
    rest == [] || !GoesOn(rest[0])
  }

  // One case of `ReadValue` each.

  lemma ReadValueNumber(t: string, depth: nat)
    requires t != [] && (t[0] == '-' || IsDigit(t[0])) && NumberLength(t).Some?
    ensures ReadValue(t, depth) ==
            if depth > MAX_DEPTH then None
            else Some(Reading(Number(t[..NumberLength(t).value]), t[NumberLength(t).value..]))
  {
    hide NumberLength, ReadString, ReadArray, ReadObject;
  }

  lemma ReadValueString(t: string, depth: nat, read: Reading<string>)
    requires StartsWith(t, '"') && ReadString(t[1..]) == Some(read)
    ensures ReadValue(t, depth) == if depth > MAX_DEPTH then None else Some(Reading(String(read.value), read.rest))
  {
  }

  lemma ReadValueArray(t: string, depth: nat)
    requires StartsWith(t, '[')
    ensures ReadValue(t, depth) == if depth > MAX_DEPTH then None else ReadArray(t[1..], depth)
  {
  }

  lemma ReadValueObject(t: string, depth: nat)
    requires StartsWith(t, '{')
    ensures ReadValue(t, depth) == if depth > MAX_DEPTH then None else ReadObject(t[1..], depth)
  {
  }

  lemma NumberReads(text: string, rest: string, depth: nat)
    requires IsNumber(text) && Delimits(rest)
    ensures ReadValue(text + rest, depth) ==
            if depth > MAX_DEPTH then None else Some(Reading(Number(text), rest))
  {
    var s := text + rest;
    assert s[..|text|] == text && text[..|text|] == text && s[|text|..] == rest;
    NumberAlike(text, s);
    ReadValueNumber(s, depth);
  }

  predicate Fits(value: Value, depth: nat) {
    depth + Height(value) <= MAX_DEPTH
  }

  predicate ElementsFit(elements: seq<Value>, depth: nat) {
    depth + 1 + HeightOfElements(elements) <= MAX_DEPTH
  }

  predicate MembersFit(members: seq<Member>, depth: nat) {
    depth + 1 + HeightOfMembers(members) <= MAX_DEPTH
  }

  lemma MembersFitBoth(members: seq<Member>, depth: nat)
    requires members != []
    ensures MembersFit(members, depth) <==> Fits(members[0].value, depth + 1) && (|members| == 1 || MembersFit(members[1..], depth))
  {
    assert HeightOfMembers(members) == Max(Height(members[0].value), HeightOfMembers(members[1..]));
    if |members| == 1 {
      assert members[1..] == [] && HeightOfMembers(members[1..]) == 0;
    }
  }
}
