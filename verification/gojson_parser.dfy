/**
 * The parser of `gojson.rs`: a cursor moved over the text. Every method moves the cursor to where
 * the reading functions of `GoJson` say the text after what it read starts.
 */
module GoJsonParser {
  import opened Common
  import opened GoJson

  /** `read` with more values in front. */
  function Prepend<T>(front: seq<T>, read: Option<Reading<seq<T>>>): Option<Reading<seq<T>>> {
    match read
    case None => None
    case Some(read) => Some(Reading(front + read.value, read.rest))
  }

  class Parser {
    const bytes: string
    var at: nat

    ghost predicate Valid()
      reads this
    {
      at <= |bytes|
    }

    /** The text not read yet. */
    ghost function Rest(): string
      requires Valid()
      reads this
    {
      bytes[at..]
    }

    /** The outcome `r` and the cursor are what `read` says. */
    ghost predicate Read<T>(r: Option<T>, read: Option<Reading<T>>)
      reads this
    {
      Valid() &&
      match read
      case None => r.None?
      case Some(read) => r == Some(read.value) && Rest() == read.rest
    }

    constructor (data: string)
      ensures Valid() && bytes == data && Rest() == data
    {
      bytes := data;
      at := 0;
    }

    function Peek(): Option<char>
      requires Valid()
      reads this
      ensures Peek() == if Rest() == [] then None else Some(Rest()[0])
    {
      if at < |bytes| then Some(bytes[at]) else None
    }

    method Skip()
      requires Valid()
      modifies this
      ensures Valid() && Rest() == SkipSpace(old(Rest())) && at >= old(at)
    {
      while at < |bytes| && IsSpace(bytes[at])
        invariant Valid() && at >= old(at)
        invariant SkipSpace(Rest()) == SkipSpace(old(Rest()))
      {
        assert bytes[at..][1..] == bytes[at + 1..];
        at := at + 1;
      }
    }

    method Eat(byte: char) returns (eaten: bool)
      requires Valid()
      modifies this
      ensures Valid() && eaten == StartsWith(old(Rest()), byte)
      ensures Rest() == if eaten then old(Rest())[1..] else old(Rest())
      ensures at == if eaten then old(at) + 1 else old(at)
    {
      if Peek() == Some(byte) {
        at := at + 1;
        return true;
      }
      return false;
    }

    method Literal(text: string) returns (found: bool)
      requires Valid()
      modifies this
      ensures Valid() && found == (text <= old(Rest()))
      ensures Rest() == if found then old(Rest())[|text|..] else old(Rest())
    {
      if text <= bytes[at..] {
        at := at + |text|;
        return true;
      }
      return false;
    }

    method ReadHex4() returns (r: Option<nat>)
      requires Valid()
      modifies this
      ensures Valid() && r == Hex4(old(Rest()))
      ensures if r.Some? then at == old(at) + 4 && Rest() == old(Rest())[4..] else at == old(at)
    {
      if |bytes| - at < 4 {
        return None;
      }
      r := if bytes[at] == '+' then HexValue(bytes[at + 1..at + 4], 0) else HexValue(bytes[at..at + 4], 0);
      assert bytes[at..at + 4] == Rest()[..4] && bytes[at + 1..at + 4] == Rest()[1..4];
      if r.Some? {
        at := at + 4;
      }
    }

    /** A `\u` escape, after the `u`: a high surrogate looks for its low one and steps back from anything else. */
    method ReadUnicodeEscape() returns (r: Option<char>)
      requires Valid()
      modifies this
      ensures Read(r, ReadUnicode(old(Rest())))
      ensures at >= old(at)
    {
      var first := ReadHex4();
      if first.None? {
        return None;
      }
      ghost var after := Rest();
      if 0xD800 <= first.value < 0xDC00 && "\\u" <= bytes[at..] {
        var save := at;
        at := at + 2;
        assert Rest() == after[2..];
        var second := ReadHex4();
        if second.None? {
          return None;
        }
        if 0xDC00 <= second.value < 0xE000 {
          assert Rest() == after[6..];
          return Some(Scalar(0x1_0000 + 0x400 * (first.value - 0xD800) + (second.value - 0xDC00)));
        }
        at := save;
        return Some(REPLACEMENT);
      }
      assert (|after| >= 2 && after[0] == '\\' && after[1] == 'u') ==> "\\u" <= after;
      return Some(Scalar(first.value));
    }

    /** One character of a string, past its closing quote test. */
    method ReadCharacter() returns (r: Option<char>)
      requires Valid() && Rest() != []
      modifies this
      ensures Read(r, ReadChar(old(Rest())))
      ensures r.Some? ==> at > old(at)
    {
      ghost var s := Rest();
      var byte := bytes[at];
      at := at + 1;
      assert Rest() == s[1..];
      if byte == '\\' {
        if Peek().None? {
          return None;
        }
        var escape := bytes[at];
        at := at + 1;
        assert escape == s[1] && Rest() == s[2..];
        if escape == 'u' {
          r := ReadUnicodeEscape();
          return;
        }
        return Unescaped(escape);
      }
      if byte as int < 0x20 {
        return None;
      }
      return Some(byte);
    }

    /** A string, from its opening quote. */
    method ParseString() returns (r: Option<string>)
      requires Valid() && StartsWith(Rest(), '"')
      modifies this
      ensures Read(r, ReadString(old(Rest())[1..]))
      ensures r.Some? ==> at > old(at)
    {
      ghost var whole := Rest()[1..];
      at := at + 1;
      assert Rest() == whole;
      var out: string := [];
      PrependNothing(ReadString(whole));
      while true
        invariant Valid() && at > old(at)
        invariant ReadString(whole) == Prepend(out, ReadString(Rest()))
        decreases |bytes| - at
      {
        ghost var here := Rest();
        if Peek().None? {
          return None;
        }
        if bytes[at] == '"' {
          at := at + 1;
          assert Rest() == here[1..];
          assert out + [] == out;
          return Some(out);
        }
        var character := ReadCharacter();
        if character.None? {
          return None;
        }
        ghost var more := ReadString(Rest());
        if more.Some? {
          assert out + ([character.value] + more.value.value) == out + [character.value] + more.value.value;
        }
        out := out + [character.value];
      }
    }

    /** Digits, at least none. */
    method Digits() returns (run: nat)
      requires Valid()
      modifies this
      ensures Valid() && run == DigitRun(old(Rest())) && at == old(at) + run
    {
      run := 0;
      while at < |bytes| && IsDigit(bytes[at])
        invariant Valid() && at == old(at) + run
        invariant DigitRun(old(Rest())) == run + DigitRun(Rest())
      {
        assert bytes[at..][1..] == bytes[at + 1..];
        at := at + 1;
        run := run + 1;
      }
    }

    method Integer() returns (ok: bool)
      requires Valid()
      modifies this
      ensures Valid()
      ensures ok == IntegerLength(old(Rest())).Some?
      ensures ok ==> at == old(at) + IntegerLength(old(Rest())).value
    {
      if Peek() == Some('0') {
        at := at + 1;
        return true;
      }
      var run := Digits();
      return run > 0;
    }

    method Fraction() returns (ok: bool)
      requires Valid()
      modifies this
      ensures Valid()
      ensures ok == FractionLength(old(Rest())).Some?
      ensures ok ==> at == old(at) + FractionLength(old(Rest())).value
    {
      var point := Eat('.');
      if !point {
        return true;
      }
      var run := Digits();
      return run > 0;
    }

    method Exponent() returns (ok: bool)
      requires Valid()
      modifies this
      ensures Valid()
      ensures ok == ExponentLength(old(Rest())).Some?
      ensures ok ==> at == old(at) + ExponentLength(old(Rest())).value
    {
      ghost var s := Rest();
      if Peek() != Some('e') && Peek() != Some('E') {
        return true;
      }
      at := at + 1;
      assert Rest() == s[1..];
      if Peek() == Some('+') || Peek() == Some('-') {
        at := at + 1;
        assert Rest() == s[2..];
      }
      var run := Digits();
      return run > 0;
    }

    method ParseNumber() returns (r: Option<string>)
      requires Valid()
      modifies this
      ensures Valid()
      ensures match NumberLength(old(Rest()))
              case None => r.None?
              case Some(n) => r == Some(old(Rest())[..n]) && Rest() == old(Rest())[n..]
    {
      ghost var s := Rest();
      var start := at;
      var ok := SkipNumber();
      if !ok {
        return None;
      }
      assert bytes[start..at] == s[..at - start] && Rest() == s[at - start..];
      return Some(bytes[start..at]);
    }

    /** Moves over a number. */
    method SkipNumber() returns (ok: bool)
      requires Valid()
      modifies this
      ensures Valid()
      ensures ok == NumberLength(old(Rest())).Some?
      ensures ok ==> at == old(at) + NumberLength(old(Rest())).value
    {
      ghost var s := Rest();
      var sign := Eat('-');
      assert Rest() == s[at - old(at)..];
      ok := Integer();
      if ok {
        assert Rest() == s[at - old(at)..];
        ok := AfterInteger(s, at - old(at));
      }
    }

    /** Moves over a number's fraction and exponent. */
    method AfterInteger(ghost s: string, ghost done: nat) returns (ok: bool)
      requires Valid() && done <= |s| && Rest() == s[done..]
      modifies this
      ensures Valid()
      ensures ok == LengthFromFraction(s, done).Some?
      ensures ok ==> at == old(at) - done + LengthFromFraction(s, done).value
    {
      ok := Fraction();
      if ok {
        assert Rest() == s[done + at - old(at)..];
        ok := Exponent();
      }
    }

    method ParseValue(depth: nat) returns (r: Option<Value>)
      requires Valid()
      modifies this
      ensures Read(r, ReadValue(old(Rest()), depth))
      ensures r.Some? ==> at > old(at)
      decreases |bytes| - at, 0
    {
      if depth > MAX_DEPTH {
        return None;
      }
      ghost var s := Rest();
      Skip();
      ghost var t := Rest();
      SkipTwice(s);
      ReadValueSkips(s, t, depth);
      var next := Peek();
      if next == Some('{') {
        at := at + 1;
        assert Rest() == t[1..];
        r := ParseObject(depth);
      } else if next == Some('[') {
        at := at + 1;
        assert Rest() == t[1..];
        r := ParseArray(depth);
      } else {
        r := ParseScalar(depth);
      }
    }

    /** A value that is not a container. */
    method ParseScalar(ghost depth: nat) returns (r: Option<Value>)
      requires Valid() && depth <= MAX_DEPTH
      requires !StartsWith(Rest(), '{') && !StartsWith(Rest(), '[') && SkipSpace(Rest()) == Rest()
      modifies this
      ensures Read(r, ReadValue(old(Rest()), depth))
      ensures r.Some? ==> at > old(at)
    {
      var next := Peek();
      if next == Some('"') {
        var text := ParseString();
        return if text.Some? then Some(String(text.value)) else None;
      } else if next == Some('t') {
        var found := Literal("true");
        return if found then Some(Bool(true)) else None;
      } else if next == Some('f') {
        var found := Literal("false");
        return if found then Some(Bool(false)) else None;
      } else if next == Some('n') {
        var found := Literal("null");
        return if found then Some(Null) else None;
      } else if next.Some? && (next.value == '-' || IsDigit(next.value)) {
        var text := ParseNumber();
        return if text.Some? then Some(Number(text.value)) else None;
      }
      return None;
    }

    method ParseArray(depth: nat) returns (r: Option<Value>)
      requires Valid()
      modifies this
      ensures Read(r, ReadArray(old(Rest()), depth))
      ensures r.Some? ==> at > old(at)
      decreases |bytes| - at, 2
    {
      Skip();
      var close := Eat(']');
      if close {
        return Some(Array([]));
      }
      var elements := ParseElements(depth);
      return if elements.Some? then Some(Array(elements.value)) else None;
    }

    method ParseObject(depth: nat) returns (r: Option<Value>)
      requires Valid()
      modifies this
      ensures Read(r, ReadObject(old(Rest()), depth))
      ensures r.Some? ==> at > old(at)
      decreases |bytes| - at, 2
    {
      Skip();
      var close := Eat('}');
      if close {
        return Some(Object([]));
      }
      var members := ParseMembers(depth);
      return if members.Some? then Some(Object(members.value)) else None;
    }

    method ParseMembers(depth: nat) returns (r: Option<seq<Member>>)
      requires Valid()
      modifies this
      ensures Read(r, ReadMembers(old(Rest()), depth))
      ensures r.Some? ==> at > old(at)
      decreases |bytes| - at, 1
    {
      ghost var whole := Rest();
      var members: seq<Member> := [];
      PrependNothing(ReadMembers(whole, depth));
      while true
        invariant Valid() && at >= old(at)
        invariant ReadMembers(whole, depth) == Prepend(members, ReadMembers(Rest(), depth))
        decreases |bytes| - at
      {
        ghost var here := Rest();
        var member := ParseMember(depth);
        if member.None? {
          return None;
        }
        Skip();
        ghost var after := Rest();
        PrependOne(members, member.value, after, ReadMembers(here, depth),
                   if after == [] then None else ReadMembers(after[1..], depth), ',', '}');
        members := members + [member.value];
        var comma := Eat(',');
        if !comma {
          var close := Eat('}');
          return if close then Some(members) else None;
        }
      }
    }

    /** A key, its colon and its value. */
    method ParseMember(depth: nat) returns (r: Option<Member>)
      requires Valid()
      modifies this
      ensures Valid()
      ensures r.None? ==> ReadMembers(old(Rest()), depth).None?
      ensures r.Some? ==> at > old(at)
      ensures r.Some? ==>
                var after := SkipSpace(Rest());
                ReadMembers(old(Rest()), depth) ==
                if StartsWith(after, ',') then Prepend([r.value], ReadMembers(after[1..], depth))
                else if StartsWith(after, '}') then Some(Reading([r.value], after[1..]))
                else None
      decreases |bytes| - at, 0
    {
      Skip();
      if Peek() != Some('"') {
        return None;
      }
      var key := ParseString();
      if key.None? {
        return None;
      }
      Skip();
      var colon := Eat(':');
      if !colon {
        return None;
      }
      var value := ParseValue(depth + 1);
      if value.None? {
        return None;
      }
      return Some(Member(key.value, value.value));
    }

    method ParseElements(depth: nat) returns (r: Option<seq<Value>>)
      requires Valid()
      modifies this
      ensures Read(r, ReadElements(old(Rest()), depth))
      ensures r.Some? ==> at > old(at)
      decreases |bytes| - at, 1
    {
      ghost var whole := Rest();
      var elements: seq<Value> := [];
      PrependNothing(ReadElements(whole, depth));
      while true
        invariant Valid() && at >= old(at)
        invariant ReadElements(whole, depth) == Prepend(elements, ReadElements(Rest(), depth))
        decreases |bytes| - at
      {
        ghost var here := Rest();
        var value := ParseValue(depth + 1);
        if value.None? {
          return None;
        }
        Skip();
        ghost var after := Rest();
        PrependOne(elements, value.value, after, ReadElements(here, depth),
                   if after == [] then None else ReadElements(after[1..], depth), ',', ']');
        elements := elements + [value.value];
        var comma := Eat(',');
        if !comma {
          var close := Eat(']');
          return if close then Some(elements) else None;
        }
      }
    }
  }

  lemma PrependNothing<T>(read: Option<Reading<seq<T>>>)
    ensures Prepend([], read) == read
  {
    if read.Some? {
      assert [] + read.value.value == read.value.value;
    }
  }

  /** `parse`: one document; only space may follow it. */
  method ParseDocument(data: string) returns (r: Option<Value>)
    ensures r == Parse(data)
  {
    var parser := new Parser(data);
    var value := parser.ParseValue(0);
    if value.None? {
      return None;
    }
    parser.Skip();
    return if parser.at == |data| then value else None;
  }

  /** One more value in front of a list read up to a separator or a closing bracket. */
  lemma PrependOne<T>(front: seq<T>, value: T, after: string, read: Option<Reading<seq<T>>>,
                      more: Option<Reading<seq<T>>>, comma: char, close: char)
    requires read == if StartsWith(after, comma) then Prepend([value], more)
                     else if StartsWith(after, close) then Some(Reading([value], after[1..]))
                     else None
    ensures StartsWith(after, comma) ==> Prepend(front, read) == Prepend(front + [value], more)
    ensures !StartsWith(after, comma) ==>
              Prepend(front, read) == if StartsWith(after, close) then Some(Reading(front + [value], after[1..])) else None
  {
    if StartsWith(after, comma) && more.Some? {
      assert front + ([value] + more.value.value) == front + [value] + more.value.value;
    }
  }
}
