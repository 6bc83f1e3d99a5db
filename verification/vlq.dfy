/**
 * The base64 VLQ coding of a source map's `mappings` (ECMA-426): each value is a sign-in-the-low-bit
 * magnitude, written as little-endian groups of five bits, one alphabet character a group, with the
 * sixth bit saying that another group follows.
 */
module Vlq {
  import opened Common

  const TWO_62 := 0x4000_0000_0000_0000
  const TWO_63 := 0x8000_0000_0000_0000
  const TWO_64 := 0x1_0000_0000_0000_0000

  /** `BASE64_VLQ_ALPHABET` */
  const ALPHABET := "ABCDEFGHIJKLMNOPQRSTUVWXYZ" + "abcdefghijklmnopqrstuvwxyz" + "0123456789" + "+/"

  /** The character of a digit, by its code. */
  function AlphabetChar(digit: nat): char
    requires digit < 64
  {
    if digit < 26 then (65 + digit) as char
    else if digit < 52 then (71 + digit) as char
    else if digit < 62 then (digit - 4) as char
    else if digit == 62 then '+'
    else '/'
  }

  /** The position of `c` in the alphabet. */
  function DigitOf(c: char): (r: Option<nat>)
    ensures r.Some? ==> r.value < 64 && AlphabetChar(r.value) == c
    ensures r.None? ==> forall d: nat | d < 64 :: AlphabetChar(d) != c
  {
    if 'A' <= c <= 'Z' then Some(c as int - 65)
    else if 'a' <= c <= 'z' then Some(c as int - 71)
    else if '0' <= c <= '9' then Some(c as int + 4)
    else if c == '+' then Some(62)
    else if c == '/' then Some(63)
    else None
  }

  /** The values whose sign-and-magnitude form fits the encoder's signed 64-bit word. */
  predicate Encodable(value: int) {
    -TWO_62 < value < TWO_62
  }

  /** The word a value is written as: the sign in the low bit. */
  function Word(value: int): nat {
    if value < 0 then 2 * -value + 1 else 2 * value
  }

  function Unword(word: int): int {
    if word % 2 == 1 then -(word / 2) else word / 2
  }

  /** The characters of a word, least significant group first. */
  function Digits(word: nat): (r: string)
    ensures r != []
    ensures forall c | c in r :: DigitOf(c).Some?
  {
    if word < 32 then [AlphabetChar(word)]
    else [AlphabetChar(word % 32 + 32)] + Digits(word / 32)
  }

  function Encode(value: int): string {
    Digits(Word(value))
  }

  /** `word` shifted left by `k` groups. */
  function Shifted(word: nat, k: nat): (r: nat)
    ensures r >= word
  {
    if k == 0 then word else 32 * Shifted(word, k - 1)
  }

  /** The signed 64-bit reading of `x` modulo 2^64. */
  function Wrap64(x: int): (r: int)
    ensures -TWO_63 <= r < TWO_63 && (r - x) % TWO_64 == 0
  {
    if -TWO_63 <= x < TWO_63 then x
    else
      var m := x % TWO_64;
      if m < TWO_63 then m else m - TWO_64
  }

  /** The five value bits of a digit. */
  function Group(digit: nat): (r: nat)
    requires digit < 64
    ensures r < 32
  {
    if digit < 32 then digit else digit - 32
  }

  /** A decoded value and how many characters it took. */
  datatype Decoded = Decoded(value: int, width: nat)

  /**
   * The value at the head of `text`, `k` groups into a word whose low groups are `word`. The
   * accumulator is a 64-bit word: a shift of 64 or more fails, and the thirteenth group (shift 60)
   * loses the bits beyond the word. The groups are disjoint, so joining one is addition.
   */
  function DecodeFrom(text: string, k: nat, word: int): (r: Option<Decoded>)
    ensures r.Some? ==> 0 < r.value.width <= |text|
    ensures r.Some? ==> forall i | 0 <= i < r.value.width :: DigitOf(text[i]).Some?
  {
    if text == [] then None
    else
      match DigitOf(text[0])
      case None => None
      case Some(digit) =>
        if 5 * k >= 64 then None
        else
          var word' := Wrap64(word + Shifted(Group(digit), k));
          if digit < 32 then Some(Decoded(Unword(word'), 1))
          else
            match DecodeFrom(text[1..], k + 1, word')
            case None => None
            case Some(read) => Some(read.(width := read.width + 1))
  }

  function Decode(text: string): Option<Decoded> {
    DecodeFrom(text, 0, 0)
  }

  lemma AlphabetDigit(digit: nat)
    requires digit < 64
    ensures DigitOf(AlphabetChar(digit)) == Some(digit)
  {
  }

  /** Shifting distributes over the split of a word into its low group and the rest. */
  lemma {:induction false} ShiftedSplit(r: nat, q: nat, k: nat)
    ensures Shifted(r + 32 * q, k) == Shifted(r, k) + Shifted(q, k + 1)
  {
    if k > 0 {
      ShiftedSplit(r, q, k - 1);
      assert Shifted(q, k + 1) == 32 * Shifted(q, k);
    } else {
      assert Shifted(q, 1) == 32 * Shifted(q, 0);
    }
  }

  /** A group and what is below it stay below the next group. */
  lemma {:induction false} ShiftedBelow(r: nat, k: nat)
    requires r < 32
    ensures Shifted(r, k) + Shifted(1, k) <= Shifted(1, k + 1)
  {
    if k > 0 {
      ShiftedBelow(r, k - 1);
    } else {
      assert Shifted(1, 1) == 32 * Shifted(1, 0);
    }
  }

  lemma {:induction false} ShiftedMonotone(a: nat, b: nat, j: nat, k: nat)
    requires a <= b && j <= k
    ensures Shifted(a, j) <= Shifted(b, k)
  {
    if j > 0 {
      ShiftedMonotone(a, b, j - 1, k - 1);
    } else if k > 0 {
      ShiftedMonotone(a, b, 0, k - 1);
    }
  }

  /** A word with anything in its group `k` that fits 63 bits has at most thirteen groups. */
  lemma GroupsFit(word: nat, k: nat)
    requires word > 0 && Shifted(word, k) < TWO_63
    ensures k <= 12
  {
    if k > 12 {
      ThirteenGroups();
      ShiftedMonotone(1, word, 13, k);
    }
  }

  lemma ThirteenGroups()
    ensures Shifted(1, 13) == 4 * TWO_63
  {
    assert Shifted(1, 3) == 0x8000;
    assert Shifted(1, 6) == 0x4000_0000;
    assert Shifted(1, 9) == 0x2000_0000_0000;
    assert Shifted(1, 12) == 0x1000_0000_0000_0000;
  }

  /** A last group ends the word. */
  lemma DecodeLast(group: nat, rest: string, k: nat, low: nat)
    requires group < 32 && k <= 12
    requires low + Shifted(group, k) < TWO_63
    ensures DecodeFrom([AlphabetChar(group)] + rest, k, low) == Some(Decoded(Unword(low + Shifted(group, k)), 1))
  {
    AlphabetDigit(group);
  }

  /** A continued group joins the low groups, and reading goes on. */
  lemma DecodeContinued(group: nat, rest: string, k: nat, low: nat, read: Decoded)
    requires group < 32 && k <= 12
    requires low + Shifted(group, k) < TWO_63
    requires DecodeFrom(rest, k + 1, low + Shifted(group, k)) == Some(read)
    ensures DecodeFrom([AlphabetChar(group + 32)] + rest, k, low) == Some(Decoded(read.value, read.width + 1))
  {
    AlphabetDigit(group + 32);
    var text := [AlphabetChar(group + 32)] + rest;
    assert text[1..] == rest;
  }

  lemma DigitsSplit(group: nat, more: nat, rest: string)
    requires group < 32 && more > 0
    ensures Digits(group + 32 * more) + rest == [AlphabetChar(group + 32)] + (Digits(more) + rest)
    ensures |Digits(group + 32 * more)| == |Digits(more)| + 1
  {
    var word := group + 32 * more;
    assert word / 32 == more && word % 32 == group;
  }

  /** The groups of `word`, read back on top of the low groups already read. */
  lemma {:induction false} DecodeDigits(word: nat, rest: string, k: nat, low: nat)
    requires k > 0 ==> word > 0
    requires low < Shifted(1, k)
    requires low + Shifted(word, k) < TWO_63
    ensures DecodeFrom(Digits(word) + rest, k, low) ==
            Some(Decoded(Unword(low + Shifted(word, k)), |Digits(word)|))
    decreases word, 1
  {
    if k > 0 {
      GroupsFit(word, k);
    }
    if word < 32 {
      DecodeLast(word, rest, k, low);
    } else {
      DecodeLongDigits(word % 32, word / 32, rest, k, low);
    }
  }

  lemma {:induction false} DecodeLongDigits(group: nat, more: nat, rest: string, k: nat, low: nat)
    requires group < 32 && more > 0 && k <= 12
    requires low < Shifted(1, k)
    requires low + Shifted(group + 32 * more, k) < TWO_63
    ensures var word := group + 32 * more;
            DecodeFrom(Digits(word) + rest, k, low) ==
            Some(Decoded(Unword(low + Shifted(word, k)), |Digits(word)|))
    decreases group + 32 * more, 0
  {
    hide Digits, DecodeFrom, Unword, Shifted;
    ShiftedSplit(group, more, k);
    ShiftedBelow(group, k);
    var low' := low + Shifted(group, k);
    DecodeDigits(more, rest, k + 1, low');
    DecodeContinued(group, Digits(more) + rest, k, low, Decoded(Unword(low' + Shifted(more, k + 1)), |Digits(more)|));
    DigitsSplit(group, more, rest);
  }

  /** Reading what was written gives the value back, whatever follows it. */
  lemma DecodeEncode(value: int, rest: string)
    requires Encodable(value)
    ensures Decode(Encode(value) + rest) == Some(Decoded(value, |Encode(value)|))
  {
    var word := Word(value);
    assert Shifted(word, 0) == word && Shifted(1, 0) == 1;
    UnwordWord(value);
    DecodeDigits(word, rest, 0, 0);
  }

  lemma UnwordWord(value: int)
    ensures Unword(Word(value)) == value
  {
  }

  // ---- What the digits say -----------------------------------------------------------------

  /** The codes follow the alphabet. */
  lemma AlphabetIs(digit: nat)
    requires digit < 64
    ensures |ALPHABET| == 64 && AlphabetChar(digit) == ALPHABET[digit]
  {
  }

  predicate InAlphabet(c: char) {
    c in ALPHABET
  }

  /** The place of a character in the alphabet. */
  ghost function Place(c: char): nat
    requires InAlphabet(c)
  {
    var i :| 0 <= i < |ALPHABET| && ALPHABET[i] == c;
    i
  }

  lemma PlaceIsDigit(c: char)
    ensures InAlphabet(c) <==> DigitOf(c).Some?
    ensures InAlphabet(c) ==> DigitOf(c) == Some(Place(c))
  {
    hide AlphabetChar, DigitOf;
    AlphabetIs(0);
    if DigitOf(c).Some? {
      AlphabetIs(DigitOf(c).value);
    }
    if InAlphabet(c) {
      AlphabetIs(Place(c));
      AlphabetDigit(Place(c));
    }
  }

  /**
   * The text is the word: five bits a character, the least significant first, each character but
   * the last 32 places on in the alphabet, and no more characters than it takes.
   */
  ghost predicate Spells(text: string, word: int) {
    text != [] && After(word, |text|) == 0 && (|text| > 1 ==> After(word, |text| - 1) > 0) &&
    forall i | 0 <= i < |text| ::
      InAlphabet(text[i]) && Place(text[i]) == After(word, i) % 32 + if i < |text| - 1 then 32 else 0
  }

  lemma {:induction false} DigitsSpell(word: nat)
    ensures Spells(Digits(word), word)
  {
    var text := Digits(word);
    hide AlphabetChar, DigitOf, ALPHABET;
    if word < 32 {
      AlphabetDigit(word);
      PlaceIsDigit(text[0]);
      assert After(word, 0) == word && After(word, 1) == After(word / 32, 0);
    } else {
      var rest := Digits(word / 32);
      DigitsSpell(word / 32);
      AlphabetDigit(word % 32 + 32);
      PlaceIsDigit(text[0]);
      assert text == [AlphabetChar(word % 32 + 32)] + rest;
      forall i | 0 <= i < |text|
        ensures InAlphabet(text[i]) && Place(text[i]) == After(word, i) % 32 + if i < |text| - 1 then 32 else 0
      {
        if i > 0 {
          assert text[i] == rest[i - 1] && After(word, i) == After(word / 32, i - 1);
        }
      }
    }
  }

  /** The five low bits of the characters' places, joined. */
  ghost function Groups(word: string): nat
    requires forall c | c in word :: InAlphabet(c)
  {
    if word == [] then 0 else Place(word[0]) % 32 + 32 * Groups(word[1..])
  }

  /** All characters but the last lie in the second half of the alphabet. */
  ghost predicate IsWord(word: string) {
    word != [] && forall i | 0 <= i < |word| :: InAlphabet(word[i]) && (Place(word[i]) >= 32 <==> i < |word| - 1)
  }

  /** At most thirteen characters say the value, its sign in the lowest bit of their 64-bit word. */
  ghost predicate Says(word: string, value: int) {
    |word| <= 13 && IsWord(word) &&
    var joined := Wrap64(Groups(word));
    joined == if joined % 2 == 1 then 1 - 2 * value else 2 * value
  }

  lemma WrapTwice(a: int, b: int)
    ensures Wrap64(Wrap64(a) + b) == Wrap64(a + b)
  {
    hide Wrap64;
  }

  /** The word of the characters, read `k` groups up on top of `low`, is the value's. */
  ghost predicate ReadsAs(word: string, value: int, k: nat, low: int) {
    (forall c | c in word :: InAlphabet(c)) && IsWord(word) && value == Unword(Wrap64(low + Shifted(Groups(word), k)))
  }

  /** What is read on top of the low groups is the groups of the characters read. */
  lemma {:induction false} DecodeFromSays(text: string, k: nat, low: int)
    requires DecodeFrom(text, k, low).Some?
    ensures var read := DecodeFrom(text, k, low).value; ReadsAs(text[..read.width], read.value, k, low)
  {
    hide InAlphabet, Place, AlphabetChar, DigitOf, Shifted, Wrap64, Unword, ReadsAs, IsWord, Groups, Group;
    PlaceIsDigit(text[0]);
    var place := Place(text[0]);
    if place < 32 {
      SaysLast(text, k, low, place);
    } else {
      DecodeFromSays(text[1..], k + 1, Wrap64(low + Shifted(Group(place), k)));
      SaysOn(text, k, low, place);
    }
  }

  lemma SaysLast(text: string, k: nat, low: int, place: nat)
    requires DecodeFrom(text, k, low).Some?
    requires InAlphabet(text[0]) && Place(text[0]) == place < 32 && DigitOf(text[0]) == Some(place)
    ensures var read := DecodeFrom(text, k, low).value; ReadsAs(text[..read.width], read.value, k, low)
  {
    hide InAlphabet, Place, DigitOf, AlphabetChar, Shifted, Wrap64, Unword;
    assert text[..1] == [text[0]] && text[..1][1..] == [];
    assert Groups(text[..1]) == place;
  }

  lemma SaysOn(text: string, k: nat, low: int, place: nat)
    requires DecodeFrom(text, k, low).Some?
    requires InAlphabet(text[0]) && Place(text[0]) == place && 32 <= place < 64 && DigitOf(text[0]) == Some(place)
    requires var read := DecodeFrom(text[1..], k + 1, Wrap64(low + Shifted(Group(place), k)));
             read.Some? ==>
               ReadsAs(text[1..][..read.value.width], read.value.value, k + 1, Wrap64(low + Shifted(Group(place), k)))
    ensures var read := DecodeFrom(text, k, low).value; ReadsAs(text[..read.width], read.value, k, low)
  {
    hide InAlphabet, Place, DigitOf, AlphabetChar, Shifted, Wrap64, Unword, IsWord;
    var read := DecodeFrom(text[1..], k + 1, Wrap64(low + Shifted(Group(place), k))).value;
    assert DecodeFrom(text, k, low).value == Decoded(read.value, read.width + 1);
    var rest := text[1..][..read.width];
    var word := text[..read.width + 1];
    assert word == [text[0]] + rest && word[1..] == rest;
    WordLonger(text[0], rest);
    assert Groups(word) == Group(place) + 32 * Groups(rest);
    ShiftedSplit(Group(place), Groups(rest), k);
    WrapTwice(low + Shifted(Group(place), k), Shifted(Groups(rest), k + 1));
  }

  lemma WordLonger(c: char, rest: string)
    requires InAlphabet(c) && Place(c) >= 32 && IsWord(rest)
    ensures IsWord([c] + rest)
  {
    var word := [c] + rest;
    forall i | 0 <= i < |word| ensures InAlphabet(word[i]) && (Place(word[i]) >= 32 <==> i < |word| - 1) {
      if i > 0 {
        assert word[i] == rest[i - 1];
      }
    }
  }

  /** The value read is the one the characters say, and if none is read none say any. */
  lemma DecodeSays(text: string)
    ensures match Decode(text)
            case Some(read) => Says(text[..read.width], read.value)
            case None => forall n, value | 0 <= n <= |text| :: !Says(text[..n], value)
  {
    DecodeFromEnds(text, 0, 0);
    hide DecodeFrom, DigitOf, Wrap64, InAlphabet, Place, AlphabetChar;
    if Decode(text).Some? {
      DecodeFromSays(text, 0, 0);
      assert Shifted(Groups(text[..Decode(text).value.width]), 0) == Groups(text[..Decode(text).value.width]);
    } else {
      forall n, value | 0 <= n <= |text| ensures !Says(text[..n], value) {
        if Says(text[..n], value) {
          WordEnds(text, n);
        }
      }
    }
  }

  lemma WordEnds(text: string, n: nat)
    requires 0 < n <= |text| && n <= 13 && IsWord(text[..n])
    ensures EndsAt(text, 0, n - 1)
  {
    var word := text[..n];
    forall i | 0 <= i < n ensures if i < n - 1 then Continued(text[i]) else Last(text[i]) {
      assert word[i] == text[i];
      PlaceIsDigit(text[i]);
    }
  }

  // ---- Where decoding and encoding end -----------------------------------------------------

  predicate Continued(c: char) {
    DigitOf(c).Some? && DigitOf(c).value >= 32
  }

  predicate Last(c: char) {
    DigitOf(c).Some? && DigitOf(c).value < 32
  }

  /** From its group `k` on, the word ends at `n`, with at most thirteen groups in all. */
  predicate EndsAt(text: string, k: nat, n: nat) {
    n < |text| && n + k < 13 && Last(text[n]) && forall i | 0 <= i < n :: Continued(text[i])
  }

  lemma {:induction false} DecodeFromEnds(text: string, k: nat, word: int)
    ensures match DecodeFrom(text, k, word)
            case None => forall n: nat :: !EndsAt(text, k, n)
            case Some(read) => EndsAt(text, k, read.width - 1)
  {
    if text != [] && Continued(text[0]) && k < 13 {
      DecodeFromEnds(text[1..], k + 1, Wrap64(word + Shifted(Group(DigitOf(text[0]).value), k)));
      forall n: nat ensures EndsAt(text, k, n) <==> n > 0 && EndsAt(text[1..], k + 1, n - 1) {
        EndsNext(text, k, n);
      }
    }
  }

  lemma EndsNext(text: string, k: nat, n: nat)
    requires text != [] && Continued(text[0])
    ensures EndsAt(text, k, n) <==> n > 0 && EndsAt(text[1..], k + 1, n - 1)
  {
    if n > 0 && EndsAt(text[1..], k + 1, n - 1) {
      forall i | 0 <= i < n ensures Continued(text[i]) {
        assert i > 0 ==> text[i] == text[1..][i - 1];
      }
    }
  }

  /**
   * A value is read exactly when a last digit comes after nothing but continued ones, as one of the
   * first thirteen; so a fourteenth digit is refused, however the text goes on.
   */
  lemma DecodesWithin(text: string)
    ensures Decode(text).Some? <==> exists n: nat :: EndsAt(text, 0, n)
    ensures |text| > 13 && (forall i | 0 <= i < 13 :: Continued(text[i])) ==> Decode(text).None?
  {
    DecodeFromEnds(text, 0, 0);
  }

  /** The signed 64-bit word the encoder starts from: a magnitude of 2^62 or more runs into the sign. */
  function Word64(value: int): int {
    var magnitude := if value < 0 then Wrap64(-value) else value;
    var doubled := Wrap64(2 * magnitude);
    if value < 0 then doubled + 1 - doubled % 2 else doubled
  }

  /** The word after `groups` turns of the loop, which shifts arithmetically. */
  function After(word: int, groups: nat): int
    decreases groups
  {
    if groups == 0 then word else After(word / 32, groups - 1)
  }

  lemma {:induction false} NegativeStays(word: int, groups: nat)
    requires word < 0
    ensures After(word, groups) < 0
    decreases groups
  {
    if groups > 0 {
      NegativeStays(word / 32, groups - 1);
    }
  }

  lemma {:induction false} PositiveEnds(word: int) returns (groups: nat)
    requires word >= 0
    ensures After(word, groups) == 0
    decreases word
  {
    groups := 0;
    if word > 0 {
      groups := PositiveEnds(word / 32);
      groups := groups + 1;
    }
  }

  /**
   * Of the 64-bit values the encoder ends on the encodable ones, which it writes as their digits, and on
   * the least, which it writes as a zero. On every other its word is negative and never becomes 0.
   */
  lemma EncoderEnds(value: int)
    requires -TWO_63 <= value < TWO_63
    ensures (exists groups: nat :: After(Word64(value), groups) == 0) <==> Encodable(value) || value == -TWO_63
    ensures Encodable(value) ==> Digits(Word64(value)) == Encode(value)
    ensures Word64(value) < TWO_63
    ensures Unword(Word64(-TWO_63)) == 0
  {
    WordIs(value);
    var word := Word64(value);
    assert Encodable(value) ==> word == Word(value);
    hide Word64, Digits;
    if word < 0 {
      forall groups: nat ensures After(word, groups) < 0 {
        NegativeStays(word, groups);
      }
    } else {
      var groups := PositiveEnds(word);
    }
  }

  lemma WordIs(value: int)
    requires -TWO_63 <= value < TWO_63
    ensures Word64(value) >= 0 <==> Encodable(value) || value == -TWO_63
    ensures Word64(value) >= 0 ==>
              Word64(value) == if value == -TWO_63 then 1 else if value < 0 then 1 - 2 * value else 2 * value
    ensures Word64(value) < TWO_63
  {
  }

  /**
   * `append_vlq`, for every 64-bit value on which it ends (`EncoderEnds`): the word has the sign in its
   * lowest bit, and the least value becomes a negative zero.
   */
  method AppendVlq(builder: string, value: int) returns (r: string)
    requires -TWO_63 <= value < TWO_63 && Word64(value) >= 0
    ensures r == builder + Digits(Word64(value))
    ensures Encodable(value) ==> r == builder + Encode(value)
    ensures Spells(r[|builder|..], if value == -TWO_63 then 1 else if value < 0 then 1 - 2 * value else 2 * value)
  {
    EncoderEnds(value);
    DigitsSpell(Word64(value));
    WordIs(value);
    r := AppendDigits(builder, Word64(value));
    assert r[|builder|..] == Digits(Word64(value));
  }

  /** The encoder's loop. */
  method AppendDigits(builder: string, start: nat) returns (r: string)
    ensures r == builder + Digits(start)
  {
    hide DigitOf, AlphabetChar;
    r := builder;
    var word := start;
    while true
      invariant word >= 0 && r + Digits(word) == builder + Digits(start)
      decreases word
    {
      var digit := word % 32;
      word := word / 32;
      if word > 0 {
        digit := digit + 32;
      }
      r := r + [AlphabetChar(digit)];
      if word == 0 {
        return;
      }
    }
  }

  /** Counting `k` more characters into a reading. */
  function Longer(read: Option<Decoded>, k: nat): Option<Decoded> {
    match read
    case None => None
    case Some(read) => Some(Decoded(read.value, read.width + k))
  }

  lemma DecodeStep(text: string, start: nat, index: nat, word: int)
    requires start <= index < |text|
    requires Decode(text[start..]) == Longer(DecodeFrom(text[index..], index - start, word), index - start)
    ensures var k := index - start;
            var found := DigitOf(text[index]);
            if found.None? || 5 * k >= 64 then Decode(text[start..]).None?
            else
              var word' := Wrap64(word + Shifted(Group(found.value), k));
              Decode(text[start..]) ==
              if found.value < 32 then Some(Decoded(Unword(word'), k + 1))
              else Longer(DecodeFrom(text[index + 1..], k + 1, word'), k + 1)
  {
    assert text[index..][1..] == text[index + 1..];
  }

  lemma SaysFrom(text: string, start: nat)
    requires start <= |text|
    ensures match Decode(text[start..])
            case Some(read) => start < start + read.width <= |text| && Says(text[start..start + read.width], read.value)
            case None => forall next, value | start <= next <= |text| :: !Says(text[start..next], value)
  {
    var here := text[start..];
    DecodeSays(here);
    hide Says;
    forall next | start <= next <= |text| ensures text[start..next] == here[..next - start] {
    }
  }

  /** `decode_base64_vlq`: the value at `start` and the index after it. */
  method DecodeBase64Vlq(text: string, start: nat) returns (r: Option<(int, nat)>)
    requires start <= |text|
    ensures r == match Decode(text[start..])
                 case None => None
                 case Some(read) => Some((read.value, start + read.width))
    ensures r.Some? ==> start < r.value.1 <= |text| && Says(text[start..r.value.1], r.value.0)
    ensures r.None? ==> forall next, value | start <= next <= |text| :: !Says(text[start..next], value)
  {
    hide Decode, Says;
    r := ReadGroups(text, start);
    SaysFrom(text, start);
  }

  /** The decoder's loop. */
  method ReadGroups(text: string, start: nat) returns (r: Option<(int, nat)>)
    requires start <= |text|
    ensures r == match Decode(text[start..])
                 case None => None
                 case Some(read) => Some((read.value, start + read.width))
  {
    hide DigitOf, AlphabetChar, Shifted, Wrap64, Unword, Group;
    var index := start;
    var word := 0;
    var groups: nat := 0;
    while index < |text|
      invariant start <= index <= |text| && groups == index - start
      invariant Decode(text[start..]) == Longer(DecodeFrom(text[index..], groups, word), groups)
    {
      DecodeStep(text, start, index, word);
      var found := DigitOf(text[index]);
      if found.None? {
        return None;
      }
      var digit := found.value;
      index := index + 1;
      if 5 * groups >= 64 {
        return None;
      }
      word := Wrap64(word + Shifted(Group(digit), groups));
      if digit < 32 {
        return Some((Unword(word), index));
      }
      groups := groups + 1;
    }
    return None;
  }
}
