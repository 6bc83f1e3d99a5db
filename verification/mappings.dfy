/**
 * The `mappings` of a declaration map, and the rewrite that moves every segment's generated column
 * after the declaration text was spliced (`declmap.rs`).
 *
 * The rewrite works on the delta-coded text in one pass. Its meaning is given by reading the text
 * into placed items (line breaks, separators, segments at absolute columns): the rewritten text
 * reads as the same items with only the columns moved.
 */
module Mappings {
  import opened Common
  import opened Vlq

  /** From `column` on, a line has moved by `delta`. */
  datatype ColumnShift = ColumnShift(column: int, delta: int)

  type LineShifts = map<nat, seq<ColumnShift>>

  function OnLine(shifts: LineShifts, line: nat): seq<ColumnShift> {
    if line in shifts then shifts[line] else []
  }

  /** The total of the shifts at or before `column`. */
  function ShiftFor(shifts: seq<ColumnShift>, column: int): int {
    if shifts == [] then 0
    else (if column >= shifts[0].column then shifts[0].delta else 0) + ShiftFor(shifts[1..], column)
  }

  function Moved(shifts: LineShifts, line: nat, column: int): int {
    column + ShiftFor(OnLine(shifts, line), column)
  }

  // ---- Reading -----------------------------------------------------------------------------

  predicate IsSeparator(c: char) {
    c == ',' || c == ';'
  }

  /** The length of the segment at the head of `text`. */
  function SegmentLength(text: string): (r: nat)
    ensures r <= |text|
    ensures forall i | 0 <= i < r :: !IsSeparator(text[i])
    ensures r < |text| ==> IsSeparator(text[r])
  {
    if text == [] || IsSeparator(text[0]) then 0 else 1 + SegmentLength(text[1..])
  }

  /** What the text says, with generated columns made absolute. `fields` is a segment's other fields. */
  datatype Item = Break | Comma | At(line: nat, column: int, fields: string)

  /** A reading: its items, and the text from the first unreadable segment on. */
  datatype Reading = Reading(items: seq<Item>, tail: string)

  function Cons(item: Item, reading: Reading): Reading {
    reading.(items := [item] + reading.items)
  }

  /** A value never runs over a separator: separators are not in the alphabet. */
  lemma ValueStaysInSegment(text: string)
    requires Decode(text).Some?
    ensures Decode(text).value.width <= SegmentLength(text)
  {
    var read := Decode(text).value;
    assert forall i | 0 <= i < read.width :: !IsSeparator(text[i]);
  }

  function Read(text: string, line: nat, column: int): Reading
    decreases |text|
  {
    if text == [] then Reading([], [])
    else if text[0] == ';' then Cons(Break, Read(text[1..], line + 1, 0))
    else if text[0] == ',' then Cons(Comma, Read(text[1..], line, column))
    else
      match Decode(text)
      case None => Reading([], text)
      case Some(value) =>
        ValueStaysInSegment(text);
        var length := SegmentLength(text);
        var here := column + value.value;
        Cons(At(line, here, text[value.width..length]), Read(text[length..], line, here))
  }

  function MoveItem(item: Item, shifts: LineShifts): Item {
    match item
    case At(line, column, fields) => At(line, Moved(shifts, line, column), fields)
    case _ => item
  }

  function MoveItems(items: seq<Item>, shifts: LineShifts): (r: seq<Item>)
    ensures |r| == |items|
    ensures forall i | 0 <= i < |items| :: r[i] == MoveItem(items[i], shifts)
  {
    if items == [] then [] else [MoveItem(items[0], shifts)] + MoveItems(items[1..], shifts)
  }

  function MoveReading(reading: Reading, shifts: LineShifts): Reading {
    Reading(MoveItems(reading.items, shifts), reading.tail)
  }

  // ---- Rewriting ---------------------------------------------------------------------------

  /** Every re-encoded column difference fits the encoder's word. */
  ghost predicate Fits(text: string, shifts: LineShifts, line: nat, previous: int, shifted: int)
    decreases |text|
  {
    if text == [] then true
    else if text[0] == ';' then Fits(text[1..], shifts, line + 1, 0, 0)
    else if text[0] == ',' then Fits(text[1..], shifts, line, previous, shifted)
    else
      match Decode(text)
      case None => true
      case Some(value) =>
        var column := previous + value.value;
        var adjusted := Moved(shifts, line, column);
        Encodable(adjusted - shifted) && Fits(text[SegmentLength(text)..], shifts, line, column, adjusted)
  }

  /** The rewritten text, from the running columns of the original and of the rewrite. */
  function Rewrite(text: string, shifts: LineShifts, line: nat, previous: int, shifted: int): string
    decreases |text|
  {
    if text == [] then []
    else if text[0] == ';' then ";" + Rewrite(text[1..], shifts, line + 1, 0, 0)
    else if text[0] == ',' then "," + Rewrite(text[1..], shifts, line, previous, shifted)
    else
      match Decode(text)
      case None => text
      case Some(value) =>
        ValueStaysInSegment(text);
        var length := SegmentLength(text);
        var column := previous + value.value;
        var adjusted := Moved(shifts, line, column);
        Encode(adjusted - shifted) + text[value.width..length] +
        Rewrite(text[length..], shifts, line, column, adjusted)
  }

  lemma RewriteSegment(text: string, shifts: LineShifts, line: nat, previous: int, shifted: int)
    requires text != [] && !IsSeparator(text[0]) && Decode(text).Some?
    ensures Decode(text).value.width <= SegmentLength(text)
    ensures var length := SegmentLength(text);
            var column := previous + Decode(text).value.value;
            var adjusted := Moved(shifts, line, column);
            Rewrite(text, shifts, line, previous, shifted) ==
            Encode(adjusted - shifted) + text[Decode(text).value.width..length] +
            Rewrite(text[length..], shifts, line, column, adjusted)
  {
    ValueStaysInSegment(text);
  }

  /** What is written so far, followed by the rewrite of what is left, is the whole rewrite. */
  ghost predicate Continues(builder: string, text: string, shifts: LineShifts, line: nat,
                            previous: int, shifted: int, whole: string)
  {
    Fits(text, shifts, line, previous, shifted) &&
    builder + Rewrite(text, shifts, line, previous, shifted) == whole
  }

  lemma ContinueSeparator(builder: string, text: string, shifts: LineShifts, line: nat,
                          previous: int, shifted: int, whole: string)
    requires text != [] && IsSeparator(text[0])
    requires Continues(builder, text, shifts, line, previous, shifted, whole)
    ensures text[0] == ';' ==> Continues(builder + ";", text[1..], shifts, line + 1, 0, 0, whole)
    ensures text[0] == ',' ==> Continues(builder + ",", text[1..], shifts, line, previous, shifted, whole)
  {
    if text[0] == ';' {
      Associate(builder, ";", Rewrite(text[1..], shifts, line + 1, 0, 0));
    } else {
      Associate(builder, ",", Rewrite(text[1..], shifts, line, previous, shifted));
    }
  }

  lemma ContinueSegment(builder: string, text: string, shifts: LineShifts, line: nat,
                        previous: int, shifted: int, whole: string)
    requires text != [] && !IsSeparator(text[0]) && Decode(text).Some?
    requires Continues(builder, text, shifts, line, previous, shifted, whole)
    ensures var width, length := Decode(text).value.width, SegmentLength(text);
            var column := previous + Decode(text).value.value;
            var adjusted := Moved(shifts, line, column);
            width <= length && Encodable(adjusted - shifted) &&
            Continues(builder + Encode(adjusted - shifted) + text[width..length], text[length..],
                      shifts, line, column, adjusted, whole)
  {
    hide Decode, Encode, ShiftFor, OnLine, Rewrite;
    RewriteSegment(text, shifts, line, previous, shifted);
    var width, length := Decode(text).value.width, SegmentLength(text);
    var column := previous + Decode(text).value.value;
    var adjusted := Moved(shifts, line, column);
    var head, fields := Encode(adjusted - shifted), text[width..length];
    var rest := Rewrite(text[length..], shifts, line, column, adjusted);
    Associate(builder, head + fields, rest);
    assert builder + (head + fields) == builder + head + fields;
  }

  /** An unreadable segment ends the rewrite: the rest is copied. */
  lemma ContinueStuck(builder: string, text: string, shifts: LineShifts, line: nat,
                      previous: int, shifted: int, whole: string)
    requires text != [] && !IsSeparator(text[0]) && Decode(text).None?
    requires Continues(builder, text, shifts, line, previous, shifted, whole)
    ensures builder + text == whole
  {
  }

  lemma Associate(a: string, b: string, c: string)
    ensures a + (b + c) == a + b + c
  {
  }

  method SegmentEnd(mappings: string, index: nat) returns (segmentEnd: nat)
    requires index <= |mappings|
    ensures segmentEnd == index + SegmentLength(mappings[index..])
  {
    segmentEnd := index;
    while segmentEnd < |mappings| && mappings[segmentEnd] != ',' && mappings[segmentEnd] != ';'
      invariant index <= segmentEnd <= |mappings|
      invariant SegmentLength(mappings[index..]) == segmentEnd - index + SegmentLength(mappings[segmentEnd..])
    {
      assert mappings[segmentEnd..][1..] == mappings[segmentEnd + 1..];
      segmentEnd := segmentEnd + 1;
    }
  }

  lemma EncodableEnds(value: int)
    requires Encodable(value)
    ensures -TWO_63 <= value < TWO_63 && Word64(value) >= 0
  {
    EncoderEnds(value);
  }

  /** The loop body for a readable segment. */
  method RewriteOne(mappings: string, shifts: LineShifts, line: nat, previous: int, shifted: int,
                    index: nat, builder: string, ghost whole: string)
    returns (builder': string, column: int, adjusted: int, segmentEnd: nat, stuck: bool)
    requires index < |mappings| && !IsSeparator(mappings[index])
    requires Continues(builder, mappings[index..], shifts, line, previous, shifted, whole)
    ensures stuck ==> builder' == whole
    ensures !stuck ==> index < segmentEnd <= |mappings|
    ensures !stuck ==> Continues(builder', mappings[segmentEnd..], shifts, line, column, adjusted, whole)
  {
    hide Continues, Decode, Encode, Encodable, SegmentLength, ShiftFor, OnLine, IsSeparator, Says, Spells;
    ghost var here := mappings[index..];
    segmentEnd := SegmentEnd(mappings, index);
    var decoded := DecodeBase64Vlq(mappings, index);
    if decoded.None? {
      ContinueStuck(builder, here, shifts, line, previous, shifted, whole);
      return builder + mappings[index..], previous, shifted, index, true;
    }
    var (value, next) := decoded.value;
    ContinueSegment(builder, here, shifts, line, previous, shifted, whole);
    column := previous + value;
    adjusted := column + ShiftFor(OnLine(shifts, line), column);
    assert mappings[next..segmentEnd] == here[next - index..segmentEnd - index];
    assert here[segmentEnd - index..] == mappings[segmentEnd..];
    EncodableEnds(adjusted - shifted);
    builder' := AppendVlq(builder, adjusted - shifted);
    builder' := builder' + mappings[next..segmentEnd];
    stuck := false;
  }

  /** The loop body for a separator. */
  method CopySeparator(separator: char, ghost text: string, ghost shifts: LineShifts, line: nat, previous: int,
                       shifted: int, builder: string, ghost whole: string)
    returns (builder': string, line': nat, previous': int, shifted': int)
    requires text != [] && separator == text[0] && IsSeparator(separator)
    requires Continues(builder, text, shifts, line, previous, shifted, whole)
    ensures Continues(builder', text[1..], shifts, line', previous', shifted', whole)
  {
    ContinueSeparator(builder, text, shifts, line, previous, shifted, whole);
    if separator == ';' {
      return builder + ";", line + 1, 0, 0;
    }
    return builder + ",", line, previous, shifted;
  }

  /** `shift_mapping_columns`: the rewrite's loop, and what the rewritten text reads as. */
  method ShiftMappingColumns(mappings: string, shifts: LineShifts) returns (builder: string)
    requires Fits(mappings, shifts, 0, 0, 0)
    ensures builder == Rewrite(mappings, shifts, 0, 0, 0)
    ensures Read(builder, 0, 0) == MoveReading(Read(mappings, 0, 0), shifts)
  {
    builder := RewriteAll(mappings, shifts, Rewrite(mappings, shifts, 0, 0, 0));
    RewriteMovesColumns(mappings, shifts, 0, 0, 0);
  }

  method RewriteAll(mappings: string, shifts: LineShifts, ghost whole: string) returns (builder: string)
    requires Continues("", mappings, shifts, 0, 0, 0, whole)
    ensures builder == whole
  {
    builder := "";
    var line: nat := 0;
    var previous, shifted := 0, 0;
    var index := 0;
    assert mappings[0..] == mappings;
    while index < |mappings|
      invariant 0 <= index <= |mappings|
      invariant Continues(builder, mappings[index..], shifts, line, previous, shifted, whole)
    {
      if IsSeparator(mappings[index]) {
        builder, line, previous, shifted :=
          CopySeparator(mappings[index], mappings[index..], shifts, line, previous, shifted, builder, whole);
        assert mappings[index..][1..] == mappings[index + 1..];
        index := index + 1;
      } else {
        var stuck;
        builder, previous, shifted, index, stuck :=
          RewriteOne(mappings, shifts, line, previous, shifted, index, builder, whole);
        if stuck {
          return;
        }
      }
    }
  }

  /** A segment spliced from a fresh first field and old remaining fields reads as it was spliced. */
  lemma ReadSegment(delta: int, fields: string, rest: string, line: nat, column: int)
    requires Encodable(delta)
    requires forall c | c in fields :: !IsSeparator(c)
    requires rest == [] || IsSeparator(rest[0])
    ensures Read(Encode(delta) + fields + rest, line, column) ==
            Cons(At(line, column + delta, fields), Read(rest, line, column + delta))
  {
    var head := Encode(delta);
    var text := head + fields + rest;
    assert text == head + (fields + rest);
    DecodeEncode(delta, fields + rest);
    assert text[0] in head;
    SegmentLengthOf(head + fields, rest) by {
      forall c | c in head + fields ensures !IsSeparator(c) {
        if c in head { assert DigitOf(c).Some?; }
      }
    }
    assert text[|head|..|head + fields|] == fields;
    assert text[|head + fields|..] == rest;
    assert !IsSeparator(text[0]) by { assert DigitOf(text[0]).Some?; }
  }

  lemma {:induction false} SegmentLengthOf(segment: string, rest: string)
    requires forall c | c in segment :: !IsSeparator(c)
    requires rest == [] || IsSeparator(rest[0])
    ensures SegmentLength(segment + rest) == |segment|
  {
    if segment == [] {
      assert segment + rest == rest;
    } else {
      assert (segment + rest)[1..] == segment[1..] + rest;
      SegmentLengthOf(segment[1..], rest);
    }
  }

  lemma RewriteHead(text: string, shifts: LineShifts, line: nat, previous: int, shifted: int)
    requires text == [] || IsSeparator(text[0])
    ensures var r := Rewrite(text, shifts, line, previous, shifted); if text == [] then r == [] else r != [] && r[0] == text[0]
  {
  }

  /**
   * The commuting square of the rewrite, for every mappings text, readable to the end or not: the
   * rewritten text reads as the original's items with each column moved and every other field as
   * it was, and stops reading at the same unreadable tail.
   */
  lemma {:induction false} RewriteMovesColumns(text: string, shifts: LineShifts, line: nat, previous: int, shifted: int)
    requires Fits(text, shifts, line, previous, shifted)
    ensures Read(Rewrite(text, shifts, line, previous, shifted), line, shifted) ==
            MoveReading(Read(text, line, previous), shifts)
    decreases |text|
  {
    hide Decode, Encode, ShiftFor, OnLine;
    if text == [] {
    } else if text[0] == ';' {
      RewriteMovesColumns(text[1..], shifts, line + 1, 0, 0);
      MoveCons(Break, Read(text[1..], line + 1, 0), shifts);
      assert Rewrite(text, shifts, line, previous, shifted)[1..] == Rewrite(text[1..], shifts, line + 1, 0, 0);
    } else if text[0] == ',' {
      RewriteMovesColumns(text[1..], shifts, line, previous, shifted);
      MoveCons(Comma, Read(text[1..], line, previous), shifts);
      assert Rewrite(text, shifts, line, previous, shifted)[1..] ==
             Rewrite(text[1..], shifts, line, previous, shifted);
    } else {
      match Decode(text)
      case None =>
      case Some(value) =>
        var column := previous + value.value;
        var adjusted := Moved(shifts, line, column);
        RewriteMovesColumns(text[SegmentLength(text)..], shifts, line, column, adjusted);
        SegmentMoves(text, shifts, line, previous, shifted);
    }
  }

  /** The segment case of `RewriteMovesColumns`, given the square for the rest of the text. */
  lemma SegmentMoves(text: string, shifts: LineShifts, line: nat, previous: int, shifted: int)
    requires text != [] && !IsSeparator(text[0]) && Decode(text).Some?
    requires Fits(text, shifts, line, previous, shifted)
    requires var column := previous + Decode(text).value.value;
             var adjusted := Moved(shifts, line, column);
             var rest := text[SegmentLength(text)..];
             Read(Rewrite(rest, shifts, line, column, adjusted), line, adjusted) ==
             MoveReading(Read(rest, line, column), shifts)
    ensures Read(Rewrite(text, shifts, line, previous, shifted), line, shifted) ==
            MoveReading(Read(text, line, previous), shifts)
  {
    hide Read, Rewrite, MoveReading, Moved, Encode, SegmentLength;
    RewriteSegment(text, shifts, line, previous, shifted);
    ReadHere(text, line, previous);
    var value, length := Decode(text).value, SegmentLength(text);
    var column := previous + value.value;
    var adjusted := Moved(shifts, line, column);
    var rest := text[length..];
    RewriteHead(rest, shifts, line, column, adjusted);
    ReadMoved(adjusted - shifted, text[value.width..length], Rewrite(rest, shifts, line, column, adjusted),
              Read(rest, line, column), line, shifted, column, shifts);
  }

  /** A re-encoded segment in front of a rewritten rest reads as the segment moved in front of the rest moved. */
  lemma ReadMoved(delta: int, fields: string, rewritten: string, rest: Reading, line: nat, shifted: int, column: int,
                  shifts: LineShifts)
    requires Encodable(delta) && (forall c | c in fields :: !IsSeparator(c)) && (rewritten == [] || IsSeparator(rewritten[0]))
    requires shifted + delta == Moved(shifts, line, column)
    requires Read(rewritten, line, shifted + delta) == MoveReading(rest, shifts)
    ensures Read(Encode(delta) + fields + rewritten, line, shifted) ==
            MoveReading(Cons(At(line, column, fields), rest), shifts)
  {
    ReadSegment(delta, fields, rewritten, line, shifted);
    MoveCons(At(line, column, fields), rest, shifts);
  }

  lemma ReadHere(text: string, line: nat, column: int)
    requires text != [] && !IsSeparator(text[0]) && Decode(text).Some?
    ensures var value, length := Decode(text).value, SegmentLength(text);
            value.width <= length && (forall c | c in text[value.width..length] :: !IsSeparator(c)) &&
            Read(text, line, column) ==
            Cons(At(line, column + value.value, text[value.width..length]), Read(text[length..], line, column + value.value))
  {
    ValueStaysInSegment(text);
  }

  lemma MoveCons(item: Item, reading: Reading, shifts: LineShifts)
    ensures MoveReading(Cons(item, reading), shifts) == Cons(MoveItem(item, shifts), MoveReading(reading, shifts))
  {
    assert ([item] + reading.items)[1..] == reading.items;
  }

  // ---- Mappings line by line ---------------------------------------------------------------

  /** A segment as it is written: the difference of its column, and its other fields. */
  datatype Segment = Segment(delta: int, fields: string)

  function LineText(segments: seq<Segment>): string {
    if segments == [] then ""
    else Encode(segments[0].delta) + segments[0].fields + if |segments| == 1 then "" else "," + LineText(segments[1..])
  }

  /** Lines apart by semicolons, segments by commas. */
  function MapText(lines: seq<seq<Segment>>): string {
    if lines == [] then "" else LineText(lines[0]) + if |lines| == 1 then "" else ";" + MapText(lines[1..])
  }

  /** The column of a line's segment `j`: the differences up to it. */
  function ColumnOf(segments: seq<Segment>, j: nat): int
    requires j < |segments|
  {
    segments[j].delta + if j == 0 then 0 else ColumnOf(segments, j - 1)
  }

  /** The shifts listed for `line` at or before `column`. */
  function ShiftsTo(shifts: LineShifts, line: nat, column: int, n: nat): int
    requires line in shifts ==> n <= |shifts[line]|
  {
    if line !in shifts || n == 0 then 0
    else ShiftsTo(shifts, line, column, n - 1) + if shifts[line][n - 1].column <= column then shifts[line][n - 1].delta else 0
  }

  /** Segment by segment the same fields, the column moved by all of the line's shifts at or before it. */
  ghost predicate LineMoved(segments: seq<Segment>, moved: seq<Segment>, shifts: LineShifts, line: nat) {
    |moved| == |segments| &&
    forall j | 0 <= j < |segments| ::
      moved[j].fields == segments[j].fields &&
      var column := ColumnOf(segments, j);
      ColumnOf(moved, j) == column + ShiftsTo(shifts, line, column, if line in shifts then |shifts[line]| else 0)
  }

  predicate Wellformed(lines: seq<seq<Segment>>) {
    forall i | 0 <= i < |lines| :: PlainSegments(lines[i])
  }

  /** Differences the encoder writes, and fields without separators. */
  predicate PlainSegments(segments: seq<Segment>) {
    forall j | 0 <= j < |segments| :: PlainSegment(segments[j])
  }

  predicate PlainSegment(segment: Segment) {
    Encodable(segment.delta) && ',' !in segment.fields && ';' !in segment.fields
  }

  /** The line rewritten from given running columns. */
  function MovedFrom(segments: seq<Segment>, shifts: LineShifts, line: nat, previous: int, shifted: int): seq<Segment> {
    if segments == [] then []
    else
      var column := previous + segments[0].delta;
      var adjusted := Moved(shifts, line, column);
      [Segment(adjusted - shifted, segments[0].fields)] + MovedFrom(segments[1..], shifts, line, column, adjusted)
  }

  function MovedLines(lines: seq<seq<Segment>>, shifts: LineShifts, line: nat): seq<seq<Segment>> {
    if lines == [] then [] else [MovedFrom(lines[0], shifts, line, 0, 0)] + MovedLines(lines[1..], shifts, line + 1)
  }

  lemma NoSeparatorIn(value: int)
    ensures Encode(value) != [] && forall c | c in Encode(value) :: !IsSeparator(c)
  {
    forall c | c in Encode(value) ensures !IsSeparator(c) {
      assert DigitOf(c).Some?;
    }
  }

  lemma RewriteWritten(segment: Segment, rest: string, shifts: LineShifts, line: nat, previous: int, shifted: int)
    requires PlainSegments([segment]) && (rest == [] || IsSeparator(rest[0]))
    ensures var column := previous + segment.delta;
            var adjusted := Moved(shifts, line, column);
            Rewrite(Encode(segment.delta) + segment.fields + rest, shifts, line, previous, shifted) ==
            Encode(adjusted - shifted) + segment.fields + Rewrite(rest, shifts, line, column, adjusted)
  {
    var text := Encode(segment.delta) + segment.fields + rest;
    assert PlainSegment([segment][0]);
    WrittenReads(segment, rest);
    Parts(Encode(segment.delta), segment.fields, rest);
    hide Decode, Encode, Rewrite, ShiftFor, OnLine, IsSeparator, PlainSegments, PlainSegment, SegmentLength;
    RewriteSegment(text, shifts, line, previous, shifted);
  }

  /** A written segment is read as it stands. */
  lemma WrittenReads(segment: Segment, rest: string)
    requires PlainSegment(segment) && (rest == [] || IsSeparator(rest[0]))
    ensures var head := Encode(segment.delta);
            var text := head + segment.fields + rest;
            text != [] && !IsSeparator(text[0]) && Decode(text) == Some(Decoded(segment.delta, |head|)) &&
            SegmentLength(text) == |head + segment.fields|
  {
    var head, fields := Encode(segment.delta), segment.fields;
    assert head + fields + rest == head + (fields + rest);
    DecodeEncode(segment.delta, fields + rest);
    NoSeparatorIn(segment.delta);
    hide Decode, Encode, DigitOf;
    assert head[0] in head;
    SegmentLengthOf(head + fields, rest);
  }

  lemma Parts(head: string, fields: string, rest: string)
    ensures var text := head + fields + rest;
            text[|head|..|head + fields|] == fields && text[|head + fields|..] == rest && (head != [] ==> text[0] == head[0])
  {
  }

  /** What is rewritten after a line: nothing, or the line break and the lines that follow. */
  function AfterLine(rest: string, shifts: LineShifts, line: nat): string {
    if rest == [] then "" else ";" + Rewrite(rest[1..], shifts, line + 1, 0, 0)
  }

  lemma {:induction false} RewriteLine(segments: seq<Segment>, rest: string, shifts: LineShifts, line: nat, previous: int, shifted: int)
    requires PlainSegments(segments) && (rest == [] || rest[0] == ';')
    ensures Rewrite(LineText(segments) + rest, shifts, line, previous, shifted) ==
            LineText(MovedFrom(segments, shifts, line, previous, shifted)) + AfterLine(rest, shifts, line)
    decreases |segments|
  {
    hide Rewrite, AfterLine, Moved;
    if segments == [] {
      assert LineText(segments) + rest == rest && LineText([]) == "";
      RewriteRest(rest, shifts, line, previous, shifted);
    } else {
      hide LineText, MovedFrom;
      var first, more := segments[0], segments[1..];
      PlainParts(segments);
      if more != [] {
        var column := previous + first.delta;
        RewriteLine(more, rest, shifts, line, column, Moved(shifts, line, column));
      }
      RewriteOneMore(first, more, rest, shifts, line, previous, shifted);
    }
  }

  lemma RewriteRest(rest: string, shifts: LineShifts, line: nat, previous: int, shifted: int)
    requires rest == [] || rest[0] == ';'
    ensures Rewrite(rest, shifts, line, previous, shifted) == AfterLine(rest, shifts, line)
  {
  }

  lemma PlainParts(segments: seq<Segment>)
    requires PlainSegments(segments) && segments != []
    ensures segments == [segments[0]] + segments[1..] && PlainSegments([segments[0]]) && PlainSegments(segments[1..])
  {
  }

  lemma RewriteOneMore(first: Segment, more: seq<Segment>, rest: string, shifts: LineShifts, line: nat, previous: int, shifted: int)
    requires PlainSegments([first]) && (rest == [] || rest[0] == ';')
    requires var column := previous + first.delta;
             var adjusted := Moved(shifts, line, column);
             more != [] ==>
               Rewrite(LineText(more) + rest, shifts, line, column, adjusted) ==
               LineText(MovedFrom(more, shifts, line, column, adjusted)) + AfterLine(rest, shifts, line)
    ensures Rewrite(LineText([first] + more) + rest, shifts, line, previous, shifted) ==
            LineText(MovedFrom([first] + more, shifts, line, previous, shifted)) + AfterLine(rest, shifts, line)
  {
    LineSplits(first, more, rest);
    var column := previous + first.delta;
    var adjusted := Moved(shifts, line, column);
    hide PlainSegments, Rewrite, LineText, AfterLine, Encode, Moved;
    if more == [] {
      assert [first] + more == [first];
      RewriteWritten(first, rest, shifts, line, previous, shifted);
      LineEnds(first, rest, shifts, line, previous, shifted);
    } else {
      assert MovedFrom(more, shifts, line, column, adjusted) != [];
      RewriteWritten(first, "," + (LineText(more) + rest), shifts, line, previous, shifted);
      LineGoesOn(first, more, rest, shifts, line, previous, shifted);
    }
  }

  lemma LineSplits(first: Segment, more: seq<Segment>, rest: string)
    ensures LineText([first] + more) + rest ==
            Encode(first.delta) + first.fields + if more == [] then rest else "," + (LineText(more) + rest)
  {
    if more == [] {
      assert [first] + more == [first];
    } else {
      LineLonger(first, more);
      hide LineText, Encode;
      Joined(Encode(first.delta) + first.fields, LineText(more), rest);
    }
  }

  lemma LineEnds(segment: Segment, rest: string, shifts: LineShifts, line: nat, previous: int, shifted: int)
    requires rest == [] || rest[0] == ';'
    ensures var column := previous + segment.delta;
            var adjusted := Moved(shifts, line, column);
            Encode(adjusted - shifted) + segment.fields + Rewrite(rest, shifts, line, column, adjusted) ==
            LineText(MovedFrom([segment], shifts, line, previous, shifted)) + AfterLine(rest, shifts, line)
  {
    hide Encode, ShiftFor, Moved, Rewrite, AfterLine;
    var column := previous + segment.delta;
    RewriteRest(rest, shifts, line, column, Moved(shifts, line, column));
    assert [segment][1..] == [];
    assert MovedFrom([segment], shifts, line, previous, shifted) ==
           [Segment(Moved(shifts, line, column) - shifted, segment.fields)];
  }

  lemma LineGoesOn(first: Segment, more: seq<Segment>, rest: string, shifts: LineShifts, line: nat, previous: int, shifted: int)
    requires more != [] && MovedFrom(more, shifts, line, previous + first.delta, Moved(shifts, line, previous + first.delta)) != []
    requires var column := previous + first.delta;
             var adjusted := Moved(shifts, line, column);
             Rewrite(LineText(more) + rest, shifts, line, column, adjusted) ==
             LineText(MovedFrom(more, shifts, line, column, adjusted)) + AfterLine(rest, shifts, line)
    ensures var column := previous + first.delta;
            var adjusted := Moved(shifts, line, column);
            Encode(adjusted - shifted) + first.fields + Rewrite("," + (LineText(more) + rest), shifts, line, column, adjusted) ==
            LineText(MovedFrom([first] + more, shifts, line, previous, shifted)) + AfterLine(rest, shifts, line)
  {
    hide Rewrite, MovedFrom, LineText, Encode, Moved, AfterLine;
    var column := previous + first.delta;
    var adjusted := Moved(shifts, line, column);
    var moved := MovedFrom(more, shifts, line, column, adjusted);
    RewriteComma(LineText(more) + rest, shifts, line, column, adjusted);
    MovedFirst(first, more, shifts, line, previous, shifted);
    LineLonger(Segment(adjusted - shifted, first.fields), moved);
    Joined(Encode(adjusted - shifted) + first.fields, LineText(moved), AfterLine(rest, shifts, line));
  }

  lemma MovedFirst(first: Segment, more: seq<Segment>, shifts: LineShifts, line: nat, previous: int, shifted: int)
    ensures var column := previous + first.delta;
            var adjusted := Moved(shifts, line, column);
            MovedFrom([first] + more, shifts, line, previous, shifted) ==
            [Segment(adjusted - shifted, first.fields)] + MovedFrom(more, shifts, line, column, adjusted)
  {
    hide Moved;
    assert ([first] + more)[1..] == more;
  }

  lemma RewriteComma(rest: string, shifts: LineShifts, line: nat, previous: int, shifted: int)
    ensures Rewrite("," + rest, shifts, line, previous, shifted) == "," + Rewrite(rest, shifts, line, previous, shifted)
  {
    assert ("," + rest)[1..] == rest;
  }

  lemma LineLonger(first: Segment, more: seq<Segment>)
    requires more != []
    ensures LineText([first] + more) == Encode(first.delta) + first.fields + ("," + LineText(more))
  {
    hide Encode;
    assert ([first] + more)[1..] == more;
  }

  lemma Joined(head: string, more: string, after: string)
    ensures head + ("," + (more + after)) == head + ("," + more) + after
  {
  }

  lemma {:induction false} RewriteLines(lines: seq<seq<Segment>>, shifts: LineShifts, line: nat)
    requires Wellformed(lines)
    ensures Rewrite(MapText(lines), shifts, line, 0, 0) == MapText(MovedLines(lines, shifts, line))
    decreases |lines|
  {
    if lines != [] {
      var first, more := lines[0], lines[1..];
      assert PlainSegments(lines[0]);
      assert Wellformed(more) by {
        forall i | 0 <= i < |more| ensures PlainSegments(more[i]) {
          assert PlainSegments(lines[i + 1]);
        }
      }
      var rest := if more == [] then "" else ";" + MapText(more);
      RewriteLine(first, rest, shifts, line, 0, 0);
      RewriteLines(more, shifts, line + 1);
      hide LineText, Rewrite, MovedFrom;
      assert MapText(lines) == LineText(first) + rest;
      assert more != [] ==> rest[1..] == MapText(more);
      assert MovedLines(lines, shifts, line)[1..] == MovedLines(more, shifts, line + 1);
    }
  }

  lemma {:induction false} ShiftForTotal(list: seq<ColumnShift>, shifts: LineShifts, line: nat, column: int, n: nat)
    requires line in shifts && n <= |shifts[line]| && list == shifts[line][..n]
    ensures ShiftFor(list, column) == ShiftsTo(shifts, line, column, n)
    decreases n
  {
    if n > 0 {
      ShiftForTotal(list[..n - 1], shifts, line, column, n - 1);
      assert list == list[..n - 1] + [list[n - 1]];
      ShiftForMore(list[..n - 1], list[n - 1], column);
    }
  }

  lemma {:induction false} ShiftForMore(list: seq<ColumnShift>, last: ColumnShift, column: int)
    ensures ShiftFor(list + [last], column) == ShiftFor(list, column) + if last.column <= column then last.delta else 0
  {
    if list == [] {
      assert list + [last] == [last] && [last][1..] == [];
    } else {
      assert (list + [last])[1..] == list[1..] + [last];
      ShiftForMore(list[1..], last, column);
    }
  }

  lemma MovedByTotal(shifts: LineShifts, line: nat, column: int)
    ensures Moved(shifts, line, column) ==
            column + ShiftsTo(shifts, line, column, if line in shifts then |shifts[line]| else 0)
  {
    if line in shifts {
      ShiftForTotal(shifts[line], shifts, line, column, |shifts[line]|);
    }
  }

  /** From its segment `j` on a line is moved as from its own start. */
  lemma {:induction false} MovedColumn(segments: seq<Segment>, shifts: LineShifts, line: nat, previous: int, shifted: int, j: nat)
    requires j < |segments|
    ensures var moved := MovedFrom(segments, shifts, line, previous, shifted);
            |moved| == |segments| && moved[j].fields == segments[j].fields &&
            shifted + ColumnOf(moved, j) == Moved(shifts, line, previous + ColumnOf(segments, j))
    decreases |segments|
  {
    var column := previous + segments[0].delta;
    var adjusted := Moved(shifts, line, column);
    var rest := MovedFrom(segments[1..], shifts, line, column, adjusted);
    var moved := MovedFrom(segments, shifts, line, previous, shifted);
    assert moved[1..] == rest;
    if j > 0 {
      MovedColumn(segments[1..], shifts, line, column, adjusted, j - 1);
      ColumnFrom(segments, j);
      ColumnFrom(moved, j);
    } else if |segments| > 1 {
      MovedColumn(segments[1..], shifts, line, column, adjusted, 0);
    }
  }

  lemma {:induction false} ColumnFrom(segments: seq<Segment>, j: nat)
    requires 0 < j < |segments|
    ensures ColumnOf(segments, j) == segments[0].delta + ColumnOf(segments[1..], j - 1)
    decreases j
  {
    if j > 1 {
      ColumnFrom(segments, j - 1);
    }
  }

  lemma {:induction false} MovedLine(lines: seq<seq<Segment>>, shifts: LineShifts, line: nat, i: nat)
    requires i < |lines|
    ensures var moved := MovedLines(lines, shifts, line);
            |moved| == |lines| && moved[i] == MovedFrom(lines[i], shifts, line + i, 0, 0)
    decreases |lines|
  {
    if i > 0 {
      MovedLine(lines[1..], shifts, line + 1, i - 1);
    } else if |lines| > 1 {
      MovedLine(lines[1..], shifts, line + 1, 0);
    }
  }

  /**
   * The rewrite of any mappings as they are written, lines apart by semicolons and segments by commas:
   * the same lines of as many segments with the same fields, each column moved by its line's shifts.
   */
  lemma LinesMoved(lines: seq<seq<Segment>>, shifts: LineShifts) returns (moved: seq<seq<Segment>>)
    requires Wellformed(lines)
    ensures Rewrite(MapText(lines), shifts, 0, 0, 0) == MapText(moved)
    ensures |moved| == |lines| && forall i | 0 <= i < |lines| :: LineMoved(lines[i], moved[i], shifts, i)
  {
    moved := MovedLines(lines, shifts, 0);
    RewriteLines(lines, shifts, 0);
    if lines != [] {
      MovedLine(lines, shifts, 0, 0);
    }
    hide Rewrite, MapText, MovedLines, LineMoved;
    forall i | 0 <= i < |lines| ensures LineMoved(lines[i], moved[i], shifts, i) {
      MovedLine(lines, shifts, 0, i);
      LineIsMoved(lines[i], shifts, i);
    }
  }

  lemma LineIsMoved(segments: seq<Segment>, shifts: LineShifts, line: nat)
    ensures LineMoved(segments, MovedFrom(segments, shifts, line, 0, 0), shifts, line)
  {
    var moved := MovedFrom(segments, shifts, line, 0, 0);
    if segments != [] {
      MovedColumn(segments, shifts, line, 0, 0, 0);
    }
    hide MovedFrom, ColumnOf, Moved, ShiftsTo;
    forall j | 0 <= j < |segments|
      ensures moved[j].fields == segments[j].fields
      ensures var column := ColumnOf(segments, j);
              ColumnOf(moved, j) == column + ShiftsTo(shifts, line, column, if line in shifts then |shifts[line]| else 0)
    {
      MovedColumn(segments, shifts, line, 0, 0, j);
      MovedByTotal(shifts, line, ColumnOf(segments, j));
    }
  }
}
