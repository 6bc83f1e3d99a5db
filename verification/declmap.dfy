/**
 * Keeping a declaration map honest after its declaration text was spliced: the per-line column
 * shifts of the edits, and the square they close with the splice (`declmap.rs`).
 */
module DeclMap {
  import opened Common
  import opened TextEdits
  import opened Vlq
  import opened Mappings

  const BYTE_ORDER_MARK := '\U{FEFF}'

  /** The text without its byte order mark, and the mark's bytes. */
  function StripMark(text: string): (string, nat) {
    if text != [] && text[0] == BYTE_ORDER_MARK then (text[1..], Width(BYTE_ORDER_MARK)) else (text, 0)
  }

  /** `utf16_position`: the position of byte `offset`, where a character starts there. */
  function Utf16Position(text: string, offset: nat): Option<Position> {
    match CharIndex(text, offset)
    case None => None
    case Some(i) => Some(PositionAt(text, i))
  }

  /** One edit's line and shift, if it moves anything: single-line, in the text, and of another length. */
  function ShiftOf(text: string, edit: TextEdit, bom: nat): Option<(nat, ColumnShift)> {
    if edit.start < bom || edit.end < bom then None
    else
      match (Utf16Position(text, edit.start - bom), Utf16Position(text, edit.end - bom))
      case (Some(start), Some(end)) =>
        var delta := Utf16Length(edit.text) - (end.column - start.column);
        if end.line != start.line || delta == 0 then None
        else Some((start.line, ColumnShift(end.column, delta)))
      case _ => None
  }

  /** The mark is the character U+FEFF in front, three bytes long. */
  lemma MarkMeans(body: string)
    ensures StripMark("\U{FEFF}" + body) == (body, 3)
    ensures body == [] || body[0] as int != 0xFEFF ==> StripMark(body) == (body, 0)
  {
    assert ("\U{FEFF}" + body)[1..] == body;
  }

  /**
   * An edit counts if it starts past the mark and lies in the text, holds no line break, and replaces
   * text of another length: from the column of its end on, its line moves by the difference.
   */
  lemma ShiftOfMeans(text: string, edit: TextEdit, bom: nat)
    requires edit.start <= edit.end
    ensures ShiftOf(text, edit, bom) ==
            if edit.start < bom then None
            else
              match (CharIndex(text, edit.start - bom), CharIndex(text, edit.end - bom))
              case (Some(i), Some(j)) =>
                var delta := Utf16Length(edit.text) - if i <= j then Utf16Length(text[i..j]) else 0;
                if i > j || '\n' in text[i..j] || delta == 0 then None
                else Some((PositionAt(text, i).line, ColumnShift(PositionAt(text, j).column, delta)))
              case _ => None
  {
    hide Run, Utf16Length, CharIndex, PositionAt;
    if edit.start >= bom {
      var (from, to) := (CharIndex(text, edit.start - bom), CharIndex(text, edit.end - bom));
      if from.Some? && to.Some? {
        CharIndexOrder(text, edit.start - bom, edit.end - bom);
        var i, j := from.value, to.value;
        PositionLater(text, i, j);
        LinesRead(text[i..j], PositionAt(text, i));
        if '\n' !in text[i..j] {
          RunPlain(text[i..j], PositionAt(text, i));
        }
      }
    }
  }

  /** The shifts of `edits` on `line`, in order. */
  function ShiftsOn(text: string, edits: seq<TextEdit>, bom: nat, line: nat): seq<ColumnShift> {
    if edits == [] then []
    else
      (match ShiftOf(text, edits[0], bom)
       case Some(shift) => (if shift.0 == line then [shift.1] else [])
       case None => []) +
      ShiftsOn(text, edits[1..], bom, line)
  }

  lemma {:induction false} ShiftsOnAppend(text: string, edits: seq<TextEdit>, edit: TextEdit, bom: nat, line: nat)
    ensures ShiftsOn(text, edits + [edit], bom, line) ==
            ShiftsOn(text, edits, bom, line) + ShiftsOn(text, [edit], bom, line)
  {
    if edits == [] {
      assert [] + [edit] == [edit];
    } else {
      assert (edits + [edit])[1..] == edits[1..] + [edit];
      ShiftsOnAppend(text, edits[1..], edit, bom, line);
    }
  }

  function AddShift(shifts: LineShifts, shift: Option<(nat, ColumnShift)>): LineShifts {
    match shift
    case None => shifts
    case Some((line, shift)) => shifts[line := OnLine(shifts, line) + [shift]]
  }

  /** The shifts of a map are those of `edits`, line by line, with no line listed in vain. */
  ghost predicate Collects(shifts: LineShifts, text: string, edits: seq<TextEdit>, bom: nat) {
    (forall line: nat :: OnLine(shifts, line) == ShiftsOn(text, edits, bom, line)) &&
    (forall line | line in shifts :: shifts[line] != [])
  }

  lemma CollectNext(shifts: LineShifts, text: string, edits: seq<TextEdit>, edit: TextEdit, bom: nat)
    requires Collects(shifts, text, edits, bom)
    ensures Collects(AddShift(shifts, ShiftOf(text, edit, bom)), text, edits + [edit], bom)
  {
    var next := AddShift(shifts, ShiftOf(text, edit, bom));
    forall line: nat ensures OnLine(next, line) == ShiftsOn(text, edits + [edit], bom, line) {
      ShiftsOnAppend(text, edits, edit, bom, line);
      assert ShiftsOn(text, [], bom, line) == [];
      assert [edit][1..] == [];
      assert OnLine(shifts, line) + [] == OnLine(shifts, line);
    }
  }

  /** The shifts of the edits, added one after the other. */
  function ShiftsOf(text: string, edits: seq<TextEdit>, bom: nat): LineShifts {
    if edits == [] then map[]
    else AddShift(ShiftsOf(text, edits[..|edits| - 1], bom), ShiftOf(text, edits[|edits| - 1], bom))
  }

  /** Line by line they are the edits' shifts, in order. */
  lemma {:induction false} ShiftsOfCollects(text: string, edits: seq<TextEdit>, bom: nat)
    ensures Collects(ShiftsOf(text, edits, bom), text, edits, bom)
  {
    if edits != [] {
      var front, last := edits[..|edits| - 1], edits[|edits| - 1];
      ShiftsOfCollects(text, front, bom);
      CollectNext(ShiftsOf(text, front, bom), text, front, last, bom);
      assert edits == front + [last];
    }
  }

  /** `declaration_column_shifts`: line by line, where columns move and by how much. */
  method DeclarationColumnShifts(text: string, edits: seq<TextEdit>, bom: nat) returns (shifts: LineShifts)
    ensures shifts == ShiftsOf(text, edits, bom) && Collects(shifts, text, edits, bom)
  {
    shifts := map[];
    var index := 0;
    while index < |edits|
      invariant 0 <= index <= |edits|
      invariant shifts == ShiftsOf(text, edits[..index], bom)
    {
      assert edits[..index + 1][..index] == edits[..index];
      shifts := AddShift(shifts, ShiftOf(text, edits[index], bom));
      index := index + 1;
    }
    assert edits[..index] == edits;
    ShiftsOfCollects(text, edits, bom);
  }

  // ---- The square --------------------------------------------------------------------------

  /** `edits` with offsets counted from after the byte order mark. */
  function Unmarked(edits: seq<TextEdit>, bom: nat): (r: seq<TextEdit>)
    requires forall e | e in edits :: bom <= e.start && bom <= e.end
    ensures |r| == |edits|
    ensures forall i | 0 <= i < |edits| ::
              r[i] == TextEdit(edits[i].start - bom, edits[i].end - bom, edits[i].text)
  {
    seq(|edits|, i requires 0 <= i < |edits| =>
      TextEdit(edits[i].start - bom, edits[i].end - bom, edits[i].text))
  }

  /** The collected shifts total, at any position, what the edits before it grew its line by. */
  lemma {:induction false} ShiftsTotalGrowth(text: string, edits: seq<TextEdit>, bom: nat, at: Position)
    requires forall e | e in edits :: bom <= e.start && bom <= e.end
    requires OnBoundaries(text, Unmarked(edits, bom))
    requires InBounds(text, Spans(text, Unmarked(edits, bom)))
    requires SingleLine(text, Spans(text, Unmarked(edits, bom)))
    ensures ShiftFor(ShiftsOn(text, edits, bom, at.line), at.column) ==
            GrowthBefore(text, Spans(text, Unmarked(edits, bom)), at)
  {
    if edits != [] {
      UnmarkedRest(text, edits, bom);
      ShiftsTotalGrowth(text, edits[1..], bom, at);
      HeadGrowth(text, edits, bom, at);
      ShiftForHead(text, edits, bom, at);
    }
  }

  /** What the first edit's shift adds at a position, if anything. */
  function ShiftAt(shift: Option<(nat, ColumnShift)>, at: Position): int {
    match shift
    case None => 0
    case Some((line, shift)) => if line == at.line && at.column >= shift.column then shift.delta else 0
  }

  lemma HeadGrowth(text: string, edits: seq<TextEdit>, bom: nat, at: Position)
    requires edits != [] && forall e | e in edits :: bom <= e.start && bom <= e.end
    requires OnBoundaries(text, Unmarked(edits, bom))
    requires InBounds(text, Spans(text, Unmarked(edits, bom)))
    requires SingleLine(text, Spans(text, Unmarked(edits, bom)))
    ensures var spans := Spans(text, Unmarked(edits, bom));
            InBounds(text, spans[1..]) &&
            GrowthBefore(text, spans, at) == ShiftAt(ShiftOf(text, edits[0], bom), at) + GrowthBefore(text, spans[1..], at)
  {
    ShiftGrowth(text, edits[0], Spans(text, Unmarked(edits, bom))[0], bom);
  }

  lemma UnmarkedRest(text: string, edits: seq<TextEdit>, bom: nat)
    requires edits != []
    requires forall e | e in edits :: bom <= e.start && bom <= e.end
    requires OnBoundaries(text, Unmarked(edits, bom))
    ensures OnBoundaries(text, Unmarked(edits[1..], bom))
    ensures Spans(text, Unmarked(edits, bom))[1..] == Spans(text, Unmarked(edits[1..], bom))
  {
    assert Unmarked(edits, bom)[1..] == Unmarked(edits[1..], bom);
  }

  lemma ShiftForHead(text: string, edits: seq<TextEdit>, bom: nat, at: Position)
    requires edits != []
    ensures ShiftFor(ShiftsOn(text, edits, bom, at.line), at.column) ==
            ShiftAt(ShiftOf(text, edits[0], bom), at) + ShiftFor(ShiftsOn(text, edits[1..], bom, at.line), at.column)
  {
    var rest := ShiftsOn(text, edits[1..], bom, at.line);
    match ShiftOf(text, edits[0], bom)
    case None =>
      assert [] + rest == rest;
    case Some((line, shift)) =>
      assert ([shift] + rest)[1..] == rest;
      assert [] + rest == rest;
  }

  /** A single-line edit's shift is its growth, at its end. */
  lemma ShiftGrowth(text: string, edit: TextEdit, span: Span, bom: nat)
    requires bom <= edit.start && bom <= edit.end
    requires CharIndex(text, edit.start - bom) == Some(span.from)
    requires CharIndex(text, edit.end - bom) == Some(span.to)
    requires span.from <= span.to <= |text| && span.text == edit.text
    requires '\n' !in text[span.from..span.to]
    ensures var end := PositionAt(text, span.to);
            ShiftOf(text, edit, bom) ==
            if Growth(text, span) == 0 then None
            else Some((end.line, ColumnShift(end.column, Growth(text, span))))
  {
    PositionLater(text, span.from, span.to);
    RunPlain(text[span.from..span.to], PositionAt(text, span.from));
  }

  function Up(spans: seq<Span>): (r: seq<Span>)
    ensures |r| == |spans|
    ensures forall i | 0 <= i < |spans| :: r[i] == Span(spans[i].from + 1, spans[i].to + 1, spans[i].text)
  {
    seq(|spans|, i requires 0 <= i < |spans| => Span(spans[i].from + 1, spans[i].to + 1, spans[i].text))
  }

  /** Splicing commutes with a leading character no edit touches. */
  lemma {:induction false} SpliceUp(c: char, text: string, spans: seq<Span>, cursor: nat)
    requires InBounds(text, spans) && cursor <= |text|
    ensures InBounds([c] + text, Up(spans))
    ensures Splice([c] + text, Up(spans), cursor + 1) == Splice(text, spans, cursor)
    decreases |spans|
  {
    var marked := [c] + text;
    assert marked[cursor + 1..] == text[cursor..];
    if spans != [] {
      hide Up;
      assert Up(spans)[1..] == Up(spans[1..]);
      if spans[0].from < cursor {
        SpliceUp(c, text, spans[1..], cursor);
      } else {
        SpliceUp(c, text, spans[1..], spans[0].to);
        assert marked[cursor + 1..spans[0].from + 1] == text[cursor..spans[0].from];
      }
    }
  }

  lemma SpliceMark(c: char, text: string, spans: seq<Span>)
    requires InBounds(text, spans)
    ensures InBounds([c] + text, Up(spans))
    ensures Splice([c] + text, Up(spans), 0) == [c] + Splice(text, spans, 0)
  {
    var marked := [c] + text;
    SpliceUp(c, text, spans, 0);
    if spans == [] {
      assert marked[0..] == marked && text[0..] == text;
    } else {
      var span := spans[0];
      assert Up(spans)[1..] == Up(spans[1..]);
      SpliceUp(c, text, spans[1..], span.to);
      assert marked[0..span.from + 1] == [c] + text[0..span.from];
    }
  }

  /** An offset past the mark addresses the same character with and without it. */
  lemma MarkedIndex(c: char, text: string, offset: nat)
    requires offset >= Width(c)
    ensures CharIndex([c] + text, offset) ==
            match CharIndex(text, offset - Width(c)) case None => None case Some(i) => Some(i + 1)
  {
    assert ([c] + text)[1..] == text;
  }

  /** Disjoint single-line edits on character boundaries of the text after its byte order mark. */
  ghost predicate Fixable(declText: string, edits: seq<TextEdit>) {
    var (body, bom) := StripMark(declText);
    (forall e | e in edits :: bom <= e.start && bom <= e.end) &&
    OnBoundaries(declText, edits) && Disjoint(edits) &&
    OnBoundaries(body, Unmarked(edits, bom)) &&
    InBounds(body, Spans(body, Unmarked(edits, bom))) &&
    SingleLine(body, Spans(body, Unmarked(edits, bom)))
  }

  function BodySpans(declText: string, edits: seq<TextEdit>): seq<Span>
    requires Fixable(declText, edits)
  {
    var (body, bom) := StripMark(declText);
    Spans(body, Unmarked(edits, bom))
  }

  /** The spliced text after the mark it was emitted with. */
  function SplicedBody(declText: string, edits: seq<TextEdit>): string
    requires Fixable(declText, edits)
  {
    Splice(StripMark(declText).0, BodySpans(declText, edits), 0)
  }

  lemma BodySpansDisjoint(declText: string, edits: seq<TextEdit>)
    requires Fixable(declText, edits)
    ensures NonOverlapping(BodySpans(declText, edits))
  {
    var (body, bom) := StripMark(declText);
    var spans := BodySpans(declText, edits);
    forall i, j | 0 <= i < j < |spans| ensures spans[i].to <= spans[j].from {
      CharIndexOrder(body, edits[i].end - bom, edits[j].start - bom);
    }
  }

  /** The splice of the whole text is its mark, if it has one, before the splice of its body. */
  lemma SplicedWhole(declText: string, edits: seq<TextEdit>)
    requires Fixable(declText, edits)
    ensures InBounds(declText, Spans(declText, edits))
    ensures Splice(declText, Spans(declText, edits), 0) ==
            (if StripMark(declText).1 > 0 then [BYTE_ORDER_MARK] else []) + SplicedBody(declText, edits)
  {
    var (body, bom) := StripMark(declText);
    SpansInBounds(declText, edits);
    if bom > 0 {
      SpansUp(declText, edits);
      SpliceMark(BYTE_ORDER_MARK, body, BodySpans(declText, edits));
    } else {
      assert Unmarked(edits, 0) == edits;
    }
  }

  lemma SpansUp(declText: string, edits: seq<TextEdit>)
    requires Fixable(declText, edits) && StripMark(declText).1 > 0
    ensures declText == [BYTE_ORDER_MARK] + StripMark(declText).0
    ensures Spans(declText, edits) == Up(BodySpans(declText, edits))
  {
    var mark, body := BYTE_ORDER_MARK, StripMark(declText).0;
    assert declText == [mark] + body;
    var spans, up := Spans(declText, edits), Up(BodySpans(declText, edits));
    forall i | 0 <= i < |edits| ensures spans[i] == up[i] {
      assert Width(mark) <= edits[i].start && Width(mark) <= edits[i].end;
      MarkedIndex(mark, body, edits[i].start);
      MarkedIndex(mark, body, edits[i].end);
    }
  }

  /**
   * The square: moving a position by the collected shifts and looking it up in the spliced text
   * finds the character it named in the text as emitted.
   */
  lemma FixupCommutes(declText: string, edits: seq<TextEdit>, shifts: LineShifts, p: nat)
    requires Fixable(declText, edits)
    requires Collects(shifts, StripMark(declText).0, edits, StripMark(declText).1)
    requires p <= |StripMark(declText).0| && Outside(BodySpans(declText, edits), p)
    ensures NonOverlapping(BodySpans(declText, edits))
    ensures var (body, spans, spliced) := (StripMark(declText).0, BodySpans(declText, edits), SplicedBody(declText, edits));
            var q := NewIndex(body, spans, p);
            var at := PositionAt(body, p);
            q <= |spliced| &&
            PositionAt(spliced, q) == Position(at.line, Moved(shifts, at.line, at.column)) &&
            (p < |body| && Kept(spans, p) ==> q < |spliced| && spliced[q] == body[p])
  {
    var (body, bom) := StripMark(declText);
    BodySpansDisjoint(declText, edits);
    SpliceMoves(body, BodySpans(declText, edits), p);
    ShiftsTotalGrowth(body, edits, bom, PositionAt(body, p));
    assert OnLine(shifts, PositionAt(body, p).line) == ShiftsOn(body, edits, bom, PositionAt(body, p).line);
  }

  /**
   * End to end: after the splice and the rewrite, the map's `i`-th item, if it was a segment at the
   * position of some character outside the edits, is a segment with the same other fields at the
   * position that character has in the spliced text.
   */
  lemma MapStillPoints(declText: string, edits: seq<TextEdit>, shifts: LineShifts, mappings: string, i: nat, p: nat)
    requires Fixable(declText, edits)
    requires Collects(shifts, StripMark(declText).0, edits, StripMark(declText).1)
    requires Fits(mappings, shifts, 0, 0, 0)
    requires p <= |StripMark(declText).0| && Outside(BodySpans(declText, edits), p)
    requires i < |Read(mappings, 0, 0).items|
    requires var item := Read(mappings, 0, 0).items[i];
             item.At? && Position(item.line, item.column) == PositionAt(StripMark(declText).0, p)
    ensures NonOverlapping(BodySpans(declText, edits))
    ensures var (body, spans, spliced) := (StripMark(declText).0, BodySpans(declText, edits), SplicedBody(declText, edits));
            var before := Read(mappings, 0, 0);
            var after := Read(Rewrite(mappings, shifts, 0, 0, 0), 0, 0);
            var q := NewIndex(body, spans, p);
            |after.items| == |before.items| && after.tail == before.tail && q <= |spliced| &&
            after.items[i] == At(PositionAt(spliced, q).line, PositionAt(spliced, q).column, before.items[i].fields) &&
            (p < |body| && Kept(spans, p) ==> q < |spliced| && spliced[q] == body[p])
  {
    RewriteMovesColumns(mappings, shifts, 0, 0, 0);
    FixupCommutes(declText, edits, shifts, p);
  }

  // ---- The map file ------------------------------------------------------------------------

  const KEY := "\"mappings\":\""

  /** The first index at or after `from` where `pattern` occurs. */
  function Find(text: string, pattern: string, from: nat): (r: Option<nat>)
    requires from <= |text|
    ensures r.Some? ==> from <= r.value <= |text| && pattern <= text[r.value..]
    ensures r.Some? ==> forall j | from <= j < r.value :: !(pattern <= text[j..])
    ensures r.None? ==> forall j | from <= j <= |text| :: !(pattern <= text[j..])
    decreases |text| - from
  {
    if pattern <= text[from..] then Some(from)
    else if from == |text| then None
    else Find(text, pattern, from + 1)
  }

  /** Where the map's `mappings` value starts and ends. */
  function Located(mapText: string): (r: Option<(nat, nat)>)
    ensures r.Some? ==> r.value.0 <= r.value.1 < |mapText| && mapText[r.value.1] == '"'
  {
    match Find(mapText, KEY, 0)
    case None => None
    case Some(key) =>
      assert mapText[key..][..|KEY|] == KEY;
      match Find(mapText, "\"", key + |KEY|)
      case None => None
      case Some(end) =>
        assert mapText[end..][0] == '"';
        Some((key + |KEY|, end))
  }

  /** The shifts of the edits of a declaration text that may start with a mark. */
  function TextShifts(declText: string, edits: seq<TextEdit>): LineShifts {
    ShiftsOf(StripMark(declText).0, edits, StripMark(declText).1)
  }

  /** The mappings of a map text that has them. */
  function MappingsOf(mapText: string): string
    requires Located(mapText).Some?
  {
    mapText[Located(mapText).value.0..Located(mapText).value.1]
  }

  /** What is to be rewritten fits the encoder's words. */
  ghost predicate Rewritable(mapText: string, declText: string, edits: seq<TextEdit>) {
    Located(mapText).Some? && TextShifts(declText, edits) != map[] ==>
      Fits(MappingsOf(mapText), TextShifts(declText, edits), 0, 0, 0)
  }

  /** The map text with its mappings rewritten, when there is anything to rewrite. */
  ghost function ShiftedMap(mapText: string, declText: string, edits: seq<TextEdit>): string
    requires Rewritable(mapText, declText, edits)
  {
    if TextShifts(declText, edits) == map[] || Located(mapText).None? then mapText
    else
      var (start, end) := Located(mapText).value;
      mapText[..start] + Rewrite(mapText[start..end], TextShifts(declText, edits), 0, 0, 0) + mapText[end..]
  }

  /** `shift_declaration_map_columns`: `declText` is the text as emitted, the map's coordinates. */
  method ShiftDeclarationMapColumns(mapText: string, declText: string, edits: seq<TextEdit>) returns (r: string)
    requires Rewritable(mapText, declText, edits)
    ensures r == ShiftedMap(mapText, declText, edits)
  {
    var (text, bom) := StripMark(declText);
    var shifts := DeclarationColumnShifts(text, edits, bom);
    if shifts == map[] {
      return mapText;
    }
    var located := Located(mapText);
    if located.None? {
      return mapText;
    }
    var (start, end) := located.value;
    var shifted := ShiftMappingColumns(mapText[start..end], shifts);
    r := mapText[..start] + shifted + mapText[end..];
  }

  /**
   * The map file after the fixup, read again: its mappings are found, have as many items, and a
   * segment that pointed at a place outside the edits points at that place of the spliced text.
   */
  lemma ShiftedMapPoints(mapText: string, declText: string, edits: seq<TextEdit>, i: nat, p: nat)
    requires Fixable(declText, edits) && Located(mapText).Some? && Rewritable(mapText, declText, edits)
    requires p <= |StripMark(declText).0| && Outside(BodySpans(declText, edits), p)
    requires i < |Read(MappingsOf(mapText), 0, 0).items|
    requires var item := Read(MappingsOf(mapText), 0, 0).items[i];
             item.At? && Position(item.line, item.column) == PositionAt(StripMark(declText).0, p)
    ensures NonOverlapping(BodySpans(declText, edits)) && Located(ShiftedMap(mapText, declText, edits)).Some?
    ensures var (body, spans, spliced) := (StripMark(declText).0, BodySpans(declText, edits), SplicedBody(declText, edits));
            var before := Read(MappingsOf(mapText), 0, 0);
            var after := Read(MappingsOf(ShiftedMap(mapText, declText, edits)), 0, 0);
            var q := NewIndex(body, spans, p);
            |after.items| == |before.items| && after.tail == before.tail && q <= |spliced| &&
            after.items[i] == At(PositionAt(spliced, q).line, PositionAt(spliced, q).column, before.items[i].fields) &&
            (p < |body| && Kept(spans, p) ==> q < |spliced| && spliced[q] == body[p])
  {
    var shifts, mappings := TextShifts(declText, edits), MappingsOf(mapText);
    ShiftsOfCollects(StripMark(declText).0, edits, StripMark(declText).1);
    if shifts == map[] {
      FixupCommutes(declText, edits, shifts, p);
      assert forall line, column :: Moved(shifts, line, column) == column;
    } else {
      MapStillPoints(declText, edits, shifts, mappings, i, p);
      MappingsHoldNoQuote(mapText);
      RewriteAddsNoQuote(mappings, shifts, 0, 0, 0);
      MapRereads(mapText, Rewrite(mappings, shifts, 0, 0, 0));
      RewrittenMappings(mapText, Rewrite(mappings, shifts, 0, 0, 0));
    }
  }

  lemma MappingsHoldNoQuote(mapText: string)
    requires Located(mapText).Some?
    ensures '"' !in MappingsOf(mapText)
  {
    var (start, end) := Located(mapText).value;
    assert Find(mapText, "\"", start) == Some(end) by { LocatedKey(mapText); }
    forall j | 0 <= j < end - start ensures mapText[start..end][j] != '"' {
      assert !("\"" <= mapText[start + j..]);
      assert mapText[start + j..][..1] == [mapText[start + j]];
    }
  }

  lemma RewrittenMappings(mapText: string, mappings: string)
    requires Located(mapText).Some?
    ensures var (start, end) := Located(mapText).value;
            var r := mapText[..start] + mappings + mapText[end..];
            r[start..start + |mappings|] == mappings
  {
  }

  /** The rewrite writes no quote where there was none. */
  lemma {:induction false} RewriteAddsNoQuote(text: string, shifts: LineShifts, line: nat, previous: int, shifted: int)
    requires '"' !in text
    ensures '"' !in Rewrite(text, shifts, line, previous, shifted)
    decreases |text|
  {
    hide Decode, Encode, Moved, SegmentLength;
    if text == [] {
    } else if text[0] == ';' {
      RewriteAddsNoQuote(text[1..], shifts, line + 1, 0, 0);
    } else if text[0] == ',' {
      RewriteAddsNoQuote(text[1..], shifts, line, previous, shifted);
    } else if Decode(text).Some? {
      RewriteSegment(text, shifts, line, previous, shifted);
      var column := previous + Decode(text).value.value;
      var adjusted := Moved(shifts, line, column);
      RewriteAddsNoQuote(text[SegmentLength(text)..], shifts, line, column, adjusted);
      NoQuoteInValue(adjusted - shifted);
      NoQuoteJoined(Encode(adjusted - shifted), text[Decode(text).value.width..SegmentLength(text)],
                    Rewrite(text[SegmentLength(text)..], shifts, line, column, adjusted));
    }
  }

  lemma NoQuoteJoined(a: string, b: string, c: string)
    requires '"' !in a && '"' !in b && '"' !in c
    ensures '"' !in a + b + c
  {
  }

  lemma NoQuoteInValue(value: int)
    ensures '"' !in Encode(value)
  {
    assert DigitOf('"').None?;
  }

  /** Replacing what follows the first `pattern`, up to some later text, leaves it the first. */
  lemma FindStays(before: string, pattern: string, after: string, after': string)
    requires Find(before + pattern + after, pattern, 0) == Some(|before|)
    ensures Find(before + pattern + after', pattern, 0) == Some(|before|)
  {
    hide Find;
    var text, text' := before + pattern + after, before + pattern + after';
    assert text'[|before|..][..|pattern|] == pattern;
    forall j | 0 <= j < |before| ensures !(pattern <= text'[j..]) {
      assert text[j..][..|pattern|] == text'[j..][..|pattern|];
    }
  }

  /** The first quote after `before` is the one that ends `value`. */
  lemma QuoteAfter(before: string, value: string, after: string)
    requires '"' !in value && after != [] && after[0] == '"'
    ensures Find(before + value + after, "\"", |before|) == Some(|before| + |value|)
  {
    var text, end := before + value + after, |before| + |value|;
    assert text[end..] == after;
    forall j | |before| <= j < end ensures !("\"" <= text[j..]) {
      assert text[j..][0] == value[j - |before|];
    }
  }

  /** The rewritten map is read where the original was, as its rewritten mappings. */
  lemma MapRereads(mapText: string, mappings: string)
    requires Located(mapText).Some? && '"' !in mappings
    ensures var start, end := Located(mapText).value.0, Located(mapText).value.1;
            Located(mapText[..start] + mappings + mapText[end..]) == Some((start, start + |mappings|))
  {
    hide Find, Located, KEY;
    var start, end := Located(mapText).value.0, Located(mapText).value.1;
    LocatedKey(mapText);
    Rereads(mapText[..start - |KEY|], mapText[..start], mapText[start..], mappings, mapText[end..]);
  }

  lemma Rereads(before: string, head: string, rest: string, mappings: string, after: string)
    requires head == before + KEY && Find(before + KEY + rest, KEY, 0) == Some(|before|)
    requires '"' !in mappings && after != [] && after[0] == '"'
    ensures Located(head + mappings + after) == Some((|head|, |head| + |mappings|))
  {
    FindStays(before, KEY, rest, mappings + after);
    assert head + (mappings + after) == head + mappings + after;
    QuoteAfter(head, mappings, after);
  }

  /** The key stands right before the value. */
  lemma LocatedKey(mapText: string)
    requires Located(mapText).Some?
    ensures var start := Located(mapText).value.0;
            |KEY| <= start && mapText[..start] == mapText[..start - |KEY|] + KEY &&
            Find(mapText[..start - |KEY|] + KEY + mapText[start..], KEY, 0) == Some(start - |KEY|)
  {
    var start := Located(mapText).value.0;
    assert mapText[start - |KEY|..][..|KEY|] == KEY;
    assert mapText[..start - |KEY|] + KEY + mapText[start..] == mapText;
  }

  predicate HasKey(text: string, j: nat) {
    j + 12 <= |text| && text[j..j + 12] == "\"mappings\":\""
  }

  /** A text with a `mappings` value somewhere. */
  function Around(before: string, value: string, after: string): string {
    before + "\"mappings\":\"" + value + "\"" + after
  }

  /**
   * The value lies between the first `"mappings":"` of the text and the next quote; there is none if no
   * such key is followed by a quote.
   */
  lemma LocatedMeans(mapText: string)
    ensures match Located(mapText)
            case Some((start, end)) =>
              12 <= start <= end < |mapText| && HasKey(mapText, start - 12) &&
              '"' !in mapText[start..end] && mapText[end] == '"' &&
              forall j | 0 <= j < start - 12 :: !HasKey(mapText, j)
            case None => forall a, m, b :: mapText != Around(a, m, b)
  {
    assert |KEY| == 12;
    match Located(mapText)
    case Some((start, end)) =>
      LocatedKey(mapText);
      var key := start - 12;
      assert mapText[key..start] == KEY;
      forall j | 0 <= j < key ensures !HasKey(mapText, j) {
        assert mapText[j..][..12] == mapText[j..j + 12];
      }
      MappingsHoldNoQuote(mapText);
    case None =>
      forall a, m, b ensures mapText != Around(a, m, b) {
        if mapText == Around(a, m, b) {
          FindsWithin(mapText, a, m, b);
        }
      }
  }

  lemma FindsWithin(mapText: string, a: string, m: string, b: string)
    requires mapText == Around(a, m, b)
    ensures Located(mapText).Some?
  {
    assert mapText[|a|..] == KEY + (m + "\"" + b);
    assert KEY <= mapText[|a|..];
    var end := |a + KEY + m|;
    assert mapText[end..] == "\"" + b;
    assert "\"" <= mapText[end..];
  }
}
