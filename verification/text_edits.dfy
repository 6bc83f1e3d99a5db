/**
 * Splices of emitted text (`declpaths.rs`) and the line/column arithmetic of source maps.
 *
 * A text is its sequence of Unicode scalar values. Edits address it by UTF-8 byte offset; source
 * maps address it by line and UTF-16 column.
 */
module TextEdits {
  import opened Common

  // ---- Text and positions ------------------------------------------------------------------

  function Width(c: char): (r: nat)
    ensures 1 <= r <= 4
  {
    var n := c as int;
    if n < 0x80 then 1 else if n < 0x800 then 2 else if n < 0x1_0000 then 3 else 4
  }

  function Utf8Length(s: string): nat {
    if s == [] then 0 else Width(s[0]) + Utf8Length(s[1..])
  }

  function Units(c: char): (r: nat)
    ensures 1 <= r <= 2
  {
    if c as int < 0x1_0000 then 1 else 2
  }

  /** `utf16_length` */
  function Utf16Length(s: string): (r: nat)
    ensures r >= |s|
  {
    if s == [] then 0 else Units(s[0]) + Utf16Length(s[1..])
  }

  /** A line and UTF-16 column, both from 0. */
  datatype Position = Position(line: nat, column: int)

  const START := Position(0, 0)

  function Step(at: Position, c: char): Position {
    if c == '\n' then Position(at.line + 1, 0) else Position(at.line, at.column + Units(c))
  }

  /** The position after reading `s` from `at`. */
  function Run(s: string, at: Position): (r: Position)
    ensures r.line >= at.line
    ensures r.line == at.line ==> r.column >= at.column + |s|
  {
    if s == [] then at else Run(s[1..], Step(at, s[0]))
  }

  /** The position of the character at index `i`. */
  function PositionAt(text: string, i: nat): Position
    requires i <= |text|
  {
    Run(text[..i], START)
  }

  lemma {:induction false} RunConcat(a: string, b: string, at: Position)
    ensures Run(a + b, at) == Run(b, Run(a, at))
  {
    if a == [] {
      assert a + b == b;
    } else {
      assert (a + b)[1..] == a[1..] + b;
      RunConcat(a[1..], b, Step(at, a[0]));
    }
  }

  lemma {:induction false} RunPlain(s: string, at: Position)
    requires '\n' !in s
    ensures Run(s, at) == Position(at.line, at.column + Utf16Length(s))
  {
    if s != [] {
      RunPlain(s[1..], Step(at, s[0]));
    }
  }

  /** Starting `d` columns further ends `d` columns further, unless a line break intervenes. */
  lemma {:induction false} RunFrom(s: string, at: Position, d: int)
    ensures var r := Run(s, at);
            Run(s, at.(column := at.column + d)) ==
            Position(r.line, r.column + if r.line == at.line then d else 0)
  {
    if s != [] {
      var next := Step(at, s[0]);
      RunFrom(s[1..], next, if s[0] == '\n' then 0 else d);
    }
  }

  lemma PositionLater(text: string, i: nat, j: nat)
    requires i <= j <= |text|
    ensures PositionAt(text, j) == Run(text[i..j], PositionAt(text, i))
  {
    assert text[..j] == text[..i] + text[i..j];
    RunConcat(text[..i], text[i..j], START);
  }

  // ---- What widths and positions count -----------------------------------------------------

  /** Where characters from a code on stand. */
  function From(s: string, code: int): set<nat> {
    set i | 0 <= i < |s| && s[i] as int >= code
  }

  lemma FromMore(s: string, code: int)
    requires s != []
    ensures |From(s, code)| == |From(s[1..], code)| + if s[0] as int >= code then 1 else 0
  {
    var rest := From(s[1..], code);
    LaterSize(rest);
    forall i: nat ensures i in From(s, code) <==> i in Later(rest) || (i == 0 && s[0] as int >= code) {
      if 0 < i < |s| {
        assert s[i] == s[1..][i - 1];
      }
    }
    assert From(s, code) == Later(rest) + if s[0] as int >= code then {0} else {};
  }

  function Later(a: set<nat>): (r: set<nat>)
    ensures forall i: nat :: i in r <==> i > 0 && i - 1 in a
  {
    set i | i in a :: i + 1
  }

  lemma {:induction false} LaterSize(a: set<nat>)
    ensures |Later(a)| == |a|
    decreases |a|
  {
    if a == {} {
      assert Later(a) == {};
    } else {
      var i :| i in a;
      LaterSize(a - {i});
      assert Later(a) == Later(a - {i}) + {i + 1};
    }
  }

  /** One unit a character, and another for each beyond the basic plane. */
  lemma {:induction false} Utf16Means(s: string)
    ensures Utf16Length(s) == |s| + |From(s, 0x1_0000)|
  {
    if s != [] {
      Utf16Means(s[1..]);
      FromMore(s, 0x1_0000);
    }
  }

  /** One byte a character, and another from each of U+80, U+800 and U+10000 on. */
  lemma {:induction false} Utf8Means(s: string)
    ensures Utf8Length(s) == |s| + |From(s, 0x80)| + |From(s, 0x800)| + |From(s, 0x1_0000)|
  {
    if s != [] {
      Utf8Means(s[1..]);
      FromMore(s, 0x80);
      FromMore(s, 0x800);
      FromMore(s, 0x1_0000);
    }
  }

  lemma {:induction false} LinesRead(s: string, at: Position)
    ensures Run(s, at).line == at.line + multiset(s)['\n']
  {
    if s != [] {
      LinesRead(s[1..], Step(at, s[0]));
      assert s == [s[0]] + s[1..];
    }
  }

  /**
   * A position is the line breaks before it and the UTF-16 units since the last of them, which ends at
   * `start`.
   */
  lemma PositionMeans(text: string, start: nat, i: nat)
    requires start <= i <= |text| && '\n' !in text[start..i] && (start > 0 ==> text[start - 1] == '\n')
    ensures PositionAt(text, i) ==
            Position(multiset(text[..i])['\n'], i - start + |From(text[start..i], 0x1_0000)|)
  {
    var line := text[start..i];
    LinesRead(text[..i], START);
    PositionLater(text, start, i);
    RunPlain(line, PositionAt(text, start));
    Utf16Means(line);
    if start > 0 {
      PositionLater(text, start - 1, start);
      assert text[start - 1..start] == ['\n'];
      assert ['\n'][1..] == [];
    }
  }

  // ---- Spans: edits by character index -----------------------------------------------------

  /** A half-open range of character indices and its replacement. */
  datatype Span = Span(from: nat, to: nat, text: string)

  predicate InBounds(text: string, spans: seq<Span>) {
    forall i | 0 <= i < |spans| :: spans[i].from <= spans[i].to <= |text|
  }

  predicate NonOverlapping(spans: seq<Span>) {
    forall i, j | 0 <= i < j < |spans| :: spans[i].to <= spans[j].from
  }

  /** Neither an edited range nor its replacement holds a line break. */
  predicate SingleLine(text: string, spans: seq<Span>)
    requires InBounds(text, spans)
  {
    forall i | 0 <= i < |spans| ::
      '\n' !in text[spans[i].from..spans[i].to] && '\n' !in spans[i].text
  }

  function Splice(text: string, spans: seq<Span>, cursor: nat): string
    requires InBounds(text, spans) && cursor <= |text|
    decreases |spans|
  {
    if spans == [] then text[cursor..]
    else
      var span := spans[0];
      if span.from < cursor then Splice(text, spans[1..], cursor)
      else text[cursor..span.from] + span.text + Splice(text, spans[1..], span.to)
  }

  /** `p` is not strictly inside an edited range. */
  predicate Outside(spans: seq<Span>, p: nat) {
    forall i | 0 <= i < |spans| :: p <= spans[i].from || spans[i].to <= p
  }

  /** What the splice makes of `text[cursor..p]`. */
  function SpliceTo(text: string, spans: seq<Span>, cursor: nat, p: nat): string
    requires InBounds(text, spans) && NonOverlapping(spans) && Outside(spans, p)
    requires cursor <= p <= |text|
    requires forall i | 0 <= i < |spans| :: cursor <= spans[i].from
    decreases |spans|
  {
    if spans == [] || p < spans[0].to then text[cursor..p]
    else
      var span := spans[0];
      text[cursor..span.from] + span.text + SpliceTo(text, spans[1..], span.to, p)
  }

  /** The spans that do not end by `p`. */
  function After(spans: seq<Span>, p: nat): (r: seq<Span>)
    ensures |r| <= |spans|
  {
    if spans == [] || p < spans[0].to then spans else After(spans[1..], p)
  }

  /** The splice is the spliced prefix followed by the splice of the rest. */
  lemma {:induction false} SpliceAround(text: string, spans: seq<Span>, cursor: nat, p: nat)
    requires InBounds(text, spans) && NonOverlapping(spans) && Outside(spans, p)
    requires cursor <= p <= |text|
    requires forall i | 0 <= i < |spans| :: cursor <= spans[i].from
    ensures InBounds(text, After(spans, p))
    ensures forall i | 0 <= i < |After(spans, p)| :: p <= After(spans, p)[i].from && After(spans, p)[i] in spans
    ensures Splice(text, spans, cursor) == SpliceTo(text, spans, cursor, p) + Splice(text, After(spans, p), p)
    decreases |spans|
  {
    if spans == [] {
      assert text[cursor..] == text[cursor..p] + text[p..];
    } else if p < spans[0].to {
      SpliceBefore(text, spans, cursor, p);
    } else {
      var span := spans[0];
      SpliceAround(text, spans[1..], span.to, p);
      var middle, rest := SpliceTo(text, spans[1..], span.to, p), Splice(text, After(spans, p), p);
      Regroup(text[cursor..span.from], span.text, middle, rest);
    }
  }

  /** Before its first edit the splice is the text. */
  lemma SpliceBefore(text: string, spans: seq<Span>, cursor: nat, p: nat)
    requires InBounds(text, spans) && spans != [] && cursor <= p <= spans[0].from
    ensures Splice(text, spans, cursor) == text[cursor..p] + Splice(text, spans, p)
  {
    var span := spans[0];
    assert text[cursor..span.from] == text[cursor..p] + text[p..span.from];
    Regroup(text[cursor..p], text[p..span.from], span.text, Splice(text, spans[1..], span.to));
  }

  lemma Regroup(a: string, b: string, c: string, d: string)
    ensures (a + b) + c + d == a + (b + c + d)
    ensures a + b + (c + d) == (a + b + c) + d
  {
  }

  /** One span replaced. */
  function Replaced(text: string, span: Span): string
    requires span.from <= span.to <= |text|
  {
    text[..span.from] + span.text + text[span.to..]
  }

  /** The spans replaced one at a time, the last first, so that the places of the others stay. */
  function OneByOne(text: string, spans: seq<Span>): string
    requires InBounds(text, spans) && NonOverlapping(spans)
    decreases |spans|
  {
    if spans == [] then text
    else
      FrontBound(text, spans);
      OneByOne(Replaced(text, spans[|spans| - 1]), spans[..|spans| - 1])
  }

  lemma FrontBound(text: string, spans: seq<Span>)
    requires spans != [] && InBounds(text, spans) && NonOverlapping(spans)
    ensures var last := spans[|spans| - 1];
            InBounds(Replaced(text, last), spans[..|spans| - 1]) && NonOverlapping(spans[..|spans| - 1])
  {
    var last := spans[|spans| - 1];
    assert |Replaced(text, last)| >= last.from;
  }

  lemma ReplacedFrom(text: string, span: Span, cursor: nat)
    requires cursor <= span.from <= span.to <= |text|
    ensures cursor <= |Replaced(text, span)|
    ensures Replaced(text, span)[cursor..] == text[cursor..span.from] + (span.text + text[span.to..])
  {
    assert Replaced(text, span) == text[..span.from] + (span.text + text[span.to..]);
    assert Replaced(text, span)[cursor..span.from] == text[cursor..span.from];
  }

  lemma {:induction false} SpliceLast(text: string, spans: seq<Span>, cursor: nat)
    requires spans != [] && InBounds(text, spans) && NonOverlapping(spans) && cursor <= spans[0].from
    ensures var last := spans[|spans| - 1];
            InBounds(Replaced(text, last), spans[..|spans| - 1]) && cursor <= |Replaced(text, last)| &&
            Splice(text, spans, cursor) == Splice(Replaced(text, last), spans[..|spans| - 1], cursor)
    decreases |spans|
  {
    FrontBound(text, spans);
    var last, front := spans[|spans| - 1], spans[..|spans| - 1];
    var after := Replaced(text, last);
    if |spans| == 1 {
      assert spans[1..] == [] && front == [];
      ReplacedFrom(text, last, cursor);
    } else {
      var first, rest := spans[0], spans[1..];
      SpliceLast(text, rest, first.to);
      assert rest[|rest| - 1] == last && rest[..|rest| - 1] == front[1..] && front[0] == first;
      assert after[cursor..first.from] == text[cursor..first.from];
    }
  }

  /** The splice is what replacing the spans one at a time makes of the text. */
  lemma {:induction false} SpliceOneByOne(text: string, spans: seq<Span>)
    requires InBounds(text, spans) && NonOverlapping(spans)
    ensures Splice(text, spans, 0) == OneByOne(text, spans)
    decreases |spans|
  {
    if spans == [] {
      assert text[0..] == text;
    } else {
      FrontBound(text, spans);
      SpliceLast(text, spans, 0);
      SpliceOneByOne(Replaced(text, spans[|spans| - 1]), spans[..|spans| - 1]);
    }
  }

  /** UTF-16 units a span adds. */
  function Growth(text: string, span: Span): int
    requires span.from <= span.to <= |text|
  {
    Utf16Length(span.text) - Utf16Length(text[span.from..span.to])
  }

  /** The total growth of the spans ending on `at`'s line, at or before it. */
  function GrowthBefore(text: string, spans: seq<Span>, at: Position): int
    requires InBounds(text, spans)
  {
    if spans == [] then 0
    else
      var end := PositionAt(text, spans[0].to);
      (if end.line == at.line && end.column <= at.column then Growth(text, spans[0]) else 0) +
      GrowthBefore(text, spans[1..], at)
  }

  /** Spans ending after `p` do not move its column. */
  lemma {:induction false} NothingBefore(text: string, spans: seq<Span>, p: nat)
    requires InBounds(text, spans) && p <= |text|
    requires forall i | 0 <= i < |spans| :: p < spans[i].to
    ensures GrowthBefore(text, spans, PositionAt(text, p)) == 0
  {
    if spans != [] {
      PositionLater(text, p, spans[0].to);
      NothingBefore(text, spans[1..], p);
    }
  }

  /**
   * Reading the spliced prefix instead of the original one ends on the same line, and as many
   * columns further as the edits on that line before the position grew it. `d` is how far the
   * columns differ at `cursor`.
   */
  lemma {:induction false} SplicedPosition(text: string, spans: seq<Span>, cursor: nat, p: nat, d: int)
    requires InBounds(text, spans) && NonOverlapping(spans) && SingleLine(text, spans) && Outside(spans, p)
    requires cursor <= p <= |text|
    requires forall i | 0 <= i < |spans| :: cursor <= spans[i].from
    ensures var here, there := PositionAt(text, cursor), PositionAt(text, p);
            Run(SpliceTo(text, spans, cursor, p), here.(column := here.column + d)) ==
            Position(there.line,
                     there.column + (if there.line == here.line then d else 0) + GrowthBefore(text, spans, there))
    decreases |spans|
  {
    var here := PositionAt(text, cursor);
    if spans == [] || p < spans[0].to {
      PositionLater(text, cursor, p);
      RunFrom(text[cursor..p], here, d);
      NothingBefore(text, spans, p);
    } else {
      SplicedPositionPastSpan(text, spans, cursor, p, d);
    }
  }

  lemma {:induction false} SplicedPositionPastSpan(text: string, spans: seq<Span>, cursor: nat, p: nat, d: int)
    requires InBounds(text, spans) && NonOverlapping(spans) && SingleLine(text, spans) && Outside(spans, p)
    requires cursor <= p <= |text|
    requires forall i | 0 <= i < |spans| :: cursor <= spans[i].from
    requires spans != [] && spans[0].to <= p
    ensures var here, there := PositionAt(text, cursor), PositionAt(text, p);
            Run(SpliceTo(text, spans, cursor, p), here.(column := here.column + d)) ==
            Position(there.line,
                     there.column + (if there.line == here.line then d else 0) + GrowthBefore(text, spans, there))
    decreases |spans|, 0
  {
    AfterFirst(text, spans, p);
    hide *;
    var span, rest := spans[0], spans[1..];
    var here, there, end := PositionAt(text, cursor), PositionAt(text, p), PositionAt(text, span.to);
    var d2 := (if end.line == here.line then d else 0) + Growth(text, span);
    RunAcross(text, spans, cursor, p, d);
    SplicedPosition(text, rest, span.to, p, d2);
    Settle(text, spans, cursor, p, d);
  }

  /** Reading the splice past its first edit. */
  lemma RunAcross(text: string, spans: seq<Span>, cursor: nat, p: nat, d: int)
    requires InBounds(text, spans) && NonOverlapping(spans) && SingleLine(text, spans) && Outside(spans, p)
    requires cursor <= p <= |text|
    requires forall i | 0 <= i < |spans| :: cursor <= spans[i].from
    requires spans != [] && spans[0].to <= p
    ensures var here, end := PositionAt(text, cursor), PositionAt(text, spans[0].to);
            var next := end.column + (if end.line == here.line then d else 0) + Growth(text, spans[0]);
            Run(SpliceTo(text, spans, cursor, p), here.(column := here.column + d)) ==
            Run(SpliceTo(text, spans[1..], spans[0].to, p), end.(column := next))
  {
    var here := PositionAt(text, cursor);
    AcrossSpan(text, spans[0], cursor, d);
    SpliceToNext(text, spans, cursor, p);
    RunConcat(text[cursor..spans[0].from] + spans[0].text, SpliceTo(text, spans[1..], spans[0].to, p),
              here.(column := here.column + d));
  }

  lemma SpliceToNext(text: string, spans: seq<Span>, cursor: nat, p: nat)
    requires InBounds(text, spans) && NonOverlapping(spans) && Outside(spans, p)
    requires cursor <= p <= |text|
    requires forall i | 0 <= i < |spans| :: cursor <= spans[i].from
    requires spans != [] && spans[0].to <= p
    ensures SpliceTo(text, spans, cursor, p) ==
            text[cursor..spans[0].from] + spans[0].text + SpliceTo(text, spans[1..], spans[0].to, p)
  {
  }

  /** What is left after the first edit starts past it. */
  lemma AfterFirst(text: string, spans: seq<Span>, p: nat)
    requires spans != [] && InBounds(text, spans) && NonOverlapping(spans) && SingleLine(text, spans) && Outside(spans, p)
    ensures InBounds(text, spans[1..]) && NonOverlapping(spans[1..]) && SingleLine(text, spans[1..]) && Outside(spans[1..], p)
    ensures forall i | 0 <= i < |spans[1..]| :: spans[0].to <= spans[1..][i].from
    ensures '\n' !in text[spans[0].from..spans[0].to] && '\n' !in spans[0].text && spans[0].from <= spans[0].to <= |text|
  {
  }

  /** The bookkeeping of one edit: what it adds now is what `GrowthBefore` counts for it. */
  lemma Settle(text: string, spans: seq<Span>, cursor: nat, p: nat, d: int)
    requires InBounds(text, spans) && spans != []
    requires cursor <= spans[0].to <= p <= |text|
    ensures var here, there, end := PositionAt(text, cursor), PositionAt(text, p), PositionAt(text, spans[0].to);
            var d2 := (if end.line == here.line then d else 0) + Growth(text, spans[0]);
            (if there.line == end.line then d2 else 0) + GrowthBefore(text, spans[1..], there) ==
            (if there.line == here.line then d else 0) + GrowthBefore(text, spans, there)
  {
    PositionLater(text, spans[0].to, p);
    PositionLater(text, cursor, spans[0].to);
  }

  /** Reading up to and across one edit. */
  lemma AcrossSpan(text: string, span: Span, cursor: nat, d: int)
    requires cursor <= span.from <= span.to <= |text|
    requires '\n' !in text[span.from..span.to] && '\n' !in span.text
    ensures var here, end := PositionAt(text, cursor), PositionAt(text, span.to);
            Run(text[cursor..span.from] + span.text, here.(column := here.column + d)) ==
            end.(column := end.column + (if end.line == here.line then d else 0) + Growth(text, span))
  {
    var here := PositionAt(text, cursor);
    var shifted := here.(column := here.column + d);
    var gap := text[cursor..span.from];
    PositionLater(text, cursor, span.from);
    RunFrom(gap, here, d);
    var start := PositionAt(text, span.from);
    var d1 := if start.line == here.line then d else 0;
    PositionLater(text, span.from, span.to);
    RunPlain(text[span.from..span.to], start);
    RunPlain(span.text, start.(column := start.column + d1));
    RunConcat(gap, span.text, shifted);
  }

  /** Where the character at `p` lands in the spliced text. */
  function NewIndex(text: string, spans: seq<Span>, p: nat): nat
    requires InBounds(text, spans) && NonOverlapping(spans) && Outside(spans, p) && p <= |text|
  {
    |SpliceTo(text, spans, 0, p)|
  }

  /** No edit replaces the character at `p`. */
  predicate Kept(spans: seq<Span>, p: nat) {
    forall i | 0 <= i < |spans| :: spans[i].from == p ==> spans[i].to == p
  }

  /**
   * The splice moves the boundary at `p` to `NewIndex`: its line stays, its column grows by the
   * edits before it on its line, and the character at `p`, unless an edit replaces it, is there.
   */
  lemma SpliceMoves(text: string, spans: seq<Span>, p: nat)
    requires InBounds(text, spans) && NonOverlapping(spans) && SingleLine(text, spans) && Outside(spans, p)
    requires p <= |text|
    ensures var spliced, q, at := Splice(text, spans, 0), NewIndex(text, spans, p), PositionAt(text, p);
            q <= |spliced| &&
            PositionAt(spliced, q) == at.(column := at.column + GrowthBefore(text, spans, at)) &&
            (p < |text| && Kept(spans, p) ==> q < |spliced| && spliced[q] == text[p])
  {
    SpliceMovesPosition(text, spans, p);
    SpliceAround(text, spans, 0, p);
    if p < |text| && Kept(spans, p) {
      KeptCharacter(text, spans, p);
    }
  }

  lemma SpliceMovesPosition(text: string, spans: seq<Span>, p: nat)
    requires InBounds(text, spans) && NonOverlapping(spans) && SingleLine(text, spans) && Outside(spans, p)
    requires p <= |text|
    ensures var spliced, q, at := Splice(text, spans, 0), NewIndex(text, spans, p), PositionAt(text, p);
            q <= |spliced| &&
            PositionAt(spliced, q) == at.(column := at.column + GrowthBefore(text, spans, at))
  {
    var spliced, q := Splice(text, spans, 0), NewIndex(text, spans, p);
    SpliceAround(text, spans, 0, p);
    assert spliced[..q] == SpliceTo(text, spans, 0, p);
    SplicedPosition(text, spans, 0, p, 0);
  }

  lemma KeptCharacter(text: string, spans: seq<Span>, p: nat)
    requires InBounds(text, spans) && p < |text| && Kept(spans, p)
    requires var rest := After(spans, p);
             InBounds(text, rest) && forall i | 0 <= i < |rest| :: p <= rest[i].from && rest[i] in spans
    ensures Splice(text, After(spans, p), p) != [] && Splice(text, After(spans, p), p)[0] == text[p]
  {
    var rest := After(spans, p);
    AfterEnds(spans, p);
    if rest != [] {
      assert p < rest[0].from;
      assert text[p..rest[0].from][0] == text[p];
    }
  }

  lemma {:induction false} AfterEnds(spans: seq<Span>, p: nat)
    ensures After(spans, p) != [] ==> p < After(spans, p)[0].to
  {
    if spans != [] && spans[0].to <= p {
      AfterEnds(spans[1..], p);
    }
  }

  // ---- Edits by byte offset ----------------------------------------------------------------

  /** A half-open byte range of a text and its replacement. */
  datatype TextEdit = TextEdit(start: nat, end: nat, text: string)

  /** The index of the character that starts at byte `offset`, if one does (or the text's end). */
  function CharIndex(text: string, offset: nat): (r: Option<nat>)
    ensures r.Some? ==> r.value <= |text|
  {
    if offset == 0 then Some(0)
    else if text == [] || offset < Width(text[0]) then None
    else
      match CharIndex(text[1..], offset - Width(text[0]))
      case None => None
      case Some(i) => Some(i + 1)
  }

  lemma {:induction false} CharIndexMeaning(text: string, offset: nat, i: nat)
    ensures CharIndex(text, offset) == Some(i) <==> i <= |text| && Utf8Length(text[..i]) == offset
  {
    if offset != 0 && text != [] && i != 0 {
      if offset >= Width(text[0]) {
        CharIndexMeaning(text[1..], offset - Width(text[0]), i - 1);
      }
      if i <= |text| {
        assert text[..i][1..] == text[1..][..i - 1];
      }
    }
  }

  /** Byte order is character order. */
  lemma {:induction false} CharIndexOrder(text: string, a: nat, b: nat)
    requires CharIndex(text, a).Some? && CharIndex(text, b).Some?
    ensures a <= b <==> CharIndex(text, a).value <= CharIndex(text, b).value
  {
    if a != 0 && b != 0 {
      CharIndexOrder(text[1..], a - Width(text[0]), b - Width(text[0]));
    }
  }

  predicate OnBoundaries(text: string, edits: seq<TextEdit>) {
    forall i | 0 <= i < |edits| ::
      edits[i].start <= edits[i].end &&
      CharIndex(text, edits[i].start).Some? && CharIndex(text, edits[i].end).Some?
  }

  function SpanOf(text: string, edit: TextEdit): Span
    requires CharIndex(text, edit.start).Some? && CharIndex(text, edit.end).Some?
  {
    Span(CharIndex(text, edit.start).value, CharIndex(text, edit.end).value, edit.text)
  }

  function Spans(text: string, edits: seq<TextEdit>): (r: seq<Span>)
    requires OnBoundaries(text, edits)
    ensures |r| == |edits|
    ensures forall i | 0 <= i < |edits| :: r[i] == SpanOf(text, edits[i])
  {
    seq(|edits|, i requires 0 <= i < |edits| => SpanOf(text, edits[i]))
  }

  lemma SpansInBounds(text: string, edits: seq<TextEdit>)
    requires OnBoundaries(text, edits)
    ensures InBounds(text, Spans(text, edits))
  {
    forall i | 0 <= i < |edits|
      ensures Spans(text, edits)[i].from <= Spans(text, edits)[i].to <= |text|
    {
      CharIndexOrder(text, edits[i].start, edits[i].end);
    }
  }

  /** `apply_text_edits`: splices sorted edits into `text`; one that starts before the cursor is skipped. */
  method ApplyTextEdits(text: string, edits: seq<TextEdit>) returns (builder: string)
    requires OnBoundaries(text, edits)
    ensures InBounds(text, Spans(text, edits))
    ensures builder == Splice(text, Spans(text, edits), 0)
  {
    SpansInBounds(text, edits);
    ghost var spans := Spans(text, edits);
    if edits == [] {
      return text;
    }
    builder := "";
    var cursor := 0;
    var index := 0;
    while index < |edits|
      invariant 0 <= index <= |edits|
      invariant CharIndex(text, cursor).Some?
      invariant builder + Splice(text, spans[index..], CharIndex(text, cursor).value) == Splice(text, spans, 0)
    {
      var edit := edits[index];
      ghost var left := spans[index..];
      CharIndexOrder(text, cursor, edit.start);
      assert left[0] == SpanOf(text, edit) && left[1..] == spans[index + 1..];
      index := index + 1;
      if edit.start >= cursor {
        var from := CharIndex(text, cursor).value;
        var to := CharIndex(text, edit.start).value;
        ghost var rest := Splice(text, left[1..], left[0].to);
        Regroup(builder, text[from..to], edit.text, rest);
        builder := builder + text[from..to] + edit.text;
        cursor := edit.end;
      }
    }
    builder := builder + text[CharIndex(text, cursor).value..];
  }

  // ---- Choosing the edits ------------------------------------------------------------------

  function InsertByStart(edit: TextEdit, sorted: seq<TextEdit>): seq<TextEdit> {
    if sorted == [] || edit.start <= sorted[0].start then [edit] + sorted
    else [sorted[0]] + InsertByStart(edit, sorted[1..])
  }

  /** The stable sort by start. */
  function SortByStart(edits: seq<TextEdit>): seq<TextEdit> {
    if edits == [] then [] else InsertByStart(edits[0], SortByStart(edits[1..]))
  }

  predicate SortedByStart(edits: seq<TextEdit>) {
    forall i, j | 0 <= i < j < |edits| :: edits[i].start <= edits[j].start
  }

  /** The edits starting at `start`, in order. */
  function StartingAt(edits: seq<TextEdit>, start: nat): seq<TextEdit> {
    if edits == [] then []
    else (if edits[0].start == start then [edits[0]] else []) + StartingAt(edits[1..], start)
  }

  lemma {:induction false} InsertByStartSorts(edit: TextEdit, sorted: seq<TextEdit>)
    requires SortedByStart(sorted)
    ensures var r := InsertByStart(edit, sorted);
            SortedByStart(r) && multiset(r) == multiset{edit} + multiset(sorted)
  {
    if sorted != [] && sorted[0].start < edit.start {
      InsertByStartSorts(edit, sorted[1..]);
      assert sorted == [sorted[0]] + sorted[1..];
      LeastFirst(sorted[0], edit, sorted[1..], InsertByStart(edit, sorted[1..]));
    }
  }

  lemma LeastFirst(least: TextEdit, edit: TextEdit, sorted: seq<TextEdit>, rest: seq<TextEdit>)
    requires least.start < edit.start && forall e | e in sorted :: least.start <= e.start
    requires SortedByStart(rest) && multiset(rest) == multiset{edit} + multiset(sorted)
    ensures SortedByStart([least] + rest)
  {
    forall i | 0 <= i < |rest| ensures least.start <= rest[i].start {
      assert rest[i] in multiset(rest);
    }
  }

  lemma {:induction false} InsertByStartIsStable(edit: TextEdit, sorted: seq<TextEdit>, start: nat)
    ensures StartingAt(InsertByStart(edit, sorted), start) == StartingAt([edit] + sorted, start)
  {
    assert ([edit] + sorted)[1..] == sorted;
    if sorted != [] && sorted[0].start < edit.start {
      var rest := InsertByStart(edit, sorted[1..]);
      InsertByStartIsStable(edit, sorted[1..], start);
      assert ([edit] + sorted[1..])[1..] == sorted[1..];
      assert ([sorted[0]] + rest)[1..] == rest;
    }
  }

  /** Sorting orders by start, keeps every edit, and keeps the order of edits with one start. */
  lemma {:induction false} SortByStartSorts(edits: seq<TextEdit>, start: nat)
    ensures SortedByStart(SortByStart(edits))
    ensures multiset(SortByStart(edits)) == multiset(edits)
    ensures StartingAt(SortByStart(edits), start) == StartingAt(edits, start)
  {
    if edits != [] {
      var rest := SortByStart(edits[1..]);
      SortByStartSorts(edits[1..], start);
      InsertByStartSorts(edits[0], rest);
      InsertByStartIsStable(edits[0], rest, start);
      assert edits == [edits[0]] + edits[1..];
      assert ([edits[0]] + rest)[1..] == rest;
    }
  }

  predicate Disjoint(edits: seq<TextEdit>) {
    forall i, j | 0 <= i < j < |edits| :: edits[i].end <= edits[j].start
  }

  /** The kept ones of the first `n`: each that starts inside none kept before it. */
  function Picks(sorted: seq<TextEdit>, n: nat): seq<TextEdit>
    requires n <= |sorted|
  {
    if n == 0 then []
    else
      var kept := Picks(sorted, n - 1);
      if forall e | e in kept :: e.end <= sorted[n - 1].start then kept + [sorted[n - 1]] else kept
  }

  /** The loop: each edit is compared with the last one kept. */
  method PickAll(sorted: seq<TextEdit>) returns (kept: seq<TextEdit>)
    requires forall e | e in sorted :: e.start <= e.end
    ensures kept == Picks(sorted, |sorted|)
  {
    kept := [];
    var index := 0;
    while index < |sorted|
      invariant 0 <= index <= |sorted|
      invariant kept == Picks(sorted, index)
      invariant forall e | e in kept :: e.end <= kept[|kept| - 1].end
    {
      var edit := sorted[index];
      assert kept != [] ==> kept[|kept| - 1] in kept;
      if kept == [] || edit.start >= kept[|kept| - 1].end {
        kept := kept + [edit];
      }
      index := index + 1;
    }
  }

  /** `non_overlapping_text_edits` */
  method NonOverlappingTextEdits(edits: seq<TextEdit>) returns (kept: seq<TextEdit>)
    requires forall e | e in edits :: e.start <= e.end
    ensures kept == Picks(SortByStart(edits), |SortByStart(edits)|)
    ensures SortedByStart(kept) && Disjoint(kept) && forall e | e in kept :: e in edits
    ensures forall e | e in edits && e !in kept :: exists k | k in kept :: k.start <= e.start < k.end
  {
    PicksMean(SortByStart(edits), |SortByStart(edits)|);
    SortByStartSorts(edits, 0);
    SortedMembers(edits);
    if |edits| < 2 {
      PicksOne(edits);
      return edits;
    }
    SortByStartSorts(edits, 0);
    SortedForward(edits, SortByStart(edits));
    PicksDisjoint(SortByStart(edits), |SortByStart(edits)|);
    kept := PickAll(SortByStart(edits));
  }

  /** What is left out starts inside something kept. */
  lemma {:induction false} PicksMean(sorted: seq<TextEdit>, n: nat)
    requires n <= |sorted|
    ensures forall e | e in Picks(sorted, n) :: e in sorted[..n]
    ensures SortedByStart(sorted) ==>
              forall e | e in sorted[..n] && e !in Picks(sorted, n) ::
                exists k | k in Picks(sorted, n) :: k.start <= e.start < k.end
  {
    if n > 0 {
      PicksMean(sorted, n - 1);
      var kept, e := Picks(sorted, n - 1), sorted[n - 1];
      assert sorted[..n] == sorted[..n - 1] + [e];
      if SortedByStart(sorted) && e !in Picks(sorted, n) {
        var k :| k in kept && k.end > e.start;
        assert k in sorted[..n - 1];
      }
    }
  }

  /** What is kept is in order and does not overlap. */
  lemma {:induction false} PicksDisjoint(sorted: seq<TextEdit>, n: nat)
    requires n <= |sorted| && SortedByStart(sorted) && forall e | e in sorted :: e.start <= e.end
    ensures SortedByStart(Picks(sorted, n)) && Disjoint(Picks(sorted, n))
  {
    if n == 0 {
    } else {
      hide SortedByStart, Disjoint;
      var kept, next := Picks(sorted, n - 1), sorted[n - 1];
      PicksDisjoint(sorted, n - 1);
      if forall e | e in kept :: e.end <= next.start {
        PicksInside(sorted, n - 1);
        KeptGrows(kept, next);
      }
    }
  }

  lemma PicksInside(sorted: seq<TextEdit>, n: nat)
    requires n <= |sorted|
    ensures forall e | e in Picks(sorted, n) :: e in sorted
  {
    PicksMean(sorted, n);
    assert forall e | e in sorted[..n] :: e in sorted;
  }

  lemma SortedMembers(edits: seq<TextEdit>)
    requires multiset(SortByStart(edits)) == multiset(edits)
    ensures forall e :: e in SortByStart(edits) <==> e in edits
  {
    var sorted := SortByStart(edits);
    forall e ensures e in sorted <==> e in edits {
      assert e in sorted <==> e in multiset(sorted);
      assert e in edits <==> e in multiset(edits);
    }
    assert sorted[..|sorted|] == sorted;
  }

  lemma PicksOne(edits: seq<TextEdit>)
    requires |edits| < 2
    ensures SortByStart(edits) == edits && Picks(edits, |edits|) == edits
  {
    if |edits| == 1 {
      assert edits[1..] == [] && SortByStart([]) == [];
      assert Picks(edits, 0) == [];
    }
  }

  lemma SortedForward(edits: seq<TextEdit>, sorted: seq<TextEdit>)
    requires multiset(sorted) == multiset(edits) && forall e | e in edits :: e.start <= e.end
    ensures forall e | e in sorted :: e.start <= e.end
  {
    forall e | e in sorted ensures e.start <= e.end {
      assert e in multiset(sorted);
      assert e in edits;
    }
  }

  lemma KeptGrows(kept: seq<TextEdit>, edit: TextEdit)
    requires SortedByStart(kept) && Disjoint(kept)
    requires forall e | e in kept :: e.start <= e.end <= edit.start
    ensures SortedByStart(kept + [edit]) && Disjoint(kept + [edit])
  {
    var r := kept + [edit];
    forall i, j | 0 <= i < j < |r| ensures r[i].end <= r[j].start && r[i].start <= r[j].start {
      if j == |kept| && i < |kept| - 1 {
        assert kept[i].end <= kept[|kept| - 1].start;
      }
      if i < |kept| {
        assert kept[i] in kept;
      }
    }
  }
}
