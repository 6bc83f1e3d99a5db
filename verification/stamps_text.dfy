/**
 * The text of the stamps file (`output_stamps.rs`): one line for each entry, its fields separated by
 * tabs and the key last.
 */
module StampsText {
  import opened Common
  import opened Decimals
  import opened Stamps

  const U64_MAX := 0xFFFF_FFFF_FFFF_FFFF
  const I128_MAX := 0x7FFF_FFFF_FFFF_FFFF_FFFF_FFFF_FFFF_FFFF

  // ---- Lines -------------------------------------------------------------------------------

  /** The index of the first `c`, or the length. */
  function IndexOf(s: string, c: char): (r: nat)
    ensures r <= |s| && c !in s[..r] && (r < |s| ==> s[r] == c)
  {
    if s == [] || s[0] == c then 0 else 1 + IndexOf(s[1..], c)
  }

  lemma {:induction false} IndexAfter(a: string, c: char, b: string)
    requires c !in a
    ensures IndexOf(a + [c] + b, c) == |a|
    ensures (a + [c] + b)[..|a|] == a && (a + [c] + b)[|a| + 1..] == b
  {
    var s := a + [c] + b;
    if a != [] {
      assert s[1..] == a[1..] + [c] + b;
      IndexAfter(a[1..], c, b);
    }
  }

  /** A carriage return right before the line break belongs to it. */
  function Bare(line: string): string {
    if line != [] && line[|line| - 1] == '\r' then line[..|line| - 1] else line
  }

  /** `str::lines` */
  function Lines(text: string): seq<string>
    decreases |text|
  {
    if text == [] then []
    else
      var end := IndexOf(text, '\n');
      if end == |text| then [text] else [Bare(text[..end])] + Lines(text[end + 1..])
  }

  // ---- Fields ------------------------------------------------------------------------------

  /** `splitn(n, '\t')` */
  function Fields(line: string, n: nat): (r: seq<string>)
    requires n > 0
    ensures 1 <= |r| <= n
  {
    var tab := IndexOf(line, '\t');
    if n == 1 || tab == |line| then [line] else [line[..tab]] + Fields(line[tab + 1..], n - 1)
  }

  lemma FieldFirst(field: string, rest: string, n: nat)
    requires '\t' !in field && n > 0
    ensures Fields(field + "\t" + rest, n + 1) == [field] + Fields(rest, n)
  {
    IndexAfter(field, '\t', rest);
  }

  /** A line as `load` reads it. */
  function ParseLine(line: string): Line {
    var fields := Fields(line, 7);
    if |fields| != 7 then Malformed
    else
      var len, mtime, ctime := ParseInt(fields[1], 0, U64_MAX), ParseTime(fields[2]), ParseTime(fields[3]);
      var ino, dev := ParseInt(fields[4], 0, U64_MAX), ParseInt(fields[5], 0, U64_MAX);
      if len.None? || mtime.None? || ctime.None? || ino.None? || dev.None? then Malformed
      else Stamp(fields[6], Entry(FileStamp(len.value, mtime.value, ctime.value, ino.value, dev.value), fields[0]))
  }

  function ParseTime(field: string): Option<int> {
    ParseInt(field, -I128_MAX - 1, I128_MAX)
  }

  /** A line as `persist` writes it. */
  function PrintLine(key: string, entry: Entry): string {
    Tabbed([entry.hash] + Numbers(entry.stamp), key)
  }

  /** An entry whose numbers are of the stamp's types and whose hash is one field. */
  predicate Typed(entry: Entry) {
    entry.stamp.len <= U64_MAX && entry.stamp.ino <= U64_MAX && entry.stamp.dev <= U64_MAX &&
    -I128_MAX - 1 <= entry.stamp.mtime <= I128_MAX && -I128_MAX - 1 <= entry.stamp.ctime <= I128_MAX &&
    '\t' !in entry.hash && '\n' !in entry.hash
  }

  lemma IntTextPlain(n: int)
    ensures '\t' !in IntText(n) && '\n' !in IntText(n)
  {
  }

  /** The texts of a line's numbers. */
  function Numbers(s: FileStamp): seq<string> {
    [IntText(s.len), IntText(s.mtime), IntText(s.ctime), IntText(s.ino), IntText(s.dev)]
  }

  /** Fields joined by tabs in front of the last one. */
  function Tabbed(fields: seq<string>, last: string): string {
    if fields == [] then last else fields[0] + "\t" + Tabbed(fields[1..], last)
  }

  lemma {:induction false} TabbedSplits(fields: seq<string>, last: string)
    requires forall i | 0 <= i < |fields| :: '\t' !in fields[i]
    ensures Fields(Tabbed(fields, last), |fields| + 1) == fields + [last]
  {
    if fields == [] {
      assert Fields(last, 1) == [last];
    } else {
      hide Fields;
      var more := fields[1..];
      TabbedSplits(more, last);
      FieldFirst(fields[0], Tabbed(more, last), |fields|);
      assert [fields[0]] + (more + [last]) == fields + [last];
    }
  }

  lemma FieldsOf(key: string, entry: Entry)
    requires Typed(entry)
    ensures Fields(PrintLine(key, entry), 7) == [entry.hash] + Numbers(entry.stamp) + [key]
  {
    NumbersPlain(entry.stamp);
    hide IntText, Fields;
    TabbedSplits([entry.hash] + Numbers(entry.stamp), key);
  }

  lemma NumbersPlain(s: FileStamp)
    ensures forall i | 0 <= i < |Numbers(s)| :: '\t' !in Numbers(s)[i] && '\n' !in Numbers(s)[i]
  {
    IntTextPlain(s.len);
    IntTextPlain(s.mtime);
    IntTextPlain(s.ctime);
    IntTextPlain(s.ino);
    IntTextPlain(s.dev);
  }

  /** A written line is read as its entry, tabs in the key included. */
  lemma LineParses(key: string, entry: Entry)
    requires Typed(entry)
    ensures ParseLine(PrintLine(key, entry)) == Stamp(key, entry)
  {
    var s := entry.stamp;
    FieldsOf(key, entry);
    IntTextParses(s.len, 0, U64_MAX);
    IntTextParses(s.mtime, -I128_MAX - 1, I128_MAX);
    IntTextParses(s.ctime, -I128_MAX - 1, I128_MAX);
    IntTextParses(s.ino, 0, U64_MAX);
    IntTextParses(s.dev, 0, U64_MAX);
  }

  /** The line, field by field. */
  lemma LineIs(key: string, entry: Entry)
    ensures PrintLine(key, entry) ==
            entry.hash + "\t" + (IntText(entry.stamp.len) + "\t" + (IntText(entry.stamp.mtime) + "\t" +
            (IntText(entry.stamp.ctime) + "\t" + (IntText(entry.stamp.ino) + "\t" + (IntText(entry.stamp.dev) + "\t" + key)))))
  {
    hide IntText;
    var s := entry.stamp;
    var a, b, c, d, e := IntText(s.len), IntText(s.mtime), IntText(s.ctime), IntText(s.ino), IntText(s.dev);
    assert [entry.hash] + [a, b, c, d, e] == [entry.hash, a, b, c, d, e];
    TabbedFirst(entry.hash, [a, b, c, d, e], key);
    TabbedFirst(a, [b, c, d, e], key);
    TabbedFirst(b, [c, d, e], key);
    TabbedFirst(c, [d, e], key);
    TabbedFirst(d, [e], key);
    TabbedFirst(e, [], key);
  }

  lemma TabbedFirst(field: string, fields: seq<string>, last: string)
    ensures Tabbed([field] + fields, last) == field + "\t" + Tabbed(fields, last)
    ensures Tabbed([], last) == last
  {
    assert ([field] + fields)[1..] == fields;
  }

  // ---- The file ----------------------------------------------------------------------------

  function ParseLines(lines: seq<string>): (r: seq<Line>)
    ensures |r| == |lines|
  {
    if lines == [] then [] else [ParseLine(lines[0])] + ParseLines(lines[1..])
  }

  function ParseText(text: string): seq<Line> {
    ParseLines(Lines(text))
  }

  function PrintText(lines: seq<Line>): string
    requires forall i | 0 <= i < |lines| :: lines[i].Stamp?
  {
    if lines == [] then "" else PrintLine(lines[0].key, lines[0].entry) + "\n" + PrintText(lines[1..])
  }

  /** A key that a line of its own can end with. */
  predicate FitsLine(key: string) {
    '\n' !in key && (key != [] ==> key[|key| - 1] != '\r')
  }

  predicate Storable(line: Line) {
    line.Stamp? && Typed(line.entry) && FitsLine(line.key)
  }

  predicate AllStorable(lines: seq<Line>) {
    forall i | 0 <= i < |lines| :: Storable(lines[i])
  }

  lemma {:induction false} TabbedEnds(fields: seq<string>, last: string)
    requires fields != [] && forall i | 0 <= i < |fields| :: '\n' !in fields[i]
    ensures var line := Tabbed(fields, last);
            ('\n' in line <==> '\n' in last) && line != [] && line[|line| - 1] == (if last == [] then '\t' else last[|last| - 1]) &&
            (last != [] ==> Tabbed(fields, last[..|last| - 1]) == line[..|line| - 1])
  {
    var rest := Tabbed(fields[1..], last);
    if |fields| > 1 {
      TabbedEnds(fields[1..], last);
    } else {
      assert fields[1..] == [];
    }
    assert Tabbed(fields, last) == fields[0] + "\t" + rest;
  }

  lemma PrintedEnds(key: string, entry: Entry)
    requires Typed(entry)
    ensures '\n' in PrintLine(key, entry) <==> '\n' in key
    ensures var line := PrintLine(key, entry);
            line != [] && line[|line| - 1] == if key == [] then '\t' else key[|key| - 1]
    ensures key != [] ==> PrintLine(key[..|key| - 1], entry) == PrintLine(key, entry)[..|PrintLine(key, entry)| - 1]
  {
    NumbersPlain(entry.stamp);
    TabbedEnds([entry.hash] + Numbers(entry.stamp), key);
  }

  /** What `persist` writes, `load` reads as the same lines. */
  lemma {:induction false} PrintedParses(lines: seq<Line>)
    requires AllStorable(lines)
    ensures ParseText(PrintText(lines)) == lines
  {
    if lines != [] {
      var key, entry := lines[0].key, lines[0].entry;
      assert Storable(lines[0]);
      var first, rest := PrintLine(key, entry), PrintText(lines[1..]);
      PrintedParses(lines[1..]);
      PrintedEnds(key, entry);
      LineParses(key, entry);
      hide PrintLine, ParseLine;
      LineFirst(first, rest);
      assert lines == [lines[0]] + lines[1..];
    }
  }

  lemma LineFirst(line: string, rest: string)
    requires '\n' !in line
    ensures Lines(line + "\n" + rest) == [Bare(line)] + Lines(rest)
  {
    IndexAfter(line, '\n', rest);
  }

  /** A single entry comes back exactly if its key holds no line break and does not end like one. */
  lemma KeyComesBack(line: Line)
    requires line.Stamp? && Typed(line.entry)
    ensures ParseText(PrintText([line])) == [line] <==> FitsLine(line.key)
  {
    if FitsLine(line.key) {
      PrintedParses([line]);
    } else if '\n' in line.key {
      BrokenKey(line);
    } else {
      ReturnedKey(line);
    }
  }

  lemma BrokenKey(line: Line)
    requires line.Stamp? && Typed(line.entry) && '\n' in line.key
    ensures |ParseText(PrintText([line]))| > 1
  {
    var text := PrintLine(line.key, line.entry);
    assert PrintText([line]) == text + "\n" by {
      assert [line][1..] == [];
    }
    PrintedEnds(line.key, line.entry);
    hide PrintLine;
    var end := IndexOf(text, '\n');
    assert end < |text| by {
      assert text[..|text|] == text;
    }
    var more := text[end + 1..] + "\n";
    assert text + "\n" == text[..end] + "\n" + more;
    LineFirst(text[..end], more);
  }

  lemma ReturnedKey(line: Line)
    requires line.Stamp? && Typed(line.entry) && '\n' !in line.key && line.key != [] && line.key[|line.key| - 1] == '\r'
    ensures ParseText(PrintText([line])) == [Stamp(line.key[..|line.key| - 1], line.entry)]
  {
    var text, shorter := PrintLine(line.key, line.entry), line.key[..|line.key| - 1];
    assert PrintText([line]) == text + "\n" + "" by {
      assert [line][1..] == [];
    }
    PrintedEnds(line.key, line.entry);
    LineFirst(text, "");
    LineParses(shorter, line.entry);
  }

  /** So a stamps file loads as the entries that were persisted, but for the racy ones. */
  lemma TextRoundTrip(lines: seq<Line>, entries: map<string, Entry>, written: int)
    requires LinesOf(lines, entries) && AllStorable(lines)
    ensures Trusted(Some(StampsFile(written, ParseText(PrintText(lines))))) == Settled(entries, written)
  {
    PrintedParses(lines);
    WrittenReads(lines, entries, written);
  }
}
