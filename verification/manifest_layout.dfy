/**
 * The manifest file, character by character: what `to_json` writes, spelled out.
 */
module ManifestLayout {

  import opened Common
  import opened Decimals
  import opened GoJson
  import opened GoJsonIndent
  import opened ManifestJson

  const TABS := Layout("", "\t")

  /** The references, one a line. */
  function RefLines(refs: seq<string>): string
    requires refs != []
  {
    WriteString(refs[0], true) + if |refs| == 1 then "" else ",\n\t\t\t\t" + RefLines(refs[1..])
  }

  /** A field whose value is already laid out. */
  function Named(key: string, text: string): string {
    "\"" + key + "\": " + text
  }

  /** One file: its hash, and its references unless there are none. */
  function FileText(state: FileState): string {
    "{\n\t\t\t" + (Named("hash", WriteString(state.hash, true)) +
                    if state.refs == [] then ""
                    else ",\n\t\t\t" + Named("refs", "[\n\t\t\t\t" + RefLines(state.refs) + "\n\t\t\t]")) + "\n\t\t}"
  }

  function FileLines(files: seq<Entry<FileState>>): string
    requires files != []
  {
    WriteString(files[0].key, true) + ": " + FileText(files[0].value) +
    if |files| == 1 then "" else ",\n\t\t" + FileLines(files[1..])
  }

  function OutputLines(outputs: seq<Entry<string>>): string
    requires outputs != []
  {
    WriteString(outputs[0].key, true) + ": " + WriteString(outputs[0].value, true) +
    if |outputs| == 1 then "" else ",\n\t\t" + OutputLines(outputs[1..])
  }

  function Braced(lines: string): string {
    "{\n\t\t" + lines + "\n\t}"
  }

  /** The whole file. */
  function FileOf(m: Manifest): string {
    "{\n\t" + (Named("version", IntText(m.version)) +
      (",\n\t" + (Named("salt", WriteString(m.salt, true)) +
      (",\n\t" + (Named("files", if m.files == [] then "{}" else Braced(FileLines(m.files))) +
      (",\n\t" + Named("outputs", if m.outputs == [] then "{}" else Braced(OutputLines(m.outputs))))))))) + "\n}\n"
  }

  // ---- Lines -------------------------------------------------------------------------------

  lemma TabLines()
    ensures NewLine(TABS, 0) == "\n" && NewLine(TABS, 1) == "\n\t" && NewLine(TABS, 2) == "\n\t\t"
    ensures NewLine(TABS, 3) == "\n\t\t\t" && NewLine(TABS, 4) == "\n\t\t\t\t"
  {
    NewLineMeans(TABS, 0);
    NewLineMeans(TABS, 1);
    NewLineMeans(TABS, 2);
    NewLineMeans(TABS, 3);
  }

  predicate Letters(text: string) {
    forall c | c in text :: 'a' <= c <= 'z'
  }

  lemma {:induction false} LettersPlain(text: string)
    requires Letters(text)
    ensures WriteString(text, true) == "\"" + text + "\""
  {
    LettersEscape(text);
  }

  lemma {:induction false} LettersEscape(text: string)
    requires Letters(text)
    ensures EscapeText(text, true) == text
  {
    if text != [] {
      assert text[0] in text && forall c | c in text[1..] :: c in text;
      LettersEscape(text[1..]);
      assert EscapeChar(text[0], true) == [text[0]];
      assert text == [text[0]] + text[1..];
    }
  }

  lemma NamesPlain()
    ensures WriteString("version", true) == "\"version\"" && WriteString("salt", true) == "\"salt\""
    ensures WriteString("files", true) == "\"files\"" && WriteString("outputs", true) == "\"outputs\""
    ensures WriteString("hash", true) == "\"hash\"" && WriteString("refs", true) == "\"refs\""
  {
    hide WriteString;
    LettersPlain("version");
    LettersPlain("salt");
    LettersPlain("files");
    LettersPlain("outputs");
    LettersPlain("hash");
    LettersPlain("refs");
  }

  lemma {:induction false} RefsPretty(refs: seq<string>)
    requires refs != []
    ensures PrettyElements(Strings(refs), true, 4, TABS) == RefLines(refs)
    decreases |refs|
  {
    hide WriteString, NewLine;
    TabLines();
    if |refs| > 1 {
      RefsPretty(refs[1..]);
      assert Strings(refs)[1..] == Strings(refs[1..]);
    }
  }

  /** One member, and several. */
  lemma PrettyMembersStep(members: seq<Member>, k: nat)
    requires members != []
    ensures PrettyMembers(members, true, k, TABS) ==
            WriteString(members[0].key, true) + ": " + Pretty(members[0].value, true, k, TABS) +
            if |members| == 1 then "" else "," + NewLine(TABS, k) + PrettyMembers(members[1..], true, k, TABS)
  {
  }

  /** A member with a plain name. */
  lemma NamedPretty(member: Member, k: nat)
    requires WriteString(member.key, true) == "\"" + member.key + "\""
    ensures WriteString(member.key, true) + ": " + Pretty(member.value, true, k, TABS) ==
            Named(member.key, Pretty(member.value, true, k, TABS))
  {
    hide WriteString, Pretty;
    var key, text := member.key, Pretty(member.value, true, k, TABS);
    assert "\"" + key + "\"" + ": " + text == "\"" + key + "\": " + text;
  }

  lemma StatePretty(state: FileState)
    ensures Pretty(Object(FileMembers(state)), true, 2, TABS) == FileText(state)
  {
    hide WriteString, NewLine, PrettyMembers, Pretty, Named;
    TabLines();
    NamesPlain();
    var members := FileMembers(state);
    PrettyMembersStep(members, 3);
    NamedPretty(members[0], 3);
    ContainerPretty(members, [], 2);
    assert Pretty(members[0].value, true, 3, TABS) == WriteString(state.hash, true) by {
      ScalarIs(String(state.hash), 3);
    }
    if state.refs != [] {
      assert members[1..] == [Member("refs", Array(Strings(state.refs)))];
      PrettyMembersStep(members[1..], 3);
      NamedPretty(members[1], 3);
      ContainerPretty([], Strings(state.refs), 3);
      RefsPretty(state.refs);
      Commas(3);
    } else {
      assert Named("hash", WriteString(state.hash, true)) + "" == Named("hash", WriteString(state.hash, true));
    }
    Openings();
  }

  lemma ScalarIs(value: Value, k: nat)
    requires !value.Array? && !value.Object?
    ensures Pretty(value, true, k, TABS) == Write(value, true)
  {
  }

  lemma ContainerPretty(members: seq<Member>, elements: seq<Value>, k: nat)
    ensures Pretty(Object(members), true, k, TABS) ==
            if members == [] then "{}" else "{" + NewLine(TABS, k + 1) + PrettyMembers(members, true, k + 1, TABS) + NewLine(TABS, k) + "}"
    ensures Pretty(Array(elements), true, k, TABS) ==
            if elements == [] then "[]" else "[" + NewLine(TABS, k + 1) + PrettyElements(elements, true, k + 1, TABS) + NewLine(TABS, k) + "]"
  {
  }

  lemma Commas(k: nat)
    requires 1 <= k <= 4
    ensures "," + "\n\t" == ",\n\t" && "," + "\n\t\t\t" == ",\n\t\t\t"
  {
  }

  /** Brackets and the line breaks beside them. */
  lemma Openings()
    ensures "{" + "\n\t" == "{\n\t" && "{" + "\n\t\t\t" == "{\n\t\t\t" && "[" + "\n\t\t\t\t" == "[\n\t\t\t\t"
    ensures forall s: string :: s + "\n\t\t" + "}" == s + "\n\t\t}" && s + "\n\t\t\t" + "]" == s + "\n\t\t\t]"
    ensures forall s: string :: s + "\n" + "}" + "\n" == s + "\n}\n"
  {
    forall s: string ensures s + "\n\t\t" + "}" == s + "\n\t\t}" && s + "\n\t\t\t" + "]" == s + "\n\t\t\t]" {
    }
    forall s: string ensures s + "\n" + "}" + "\n" == s + "\n}\n" {
    }
  }

  lemma {:induction false} FilesPretty(files: seq<Entry<FileState>>)
    requires files != []
    ensures PrettyMembers(FilesValue(files), true, 2, TABS) == FileLines(files)
    decreases |files|
  {
    hide WriteString, NewLine, PrettyMembers, Pretty, FileText;
    TabLines();
    PrettyMembersStep(FilesValue(files), 2);
    StatePretty(files[0].value);
    if |files| > 1 {
      FilesPretty(files[1..]);
      assert FilesValue(files)[1..] == FilesValue(files[1..]);
    }
  }

  lemma {:induction false} OutputsPretty(outputs: seq<Entry<string>>)
    requires outputs != []
    ensures PrettyMembers(OutputsValue(outputs), true, 2, TABS) == OutputLines(outputs)
    decreases |outputs|
  {
    hide WriteString, NewLine, PrettyMembers;
    TabLines();
    PrettyMembersStep(OutputsValue(outputs), 2);
    assert Pretty(String(outputs[0].value), true, 2, TABS) == WriteString(outputs[0].value, true);
    if |outputs| > 1 {
      OutputsPretty(outputs[1..]);
      assert OutputsValue(outputs)[1..] == OutputsValue(outputs[1..]);
    }
  }

  lemma BracedPretty(members: seq<Member>)
    ensures Pretty(Object(members), true, 1, TABS) ==
            if members == [] then "{}" else Braced(PrettyMembers(members, true, 2, TABS))
  {
    hide NewLine, PrettyMembers, Pretty;
    TabLines();
    ContainerPretty(members, [], 1);
    if members != [] {
      var lines := PrettyMembers(members, true, 2, TABS);
      assert "{" + "\n\t\t" + lines + "\n\t" + "}" == "{\n\t\t" + lines + "\n\t}";
    }
  }

  lemma FourPretty(a: Member, b: Member, c: Member, d: Member)
    requires WriteString(a.key, true) == "\"" + a.key + "\"" && WriteString(b.key, true) == "\"" + b.key + "\""
    requires WriteString(c.key, true) == "\"" + c.key + "\"" && WriteString(d.key, true) == "\"" + d.key + "\""
    ensures PrettyMembers([a, b, c, d], true, 1, TABS) ==
            Named(a.key, Pretty(a.value, true, 1, TABS)) + (",\n\t" +
            (Named(b.key, Pretty(b.value, true, 1, TABS)) + (",\n\t" +
            (Named(c.key, Pretty(c.value, true, 1, TABS)) + (",\n\t" +
            Named(d.key, Pretty(d.value, true, 1, TABS)))))))
  {
    hide WriteString, NewLine, PrettyMembers, Pretty, Named;
    TabLines();
    Commas(1);
    assert [a, b, c, d][1..] == [b, c, d] && [b, c, d][1..] == [c, d] && [c, d][1..] == [d];
    PrettyMembersStep([a, b, c, d], 1);
    PrettyMembersStep([b, c, d], 1);
    PrettyMembersStep([c, d], 1);
    PrettyMembersStep([d], 1);
    NamedPretty(a, 1);
    NamedPretty(b, 1);
    NamedPretty(c, 1);
    NamedPretty(d, 1);
    var last := Named(d.key, Pretty(d.value, true, 1, TABS));
    assert last + "" == last;
  }

  lemma TextPretty(m: Manifest)
    requires ManifestJson.Valid(m)
    ensures ManifestText(m) == Pretty(ManifestValue(m), true, 0, TABS) + "\n"
  {
    hide Pretty, Outside, Write, ManifestValue;
    var value := ManifestValue(m);
    ManifestShallow(m);
    WrittenIsPretty(value, true, "", 0, TABS);
    NothingLaid();
  }

  lemma FilesMember(m: Manifest)
    ensures Pretty(Object(FilesValue(m.files)), true, 1, TABS) == if m.files == [] then "{}" else Braced(FileLines(m.files))
    ensures Pretty(Object(OutputsValue(m.outputs)), true, 1, TABS) ==
            if m.outputs == [] then "{}" else Braced(OutputLines(m.outputs))
  {
    hide Pretty, Braced, PrettyMembers;
    BracedPretty(FilesValue(m.files));
    BracedPretty(OutputsValue(m.outputs));
    if m.files != [] {
      FilesPretty(m.files);
    }
    if m.outputs != [] {
      OutputsPretty(m.outputs);
    }
  }

  lemma LeafMembers(m: Manifest)
    ensures Pretty(Number(IntText(m.version)), true, 1, TABS) == IntText(m.version)
    ensures Pretty(String(m.salt), true, 1, TABS) == WriteString(m.salt, true)
  {
    hide IntText, WriteString, Pretty;
    ScalarIs(Number(IntText(m.version)), 1);
    ScalarIs(String(m.salt), 1);
    LeavesAre(IntText(m.version), m.salt);
  }

  /** The manifest's text is this file. */
  lemma TextIs(m: Manifest)
    requires ManifestJson.Valid(m)
    ensures ManifestText(m) == FileOf(m)
  {
    hide WriteString, IntText, NewLine, PrettyMembers, Pretty, ManifestText, Named, Braced, FileLines, OutputLines;
    TextPretty(m);
    var members := ManifestValue(m).members;
    ContainerPretty(members, [], 0);
    TabLines();
    NamesPlain();
    FourPretty(members[0], members[1], members[2], members[3]);
    LeafMembers(m);
    FilesMember(m);
    Openings();
  }

  lemma NothingLaid()
    ensures Outside("", 0, TABS) == ""
    ensures forall s: string {:trigger s + ""} :: s + "" == s
  {
  }

  lemma LeavesAre(number: string, text: string)
    ensures Write(Number(number), true) == number && Write(String(text), true) == WriteString(text, true)
  {
  }
}
