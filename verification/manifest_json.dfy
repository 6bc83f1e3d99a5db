/**
 * The incremental manifest's JSON form (`incremental_manifest.rs`): what one build writes, the next
 * one reads back.
 */
module ManifestJson {
  import opened Common
  import opened Order
  import opened Decimals
  import opened GoJson
  import opened GoJsonIndent
  import opened JsonGrammar
  import Incremental

  // ---- Ordered maps ------------------------------------------------------------------------

  datatype Entry<V> = Entry(key: string, value: V)

  /** An ordered map, as the entries its iteration yields. */
  predicate Ordered<V>(entries: seq<Entry<V>>) {
    forall i, j | 0 <= i < j < |entries| :: TextBefore(entries[i].key, entries[j].key)
  }

  function Insert<V>(entries: seq<Entry<V>>, key: string, value: V): seq<Entry<V>> {
    if entries == [] then [Entry(key, value)]
    else if entries[0].key == key then [Entry(key, value)] + entries[1..]
    else if TextBefore(key, entries[0].key) then [Entry(key, value)] + entries
    else [entries[0]] + Insert(entries[1..], key, value)
  }

  function AsMap<V>(entries: seq<Entry<V>>): map<string, V> {
    if entries == [] then map[] else AsMap(entries[1..])[entries[0].key := entries[0].value]
  }

  /** A key after every other goes last. */
  lemma {:induction false} InsertLast<V>(entries: seq<Entry<V>>, key: string, value: V)
    requires forall i | 0 <= i < |entries| :: TextBefore(entries[i].key, key)
    ensures Insert(entries, key, value) == entries + [Entry(key, value)]
  {
    if entries != [] {
      BeforeTotal(entries[0].key, key);
      InsertLast(entries[1..], key, value);
      assert entries == [entries[0]] + entries[1..];
    }
  }

  // ---- Integers ----------------------------------------------------------------------------

  const I64_MIN := -0x8000_0000_0000_0000
  const I64_MAX := 0x7FFF_FFFF_FFFF_FFFF

  /** `str::parse::<i64>` */
  function ParseI64(s: string): Option<int> {
    ParseInt(s, I64_MIN, I64_MAX)
  }

  /** A written integer is a JSON number and parses as itself. */
  lemma IntTextReads(n: int)
    requires I64_MIN <= n <= I64_MAX
    ensures IsNumber(IntText(n)) && ParseI64(IntText(n)) == Some(n)
  {
    SignedDigits(n);
    IntTextIsNumber(n);
    IntTextParses(n, I64_MIN, I64_MAX);
  }

  lemma IntTextIsNumber(n: int)
    ensures IsNumber(IntText(n))
  {
    var text, digits := IntText(n), NatText(Magnitude(n));
    SignedDigits(n);
    DigitRunOf(digits, |digits|);
    assert IntegerLength(digits) == Some(|digits|);
    assert text[|text|..] == [];
    assert LengthFromFraction(text, |text|) == Some(|text|);
  }

  // ---- The manifest and its value ----------------------------------------------------------

  type FileState = Incremental.FileState

  /** The manifest as it is stored; its files are the graph that selection reads. */
  datatype Manifest = Manifest(version: int, salt: string, files: seq<Entry<FileState>>, outputs: seq<Entry<string>>)

  predicate Valid(m: Manifest) {
    I64_MIN <= m.version <= I64_MAX && Ordered(m.files) && Ordered(m.outputs)
  }

  function Strings(texts: seq<string>): (r: seq<Value>)
    ensures |r| == |texts|
    ensures forall i | 0 <= i < |texts| :: r[i] == String(texts[i])
  {
    seq(|texts|, i requires 0 <= i < |texts| => String(texts[i]))
  }

  /** One file: its hash, and its references unless there are none. */
  function FileMembers(state: FileState): seq<Member> {
    [Member("hash", String(state.hash))] +
    if state.refs == [] then [] else [Member("refs", Array(Strings(state.refs)))]
  }

  function FilesValue(files: seq<Entry<FileState>>): (r: seq<Member>)
    ensures |r| == |files|
    ensures forall i | 0 <= i < |files| :: r[i] == Member(files[i].key, Object(FileMembers(files[i].value)))
  {
    seq(|files|, i requires 0 <= i < |files| => Member(files[i].key, Object(FileMembers(files[i].value))))
  }

  function OutputsValue(outputs: seq<Entry<string>>): (r: seq<Member>)
    ensures |r| == |outputs|
    ensures forall i | 0 <= i < |outputs| :: r[i] == Member(outputs[i].key, String(outputs[i].value))
  {
    seq(|outputs|, i requires 0 <= i < |outputs| => Member(outputs[i].key, String(outputs[i].value)))
  }

  function ManifestValue(m: Manifest): Value {
    Object([Member("version", Number(IntText(m.version))),
            Member("salt", String(m.salt)),
            Member("files", Object(FilesValue(m.files))),
            Member("outputs", Object(OutputsValue(m.outputs)))])
  }

  /** The manifest file's text: the value, indented with tabs, and a line break. */
  function ManifestText(m: Manifest): string {
    Outside(Write(ManifestValue(m), true), 0, Layout("", "\t")) + "\n"
  }

  // ---- Reading a manifest ------------------------------------------------------------------

  function LowerChar(c: char): char {
    if 'A' <= c <= 'Z' then (c as int + 32) as char else c
  }

  /** Only ASCII letters have a lower case. */
  lemma LowerMeans(i: nat, c: char)
    requires i < 26 && (c < 'A' || 'Z' < c)
    ensures LowerChar("ABCDEFGHIJKLMNOPQRSTUVWXYZ"[i]) == "abcdefghijklmnopqrstuvwxyz"[i] && LowerChar(c) == c
  {
  }

  predicate SameIgnoringCase(a: string, b: string) {
    |a| == |b| && forall i | 0 <= i < |a| :: LowerChar(a[i]) == LowerChar(b[i])
  }

  function LastExact(members: seq<Member>, key: string): (r: Option<Value>)
    ensures match r
            case Some(value) => exists i | 0 <= i < |members| ::
              members[i] == Member(key, value) && forall j | i < j < |members| :: members[j].key != key
            case None => forall i | 0 <= i < |members| :: members[i].key != key
  {
    if members == [] then None
    else
      var last := members[|members| - 1];
      if last.key == key then Some(last.value) else LastExact(members[..|members| - 1], key)
  }

  function LastIgnoringCase(members: seq<Member>, key: string): (r: Option<Value>)
    ensures match r
            case Some(value) => exists i | 0 <= i < |members| ::
              members[i].value == value && SameIgnoringCase(members[i].key, key) &&
              forall j | i < j < |members| :: !SameIgnoringCase(members[j].key, key)
            case None => forall i | 0 <= i < |members| :: !SameIgnoringCase(members[i].key, key)
  {
    if members == [] then None
    else
      var last := members[|members| - 1];
      if SameIgnoringCase(last.key, key) then Some(last.value)
      else LastIgnoringCase(members[..|members| - 1], key)
  }

  /** `Value::field`: the last member of that exact name, else the last of it in another case. */
  function Field(value: Value, key: string): Option<Value> {
    if !value.Object? then None
    else
      match LastExact(value.members, key)
      case Some(found) => Some(found)
      case None => LastIgnoringCase(value.members, key)
  }

  function FieldOrNull(value: Value, key: string): Value {
    match Field(value, key) case None => Null case Some(found) => found
  }

  function ReadVersion(value: Value): Option<int> {
    match FieldOrNull(value, "version")
    case Number(text) => ParseI64(text)
    case Null => Some(0)
    case _ => None
  }

  function ReadText(value: Value, key: string): Option<string> {
    match FieldOrNull(value, key)
    case String(text) => Some(text)
    case Null => Some("")
    case _ => None
  }

  function Texts(elements: seq<Value>): (r: Option<seq<string>>)
    ensures r.Some? <==> forall e | e in elements :: e.String?
    ensures r.Some? ==> Strings(r.value) == elements
  {
    if elements == [] then Some([])
    else if !elements[0].String? then
      assert elements[0] in elements;
      None
    else
      assert elements == [elements[0]] + elements[1..];
      match Texts(elements[1..])
      case None => None
      case Some(more) => Some([elements[0].text] + more)
  }

  function ReadFile(value: Value): Option<FileState> {
    var refs :=
      match FieldOrNull(value, "refs")
      case Null => Some([])
      case Array(elements) => Texts(elements)
      case _ => None;
    match (refs, ReadText(value, "hash"))
    case (Some(refs), Some(hash)) => Some(Incremental.FileState(hash, refs))
    case _ => None
  }

  /** The files of the first `n` members, inserted in order. */
  function ReadFiles(members: seq<Member>, n: nat): Option<seq<Entry<FileState>>>
    requires n <= |members|
  {
    if n == 0 then Some([])
    else
      match (ReadFiles(members, n - 1), ReadFile(members[n - 1].value))
      case (Some(files), Some(state)) => Some(Insert(files, members[n - 1].key, state))
      case _ => None
  }

  function ReadOutputs(members: seq<Member>, n: nat): Option<seq<Entry<string>>>
    requires n <= |members|
  {
    if n == 0 then Some([])
    else
      match (ReadOutputs(members, n - 1), members[n - 1].value)
      case (Some(outputs), String(hash)) => Some(Insert(outputs, members[n - 1].key, hash))
      case _ => None
  }

  function MembersOrNone(value: Value, key: string): Option<seq<Member>> {
    match FieldOrNull(value, key)
    case Null => Some([])
    case Object(members) => Some(members)
    case _ => None
  }

  function FromValue(value: Value): Option<Manifest> {
    if !value.Object? then None
    else
      match (ReadVersion(value), ReadText(value, "salt"), MembersOrNone(value, "files"), MembersOrNone(value, "outputs"))
      case (Some(version), Some(salt), Some(files), Some(outputs)) =>
        (match (ReadFiles(files, |files|), ReadOutputs(outputs, |outputs|))
         case (Some(files), Some(outputs)) => Some(Manifest(version, salt, files, outputs))
         case _ => None)
      case _ => None
  }

  function FromText(text: string): Option<Manifest> {
    match Parse(text) case None => None case Some(value) => FromValue(value)
  }

  // ---- What reading makes of any text ------------------------------------------------------

  /** The member is missing or null. */
  predicate Absent(value: Value, key: string) {
    Field(value, key) == None || Field(value, key) == Some(Null)
  }

  /** A file's state: its hash and references, both of which may be missing. */
  ghost predicate StateIs(value: Value, state: FileState) {
    (if Absent(value, "hash") then state.hash == "" else Field(value, "hash") == Some(String(state.hash))) &&
    (if Absent(value, "refs") then state.refs == [] else Field(value, "refs") == Some(Array(Strings(state.refs))))
  }

  predicate LastNamed(members: seq<Member>, i: nat)
    requires i < |members|
  {
    forall j | i < j < |members| :: members[j].key != members[i].key
  }

  /** For each name the entry of the last member so named, and no others. */
  ghost predicate FilesAre(members: seq<Member>, files: map<string, FileState>) {
    (forall name :: name in files <==> exists i | 0 <= i < |members| :: members[i].key == name) &&
    forall i | 0 <= i < |members| && LastNamed(members, i) ::
      StateIs(members[i].value, files[members[i].key])
  }

  ghost predicate OutputsAre(members: seq<Member>, outputs: map<string, string>) {
    (forall name :: name in outputs <==> exists i | 0 <= i < |members| :: members[i].key == name) &&
    forall i | 0 <= i < |members| && LastNamed(members, i) ::
      members[i].value == String(outputs[members[i].key])
  }

  lemma AfterInsert<V>(entry: Entry<V>, entries: seq<Entry<V>>, key: string, value: V)
    requires Ordered([entry] + entries) && TextBefore(entry.key, key)
    requires Ordered(Insert(entries, key, value)) && AsMap(Insert(entries, key, value)) == AsMap(entries)[key := value]
    ensures Ordered([entry] + Insert(entries, key, value))
  {
    var more := Insert(entries, key, value);
    forall i | 0 <= i < |more| ensures TextBefore(entry.key, more[i].key) {
      KeysOfMap(more, i);
      if more[i].key != key {
        KeyInMap(entries, more[i].key);
        var j :| 0 <= j < |entries| && entries[j].key == more[i].key;
        assert ([entry] + entries)[0] == entry && ([entry] + entries)[j + 1] == entries[j];
      }
    }
  }

  lemma {:induction false} KeysOfMap<V>(entries: seq<Entry<V>>, i: nat)
    requires i < |entries|
    ensures entries[i].key in AsMap(entries)
  {
    if i > 0 {
      KeysOfMap(entries[1..], i - 1);
    }
  }

  lemma {:induction false} KeyInMap<V>(entries: seq<Entry<V>>, key: string)
    requires key in AsMap(entries)
    ensures exists j | 0 <= j < |entries| :: entries[j].key == key
  {
    if entries[0].key != key {
      KeyInMap(entries[1..], key);
      var j :| 0 <= j < |entries| - 1 && entries[1..][j].key == key;
      assert entries[j + 1].key == key;
    }
  }

  /** Inserting keeps the order and is a map's update. */
  lemma {:induction false} InsertMeans<V>(entries: seq<Entry<V>>, key: string, value: V)
    requires Ordered(entries)
    ensures Ordered(Insert(entries, key, value)) && AsMap(Insert(entries, key, value)) == AsMap(entries)[key := value]
  {
    var added := Entry(key, value);
    if entries == [] {
    } else {
      var first, rest := entries[0], entries[1..];
      assert entries == [first] + rest;
      BeforeTotal(key, first.key);
      if first.key == key {
        assert ([added] + rest)[1..] == rest;
      } else if TextBefore(key, first.key) {
        FirstBefore(added, entries);
        assert ([added] + entries)[1..] == entries;
      } else {
        InsertMeans(rest, key, value);
        AfterInsert(first, rest, key, value);
        assert ([first] + Insert(rest, key, value))[1..] == Insert(rest, key, value);
      }
    }
  }

  lemma FirstBefore<V>(added: Entry<V>, entries: seq<Entry<V>>)
    requires Ordered(entries) && entries != [] && TextBefore(added.key, entries[0].key)
    ensures Ordered([added] + entries)
  {
    forall i | 0 <= i < |entries| ensures TextBefore(added.key, entries[i].key) {
      if i > 0 {
        BeforeTransitive(added.key, entries[0].key, entries[i].key);
      }
    }
  }

  lemma StateRead(value: Value)
    ensures ReadFile(value).Some? ==> StateIs(value, ReadFile(value).value)
    ensures ReadFile(value).None? ==> forall state :: !StateIs(value, state)
  {
    if ReadFile(value).None? {
      forall state ensures !StateIs(value, state) {
        if StateIs(value, state) && !Absent(value, "refs") {
          TextsOfStrings(state.refs);
        }
      }
    }
  }

  lemma {:induction false} FilesReadAre(members: seq<Member>, n: nat)
    requires n <= |members| && ReadFiles(members, n).Some?
    ensures Ordered(ReadFiles(members, n).value) && FilesAre(members[..n], AsMap(ReadFiles(members, n).value))
  {
    hide ReadFile, Insert, StateIs, FilesAre;
    if n == 0 {
      NoFiles(members[..0]);
    } else {
      FilesReadAre(members, n - 1);
      var member := members[n - 1];
      var before, state := ReadFiles(members, n - 1).value, ReadFile(member.value).value;
      InsertMeans(before, member.key, state);
      StateRead(member.value);
      FilesMore(members[..n - 1], member, AsMap(before), state);
      assert members[..n] == members[..n - 1] + [member];
    }
  }

  lemma NoFiles(members: seq<Member>)
    requires members == []
    ensures FilesAre(members, map[]) && OutputsAre(members, map[])
  {
  }

  lemma FilesMore(members: seq<Member>, member: Member, files: map<string, FileState>, state: FileState)
    requires FilesAre(members, files) && StateIs(member.value, state)
    ensures FilesAre(members + [member], files[member.key := state])
  {
    hide StateIs;
    var more := members + [member];
    var after := files[member.key := state];
    forall name ensures name in after <==> exists i | 0 <= i < |more| :: more[i].key == name {
      if i :| 0 <= i < |members| && members[i].key == name {
        assert more[i] == members[i];
      }
      assert more[|members|] == member;
    }
    forall i | 0 <= i < |more| && LastNamed(more, i)
      ensures StateIs(more[i].value, after[more[i].key])
    {
      if i < |members| {
        assert more[|members|].key != more[i].key;
        forall j | i < j < |members| ensures members[j].key != members[i].key {
          assert more[j].key != more[i].key;
        }
      }
    }
  }

  lemma {:induction false} OutputsReadAre(members: seq<Member>, n: nat)
    requires n <= |members| && ReadOutputs(members, n).Some?
    ensures Ordered(ReadOutputs(members, n).value) && OutputsAre(members[..n], AsMap(ReadOutputs(members, n).value))
  {
    hide Insert, OutputsAre;
    if n == 0 {
      NoFiles(members[..0]);
    } else {
      OutputsReadAre(members, n - 1);
      var member := members[n - 1];
      var before := ReadOutputs(members, n - 1).value;
      InsertMeans(before, member.key, member.value.text);
      OutputsMore(members[..n - 1], member, AsMap(before), member.value.text);
      assert members[..n] == members[..n - 1] + [member];
    }
  }

  lemma OutputsMore(members: seq<Member>, member: Member, outputs: map<string, string>, text: string)
    requires OutputsAre(members, outputs) && member.value == String(text)
    ensures OutputsAre(members + [member], outputs[member.key := text])
  {
    var more := members + [member];
    var after := outputs[member.key := text];
    forall name ensures name in after <==> exists i | 0 <= i < |more| :: more[i].key == name {
      if i :| 0 <= i < |members| && members[i].key == name {
        assert more[i] == members[i];
      }
      assert more[|members|] == member;
    }
    forall i | 0 <= i < |more| && LastNamed(more, i)
      ensures more[i].value == String(after[more[i].key])
    {
      if i < |members| {
        assert more[|members|].key != more[i].key;
        forall j | i < j < |members| ensures members[j].key != members[i].key {
          assert more[j].key != more[i].key;
        }
      }
    }
  }

  /** What a value read as a manifest must say of it. */
  ghost predicate ManifestIs(value: Value, m: Manifest) {
    value.Object? && Ordered(m.files) && Ordered(m.outputs) &&
    (if Absent(value, "version") then m.version == 0
     else exists text :: Field(value, "version") == Some(Number(text)) && ParseI64(text) == Some(m.version)) &&
    (if Absent(value, "salt") then m.salt == "" else Field(value, "salt") == Some(String(m.salt))) &&
    (if Absent(value, "files") then m.files == []
     else exists members :: Field(value, "files") == Some(Object(members)) && FilesAre(members, AsMap(m.files))) &&
    (if Absent(value, "outputs") then m.outputs == []
     else exists members :: Field(value, "outputs") == Some(Object(members)) && OutputsAre(members, AsMap(m.outputs)))
  }

  /**
   * What is read from a text is what its value says: missing or null members are empty, of members with
   * one name the last counts, and nothing else may stand there.
   */
  lemma ReadMeans(data: string)
    requires FromText(data).Some?
    ensures exists value :: Parse(data) == Some(value) && ManifestIs(value, FromText(data).value)
  {
    hide Field, ParseI64, Parse, ReadFiles, ReadOutputs, FilesAre, OutputsAre, ManifestIs;
    ValueMeans(Parse(data).value);
  }

  lemma ValueMeans(value: Value)
    requires FromValue(value).Some?
    ensures ManifestIs(value, FromValue(value).value)
  {
    hide Field, ParseI64, ReadFiles, ReadOutputs, FilesAre, OutputsAre;
    var files, outputs := MembersOrNone(value, "files").value, MembersOrNone(value, "outputs").value;
    FilesReadAre(files, |files|);
    OutputsReadAre(outputs, |outputs|);
    assert files[..|files|] == files && outputs[..|outputs|] == outputs;
    NothingRead(files, outputs);
  }

  lemma NothingRead(files: seq<Member>, outputs: seq<Member>)
    ensures files == [] ==> ReadFiles(files, |files|) == Some([])
    ensures outputs == [] ==> ReadOutputs(outputs, |outputs|) == Some([])
  {
  }

  // ---- The round trip ----------------------------------------------------------------------

  predicate Shallow(value: Value, h: nat) {
    Writable(value) && Height(value) <= h
  }

  lemma ObjectShallow(members: seq<Member>, h: nat)
    requires forall m | m in members :: Shallow(m.value, h)
    ensures Shallow(Object(members), h + 1)
  {
    HeightsWithin(members, h);
  }

  lemma FilesShallow(files: seq<Entry<FileState>>)
    ensures Shallow(Object(FilesValue(files)), 3)
  {
    forall f | f in FilesValue(files) ensures Shallow(f.value, 2) {
      var i :| 0 <= i < |files| && FilesValue(files)[i] == f;
      FileShallow(files[i].value);
    }
    ObjectShallow(FilesValue(files), 2);
  }

  lemma ManifestShallow(m: Manifest)
    requires Valid(m)
    ensures Shallow(ManifestValue(m), 4)
  {
    IntTextReads(m.version);
    FilesShallow(m.files);
    ObjectShallow(OutputsValue(m.outputs), 0);
    ObjectShallow(ManifestValue(m).members, 3);
  }

  lemma FileShallow(state: FileState)
    ensures Shallow(Object(FileMembers(state)), 2)
  {
    var refs := Strings(state.refs);
    forall e | e in refs ensures Height(e) == 0 {
      var i :| 0 <= i < |state.refs| && refs[i] == e;
      assert e.String?;
    }
    ElementHeights(refs);
    assert forall e | e in refs :: Writable(e);
    assert Shallow(Array(refs), 1);
    ObjectShallow(FileMembers(state), 1);
  }

  lemma {:induction false} ElementHeights(elements: seq<Value>)
    requires forall e | e in elements :: Height(e) == 0
    ensures HeightOfElements(elements) == 0
  {
    if elements != [] { ElementHeights(elements[1..]); }
  }

  lemma {:induction false} HeightsWithin(members: seq<Member>, h: nat)
    requires forall m | m in members :: Height(m.value) <= h
    ensures HeightOfMembers(members) <= h
  {
    if members != [] { HeightsWithin(members[1..], h); }
  }

  /** The only member of its name, whatever the others are called. */
  lemma {:induction false} LastExactAt(members: seq<Member>, i: nat, key: string)
    requires i < |members| && members[i].key == key
    requires forall j | i < j < |members| :: members[j].key != key
    ensures LastExact(members, key) == Some(members[i].value)
  {
    if i < |members| - 1 {
      LastExactAt(members[..|members| - 1], i, key);
    }
  }

  lemma FileReads(state: FileState)
    ensures ReadFile(Object(FileMembers(state))) == Some(state)
  {
    var members := FileMembers(state);
    assert "refs"[0] != "hash"[0];
    LastExactAt(members, 0, "hash");
    if state.refs == [] {
      NotRefs(state.hash);
    } else {
      LastExactAt(members, 1, "refs");
      TextsOfStrings(state.refs);
    }
  }

  lemma NotRefs(hash: string)
    ensures Field(Object([Member("hash", String(hash))]), "refs") == None
  {
    var members := [Member("hash", String(hash))];
    assert "hash"[0] == 'h' && "refs"[0] == 'r';
    assert !SameIgnoringCase("hash", "refs") by {
      assert LowerChar("hash"[0]) != LowerChar("refs"[0]);
    }
    assert members[|members| - 1].key == "hash" && members[..|members| - 1] == [];
    assert LastExact(members, "refs") == LastExact([], "refs");
    assert LastIgnoringCase(members, "refs") == LastIgnoringCase([], "refs");
  }

  lemma TextsOfStrings(refs: seq<string>)
    ensures Texts(Strings(refs)) == Some(refs)
  {
    forall e | e in Strings(refs) ensures e.String? {
      var i :| 0 <= i < |refs| && Strings(refs)[i] == e;
    }
    var texts := Texts(Strings(refs)).value;
    assert |Strings(texts)| == |texts|;
    forall i | 0 <= i < |refs| ensures texts[i] == refs[i] {
      assert Strings(texts)[i] == Strings(refs)[i];
    }
    assert texts == refs;
  }

  lemma {:induction false} FilesRead(files: seq<Entry<FileState>>, n: nat)
    requires Ordered(files) && n <= |files|
    ensures ReadFiles(FilesValue(files), n) == Some(files[..n])
  {
    hide ReadFile, Insert;
    if n > 0 {
      FilesRead(files, n - 1);
      NextFile(files, n);
    } else {
      assert files[..0] == [];
    }
  }

  lemma NextFile(files: seq<Entry<FileState>>, n: nat)
    requires Ordered(files) && 0 < n <= |files|
    requires ReadFiles(FilesValue(files), n - 1) == Some(files[..n - 1])
    ensures ReadFiles(FilesValue(files), n) == Some(files[..n])
  {
    hide ReadFiles, ReadFile, TextBefore;
    FileReads(files[n - 1].value);
    InsertNext(FilesValue(files), files[..n - 1], n, files[n - 1]);
    assert files[..n - 1] + [files[n - 1]] == files[..n];
  }

  lemma InsertNext(members: seq<Member>, files: seq<Entry<FileState>>, n: nat, entry: Entry<FileState>)
    requires 0 < n <= |members| && ReadFiles(members, n - 1) == Some(files)
    requires ReadFile(members[n - 1].value) == Some(entry.value) && members[n - 1].key == entry.key
    requires forall i | 0 <= i < |files| :: TextBefore(files[i].key, entry.key)
    ensures ReadFiles(members, n) == Some(files + [entry])
  {
    InsertLast(files, entry.key, entry.value);
  }

  lemma NextOutput(outputs: seq<Entry<string>>, n: nat)
    requires Ordered(outputs) && 0 < n <= |outputs|
    requires ReadOutputs(OutputsValue(outputs), n - 1) == Some(outputs[..n - 1])
    ensures ReadOutputs(OutputsValue(outputs), n) == Some(outputs[..n])
  {
    InsertLast(outputs[..n - 1], outputs[n - 1].key, outputs[n - 1].value);
    assert outputs[..n - 1] + [outputs[n - 1]] == outputs[..n];
  }

  lemma {:induction false} OutputsRead(outputs: seq<Entry<string>>, n: nat)
    requires Ordered(outputs) && n <= |outputs|
    ensures ReadOutputs(OutputsValue(outputs), n) == Some(outputs[..n])
  {
    if n > 0 {
      OutputsRead(outputs, n - 1);
      NextOutput(outputs, n);
    } else {
      assert outputs[..0] == [];
    }
  }

  lemma ValueReads(m: Manifest)
    requires Valid(m)
    ensures FromValue(ManifestValue(m)) == Some(m)
  {
    IntTextReads(m.version);
    FilesRead(m.files, |m.files|);
    OutputsRead(m.outputs, |m.outputs|);
    assert m.files[..|m.files|] == m.files && m.outputs[..|m.outputs|] == m.outputs;
    TopReads(m);
    var value := ManifestValue(m);
    FieldsRead(value, m, FilesValue(m.files), OutputsValue(m.outputs));
  }

  /** The four fields of a manifest's value. */
  lemma TopReads(m: Manifest)
    requires ParseI64(IntText(m.version)) == Some(m.version)
    ensures var value := ManifestValue(m);
            ReadVersion(value) == Some(m.version) && ReadText(value, "salt") == Some(m.salt) &&
            MembersOrNone(value, "files") == Some(FilesValue(m.files)) &&
            MembersOrNone(value, "outputs") == Some(OutputsValue(m.outputs))
  {
    TopFields(ManifestValue(m).members);
  }

  lemma FieldsRead(value: Value, m: Manifest, files: seq<Member>, outputs: seq<Member>)
    requires value.Object? && ReadVersion(value) == Some(m.version) && ReadText(value, "salt") == Some(m.salt)
    requires MembersOrNone(value, "files") == Some(files) && MembersOrNone(value, "outputs") == Some(outputs)
    requires ReadFiles(files, |files|) == Some(m.files) && ReadOutputs(outputs, |outputs|) == Some(m.outputs)
    ensures FromValue(value) == Some(m)
  {
  }

  lemma TopFields(members: seq<Member>)
    requires |members| == 4
    requires members[0].key == "version" && members[1].key == "salt"
    requires members[2].key == "files" && members[3].key == "outputs"
    ensures var value := Object(members);
            FieldOrNull(value, "version") == members[0].value && FieldOrNull(value, "salt") == members[1].value &&
            FieldOrNull(value, "files") == members[2].value && FieldOrNull(value, "outputs") == members[3].value
  {
    assert "version"[0] != "salt"[0] && "version"[0] != "files"[0] && "version"[0] != "outputs"[0];
    assert "salt"[0] != "files"[0] && "salt"[0] != "outputs"[0] && "files"[0] != "outputs"[0];
    LastExactAt(members, 0, "version");
    LastExactAt(members, 1, "salt");
    LastExactAt(members, 2, "files");
    LastExactAt(members, 3, "outputs");
  }

  /** Every manifest, written and read again, is the same manifest. */
  lemma ManifestRoundTrip(m: Manifest)
    requires Valid(m)
    ensures FromText(ManifestText(m)) == Some(m)
  {
    var value := ManifestValue(m);
    var compact := Write(value, true);
    ManifestShallow(m);
    WrittenReads(value, true, "\n", 0);
    assert SkipSpace("\n") == [];
    ParseIndented(compact + "\n", Layout("", "\t"));
    OutsideLine(compact, 0, Layout("", "\t"));
    ValueReads(m);
  }

  // ---- The graph it stores -----------------------------------------------------------------

  /** The entries of a map, ordered by key. */
  ghost function Listed<V>(files: map<string, V>): seq<Entry<V>>
    decreases |files|
  {
    if files == map[] then []
    else
      var key := First(files.Keys);
      ShorterWithout(files, key);
      [Entry(key, files[key])] + Listed(files - {key})
  }

  ghost function First(keys: set<string>): (r: string)
    requires keys != {}
    ensures r in keys && forall k | k in keys :: k == r || TextBefore(r, k)
  {
    FirstExists(keys);
    var r :| r in keys && forall k | k in keys :: k == r || TextBefore(r, k);
    r
  }

  lemma FirstExists(keys: set<string>)
    requires keys != {}
    ensures exists r :: r in keys && forall k | k in keys :: k == r || TextBefore(r, k)
  {
    var least := LeastText(keys);
  }

  lemma ShorterWithout<V>(files: map<string, V>, key: string)
    requires key in files
    ensures |files - {key}| < |files|
  {
    assert (files - {key}).Keys == files.Keys - {key};
    assert |(files - {key}).Keys| == |files - {key}| && |files.Keys| == |files|;
  }

  lemma {:induction false} ListedIsMap<V>(files: map<string, V>)
    ensures AsMap(Listed(files)) == files && Ordered(Listed(files))
    ensures forall i | 0 <= i < |Listed(files)| :: Listed(files)[i].key in files
    decreases |files|
  {
    if files != map[] {
      var key := First(files.Keys);
      ShorterWithout(files, key);
      ListedIsMap(files - {key});
      var rest := Listed(files - {key});
      assert Listed(files) == [Entry(key, files[key])] + rest;
      assert files == (files - {key})[key := files[key]];
    }
  }

  /** The graph a stored manifest holds. */
  function Graph(m: Manifest): Incremental.Manifest {
    Incremental.Manifest(m.salt, AsMap(m.files))
  }

  /** Any graph, stored and read back by the next build, is the graph it was. */
  lemma GraphRoundTrip(graph: Incremental.Manifest, version: int, outputs: map<string, string>)
    requires I64_MIN <= version <= I64_MAX
    ensures var stored := Manifest(version, graph.salt, Listed(graph.files), Listed(outputs));
            var read := FromText(ManifestText(stored));
            read.Some? && Graph(read.value) == graph && AsMap(read.value.outputs) == outputs
  {
    ListedIsMap(graph.files);
    ListedIsMap(outputs);
    ManifestRoundTrip(Manifest(version, graph.salt, Listed(graph.files), Listed(outputs)));
  }
}
