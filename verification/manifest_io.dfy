/**
 * Writing and reading the manifest file step by step: the object builder and the loops of
 * `IncrementalManifest::to_json` and `from_json`.
 */
module ManifestIo {
  import opened Common
  import opened Decimals
  import opened GoJson
  import opened GoJsonIndent
  import opened GoJsonParser
  import opened ManifestJson
  import opened ManifestLayout

  /** `gojson::Object`: an object's text so far, and whether it has no member yet. */
  datatype ObjectText = ObjectText(out: string, first: bool) {
    static function New(): ObjectText {
      ObjectText("{", true)
    }

    function Raw(key: string, value: string): ObjectText {
      ObjectText(out + (if first then "" else ",") + WriteString(key, true) + ":" + value, false)
    }

    function Finish(): string {
      out + "}"
    }
  }

  /** The builder after adding `members` one by one. */
  function Built(members: seq<Member>): (r: ObjectText)
    ensures r.first <==> members == []
  {
    if members == [] then ObjectText.New()
    else
      var last := members[|members| - 1];
      Built(members[..|members| - 1]).Raw(last.key, Write(last.value, true))
  }

  lemma {:induction false} WriteMembersLast(members: seq<Member>, last: Member)
    ensures WriteMembers(members + [last], true) ==
            WriteMembers(members, true) + (if members == [] then "" else ",") + WriteMember(last, true)
  {
    hide Write, WriteMember;
    if members == [] {
      assert members + [last] == [last];
    } else {
      assert (members + [last])[1..] == members[1..] + [last];
      WriteMembersLast(members[1..], last);
      if |members| == 1 {
        assert members[1..] == [];
      }
    }
  }

  /** The builder's next member. */
  lemma BuiltNext(members: seq<Member>, last: Member)
    ensures Built(members + [last]) == Built(members).Raw(last.key, Write(last.value, true))
  {
    var more := members + [last];
    assert more[..|more| - 1] == members;
  }

  lemma {:induction false} BuiltText(members: seq<Member>)
    ensures Built(members).out == "{" + WriteMembers(members, true)
  {
    if members != [] {
      var front, last := members[..|members| - 1], members[|members| - 1];
      assert members == front + [last];
      BuiltText(front);
      WriteMembersLast(front, last);
      BuiltNext(front, last);
      RawText(Built(front), last, WriteMembers(front, true));
    }
  }

  /** What the builder's `Raw` appends. */
  lemma RawText(builder: ObjectText, last: Member, written: string)
    requires builder.out == "{" + written
    ensures builder.Raw(last.key, Write(last.value, true)).out ==
            "{" + (written + (if builder.first then "" else ",") + WriteMember(last, true))
  {
    var comma := if builder.first then "" else ",";
    var key, value := WriteString(last.key, true), Write(last.value, true);
    assert WriteMember(last, true) == key + ":" + value;
    assert "{" + written + comma + key + ":" + value == "{" + (written + comma + (key + ":" + value));
  }

  /** Adding members one by one writes the object's text. */
  lemma BuiltWrites(members: seq<Member>)
    ensures Built(members).Finish() == Write(Object(members), true)
  {
    BuiltText(members);
  }

  lemma {:induction false} WriteElementsLast(elements: seq<Value>, last: Value)
    ensures WriteElements(elements + [last], true) ==
            WriteElements(elements, true) + (if elements == [] then "" else ",") + Write(last, true)
  {
    if elements == [] {
      assert elements + [last] == [last];
    } else {
      assert (elements + [last])[1..] == elements[1..] + [last];
      WriteElementsLast(elements[1..], last);
      if |elements| == 1 {
        assert elements[1..] == [];
      }
    }
  }

  /** `string_array` */
  method StringArray(values: seq<string>) returns (out: string)
    ensures out == Write(Array(Strings(values)), true)
  {
    out := "[";
    ghost var elements := Strings(values);
    assert Write(Array(elements), true) == "[" + WriteElements(elements, true) + "]" && WriteElements([], true) == "";
    hide Write, WriteElements, WriteString;
    var index := 0;
    while index < |values|
      invariant 0 <= index <= |values|
      invariant out == "[" + WriteElements(elements[..index], true)
    {
      assert elements[..index + 1] == elements[..index] + [elements[index]];
      WriteElementsLast(elements[..index], elements[index]);
      LeafTexts("", values[index]);
      if index > 0 {
        out := out + ",";
      }
      out := out + WriteString(values[index], true);
      index := index + 1;
    }
    assert elements[..index] == elements;
    out := out + "]";
  }

  method FileText(state: FileState) returns (text: string)
    ensures text == Write(Object(FileMembers(state)), true)
  {
    var builder := ObjectText.New().Raw("hash", WriteString(state.hash, true));
    ghost var hash := Member("hash", String(state.hash));
    assert [hash][..0] == [];
    assert builder == Built([hash]);
    if state.refs != [] {
      var refs := StringArray(state.refs);
      builder := builder.Raw("refs", refs);
      ghost var members := FileMembers(state);
      assert members[..1] == [hash];
      assert builder == Built(members);
    }
    BuiltWrites(FileMembers(state));
    return builder.Finish();
  }

  method FilesText(files: seq<Entry<FileState>>) returns (text: string)
    ensures text == Write(Object(FilesValue(files)), true)
  {
    var builder := ObjectText.New();
    ghost var members := FilesValue(files);
    var index := 0;
    while index < |files|
      invariant 0 <= index <= |files|
      invariant builder == Built(members[..index])
    {
      var file := FileText(files[index].value);
      assert members[..index + 1][..index] == members[..index];
      builder := builder.Raw(files[index].key, file);
      index := index + 1;
    }
    assert members[..index] == members;
    BuiltWrites(members);
    return builder.Finish();
  }

  method OutputsText(outputs: seq<Entry<string>>) returns (text: string)
    ensures text == Write(Object(OutputsValue(outputs)), true)
  {
    var builder := ObjectText.New();
    ghost var members := OutputsValue(outputs);
    var index := 0;
    while index < |outputs|
      invariant 0 <= index <= |outputs|
      invariant builder == Built(members[..index])
    {
      assert members[..index + 1][..index] == members[..index];
      builder := builder.Raw(outputs[index].key, WriteString(outputs[index].value, true));
      index := index + 1;
    }
    assert members[..index] == members;
    BuiltWrites(members);
    return builder.Finish();
  }

  /** `IncrementalManifest::to_json` */
  method ToJson(m: Manifest) returns (text: string)
    ensures text == ManifestText(m)
    ensures ManifestJson.Valid(m) ==> text == FileOf(m)
  {
    if ManifestJson.Valid(m) {
      TextIs(m);
    }
    hide FileOf, ManifestText;
    text := WriteManifest(m);
  }

  method WriteManifest(m: Manifest) returns (text: string)
    ensures text == ManifestText(m)
  {
    var files := FilesText(m.files);
    var outputs := OutputsText(m.outputs);
    var compact := ObjectText.New()
      .Raw("version", IntText(m.version))
      .Raw("salt", WriteString(m.salt, true))
      .Raw("files", files)
      .Raw("outputs", outputs)
      .Finish();
    TopText(m, files, outputs, compact);
    var indented := Indent(compact, "", "\t");
    return indented + "\n";
  }

  lemma TopText(m: Manifest, files: string, outputs: string, compact: string)
    requires files == Write(Object(FilesValue(m.files)), true)
    requires outputs == Write(Object(OutputsValue(m.outputs)), true)
    requires compact == ObjectText.New()
                        .Raw("version", IntText(m.version)).Raw("salt", WriteString(m.salt, true))
                        .Raw("files", files).Raw("outputs", outputs).Finish()
    ensures compact == Write(ManifestValue(m), true)
  {
    var a, b := Member("version", Number(IntText(m.version))), Member("salt", String(m.salt));
    var c, d := Member("files", Object(FilesValue(m.files))), Member("outputs", Object(OutputsValue(m.outputs)));
    assert ManifestValue(m) == Object([a, b, c, d]);
    LeafTexts(IntText(m.version), m.salt);
    hide Write, ManifestValue, FilesValue, OutputsValue, IntText, WriteString;
    FourMembers(a, b, c, d);
    FourTexts(a, b, c, d, IntText(m.version), WriteString(m.salt, true), files, outputs);
    BuiltWrites([a, b, c, d]);
  }

  lemma LeafTexts(number: string, text: string)
    ensures Write(Number(number), true) == number && Write(String(text), true) == WriteString(text, true)
  {
    hide WriteString;
  }

  /** Adding four members is adding their values' texts. */
  lemma FourTexts(a: Member, b: Member, c: Member, d: Member, x: string, y: string, z: string, w: string)
    requires Write(a.value, true) == x && Write(b.value, true) == y && Write(c.value, true) == z && Write(d.value, true) == w
    ensures RawMember(RawMember(RawMember(RawMember(ObjectText.New(), a), b), c), d) ==
            ObjectText.New().Raw(a.key, x).Raw(b.key, y).Raw(c.key, z).Raw(d.key, w)
  {
  }

  function RawMember(builder: ObjectText, member: Member): ObjectText {
    builder.Raw(member.key, Write(member.value, true))
  }

  lemma FourMembers(a: Member, b: Member, c: Member, d: Member)
    ensures Built([a, b, c, d]) == RawMember(RawMember(RawMember(RawMember(ObjectText.New(), a), b), c), d)
  {
    BuiltNext([], a);
    BuiltNext([a], b);
    BuiltNext([a, b], c);
    BuiltNext([a, b, c], d);
    assert [] + [a] == [a] && [a] + [b] == [a, b] && [a, b] + [c] == [a, b, c] && [a, b, c] + [d] == [a, b, c, d];
  }

  /** `IncrementalManifest::from_json` */
  method FromJson(data: string) returns (r: Option<Manifest>)
    ensures r == FromText(data)
    ensures r.Some? ==> exists value :: Parse(data) == Some(value) && ManifestIs(value, r.value)
  {
    if FromText(data).Some? {
      ReadMeans(data);
    }
    hide ManifestIs, FromText;
    r := ReadManifest(data);
  }

  method ReadManifest(data: string) returns (r: Option<Manifest>)
    ensures r == FromText(data)
  {
    var parsed := ParseDocument(data);
    if parsed.None? || !parsed.value.Object? {
      return None;
    }
    var value := parsed.value;
    var version, salt := ReadVersion(value), ReadText(value, "salt");
    var fileMembers, outputMembers := MembersOrNone(value, "files"), MembersOrNone(value, "outputs");
    if version.None? || salt.None? || fileMembers.None? {
      return None;
    }
    var files := CollectFiles(fileMembers.value);
    if files.None? || outputMembers.None? {
      return None;
    }
    var outputs := CollectOutputs(outputMembers.value);
    if outputs.None? {
      return None;
    }
    return Some(Manifest(version.value, salt.value, files.value, outputs.value));
  }

  method CollectFiles(members: seq<Member>) returns (r: Option<seq<Entry<FileState>>>)
    ensures r == ReadFiles(members, |members|)
  {
    hide ReadFile, Insert;
    var files: seq<Entry<FileState>> := [];
    var index := 0;
    while index < |members|
      invariant 0 <= index <= |members|
      invariant ReadFiles(members, index) == Some(files)
    {
      var state := ReadFile(members[index].value);
      if state.None? {
        StuckFiles(members, index + 1, |members|);
        return None;
      }
      files := Insert(files, members[index].key, state.value);
      index := index + 1;
    }
    return Some(files);
  }

  lemma {:induction false} StuckFiles(members: seq<Member>, k: nat, n: nat)
    requires k <= n <= |members| && ReadFiles(members, k).None?
    ensures ReadFiles(members, n).None?
  {
    hide ReadFile, Insert;
    if k < n { StuckFiles(members, k, n - 1); }
  }

  method CollectOutputs(members: seq<Member>) returns (r: Option<seq<Entry<string>>>)
    ensures r == ReadOutputs(members, |members|)
  {
    hide Insert;
    var outputs: seq<Entry<string>> := [];
    var index := 0;
    while index < |members|
      invariant 0 <= index <= |members|
      invariant ReadOutputs(members, index) == Some(outputs)
    {
      if !members[index].value.String? {
        StuckOutputs(members, index + 1, |members|);
        return None;
      }
      outputs := Insert(outputs, members[index].key, members[index].value.text);
      index := index + 1;
    }
    return Some(outputs);
  }

  lemma {:induction false} StuckOutputs(members: seq<Member>, k: nat, n: nat)
    requires k <= n <= |members| && ReadOutputs(members, k).None?
    ensures ReadOutputs(members, n).None?
  {
    if k < n { StuckOutputs(members, k, n - 1); }
  }

  /** A manifest written to its file and read from it is the manifest. */
  method WriteThenRead(m: Manifest) returns (r: Option<Manifest>)
    requires ManifestJson.Valid(m)
    ensures r == Some(m)
  {
    var text := ToJson(m);
    ManifestRoundTrip(m);
    r := FromJson(text);
  }
}
