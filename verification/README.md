# Verified models of the sloptor driver

sloptor compiles TypeScript to Luau. This project models the layers around its compiler that carry
state from one build to the next, watch the file system, talk to a client and schedule work in
parallel, and proves what they promise. `dafny verify dfyconfig.toml` checks everything.

What is covered, file by file:

- `vlq.dfy`, `mappings.dfy`, `text_edits.dfy`, `declmap.dfy`: module specifiers in an emitted
  declaration are replaced and the source map beside it is re-encoded, so that every segment still
  points at the same character.
- `gojson.dfy`, `gojson_parser.dfy`, `json_grammar.dfy`, `gojson_indent.dfy`, `manifest_json.dfy`,
  `manifest_layout.dfy`, `manifest_io.dfy`: the JSON reader, writers and indenter, the grammar of
  RFC 8259 that says which texts they read and write, and the manifest that round-trips through them.
- `incremental.dfy`, `signature.dfy`: which files an incremental build compiles again, by importer
  closure and by the narrower declaration signature, and why the result is that of a cold build.
- `stamps.dfy`, `stamps_text.dfy`, `output_writer.dfy`, `copy_files_gate.dfy`: the caches that spare reading, writing
  and copying.
- `coverage.dfy`, `solution_watch.dfy`, `fswatch.dfy`, `polling.dfy`: the watches of a solution, the
  gate that runs its builds, the batching of file events and the polling watch of one project.
- `build_server.dfy`, `build_answers.dfy`, `build_session.dfy`: both ends of the build API, which answer
  each request gets, and their composition.
- `cross_project.dfy`, `grouped_emit.dfy`: parallel scheduling of projects and of declaration emit.
- `order.dfy`, `decimals.dfy`, `common.dfy`: the order of texts and paths, decimal numbers, and shared
  datatypes.

How it is modelled:

- Code that changes things step by step is a method or a class, proved against a function or a
  predicate; the promises are lemmas about those. Concurrent code is a state machine whose steps are
  the sections under one mutex, run in any interleaving; `GroupedEmit.EmitGroups` instead picks the
  next group freely, so its contract holds for every choice.
- Text is a sequence of Unicode scalars. Edit offsets are UTF-8 bytes on character boundaries and
  columns are UTF-16 units, as in the source.
- Paths are sequences of components, and a canonical path or a case rule is a function parameter.
  Whether a watch opens is a parameter too: the set of watches that fail.
- The disk of the stamp cache has a clock that never goes back; any change of a file may set its
  content, times and inode freely, but its status-change time is the current tick.
- The compiler is abstract: references, declarations, outputs and emitter states are functions, and
  the lemmas say what they must depend on, between the two builds at hand.
  `Incremental.ReadersQualify`, `Signature.CompilersQualify` and `Signature.OwnDeclarersQualify` show
  that compilers which read what they import meet this, and `Incremental.ReadersRead` and
  `Signature.InliningReads` that such compilers do change with an import.

Where a plain claim is false, what holds instead:

- The skip of an output write trusts hashes validated at the start of the build. A path written twice
  in one build, the second time with the contents it started with, keeps the first write
  (`OutputWriter.WriteBackSkipped`); `OutputWriter.Writer.Write` says exactly when.
- A path absent before and after a batch is reported deleted if it was removed more than once
  (`FsWatch.FlickerReported`, `FsWatch.Coalesced`).
- The fast copy check does not see a root directory that appears; that is the only case in which the
  full comparison decides otherwise (`CopyFilesGate.FastRefinesSlow`, and `CopyFilesGate.NewRootUnseen`
  for such a case). Equal length and lookup is not
  equality where a time is 0 (`CopyFilesGate.ZeroPasses`).
- Pruning a snapshot drops a file that stands at a skipped path, as a plain file `out` would
  (`Polling.FileAtSkippedPath`), and everything if the root lies in a skipped directory; walking drops
  neither (`Polling.PruneIsWalk` says exactly when they agree).
- An edit made while the first check runs starts no second one if the files stay as it left them: there
  are no stamps from before (`Polling.FirstCheckAbsorbs`). The same holds of an edit to an extra file that
  a build is the first to have watched (`Polling.NewExtraAbsorbs`). `Polling.ChangeSeen` says exactly
  which edits a run's stamps let be seen, and `Polling.EditNamed` that those and no others are named.
- An extra watched file inside a skipped directory makes every build of an untouched tree start another
  (`Polling.ExtraInsideRestarts`); `Polling.UntouchedStartsNone` says exactly when a tree stays quiet.
- A watch that overflows and then loses its directory before the batch is delivered never tells its
  callbacks that it ended (`FsWatch.OverflowHidesDeath`); in every other case it does.
- The encoder of a source map never ends on a 64-bit value of magnitude 2^62 or more, but for the least
  one, which it writes as 0 (`Vlq.EncoderEnds`).
- An output whose path holds a line break, or ends in a carriage return, does not come back from the
  stamps file (`StampsText.KeyComesBack`).
- A stamp cannot tell two contents of one length written in one clock tick
  (`Stamps.RacyTestNeeded`); `Stamps.LoadedStampHolds` asks only that the tick of the stamp itself was
  not reused before the stamps file was written.
- The hexadecimal escape reader accepts a leading plus sign, so the reader accepts more than RFC 8259
  (section 7) allows; the grammar of `json_grammar.dfy` has such codes as well (`IsCode`).

## Model

| member | source | states |
|---|---|---|
| Vlq.AppendVlq | crates/rotor_compile/src/source_trace_sourcemap.rs:182-195 | for every 64-bit value it ends on, appends the characters that stand in the standard alphabet at the five-bit groups of the word, least significant first, with 32 added to all but the last; the word has the sign in its lowest bit |
| Vlq.EncoderEnds | crates/rotor_compile/src/source_trace_sourcemap.rs:182-195 | the loop ends exactly on magnitudes below 2^62 and on the least 64-bit value, and only the latter is written as another value, 0 |
| Vlq.DecodeBase64Vlq | crates/rotor_compile/src/declmap.rs:145-162 | from any index reads the value that the places of the next characters in the standard alphabet spell, up to the first place below 32, in a wrapping 64-bit word; nothing exactly if no such characters stand there, thirteen at most |
| Vlq.DecodeEncode | crates/rotor_compile/src/declmap.rs:145-162 | a value encoded in front of any text decodes to itself and leaves that text |
| Vlq.DecodeDigits | crates/rotor_compile/src/declmap.rs:145-162 | decoding from any shift adds the word the digits stand for, as long as it fits the word |
| Vlq.DecodesWithin | crates/rotor_compile/src/declmap.rs:145-162 | a value is read exactly when a last digit comes, after continued ones only, within thirteen; a fourteenth digit is refused, however the text goes on |
| Vlq.DecodeSays | crates/rotor_compile/src/declmap.rs:14-162 | the same of any text, by the alphabet written out |
| Mappings.SegmentEnd | crates/rotor_compile/src/declmap.rs:91-130 | the segment ends at the next separator or at the end of the text |
| Mappings.ShiftMappingColumns | crates/rotor_compile/src/declmap.rs:91-130 | the loop over any text is the rewrite: separators copied, each column re-encoded against the column before it in the line, the rest of a segment copied, everything from the first unreadable segment on copied |
| Mappings.ValueStaysInSegment | crates/rotor_compile/src/declmap.rs:106-118 | a column value never crosses a separator |
| Mappings.RewriteMovesColumns | crates/rotor_compile/src/declmap.rs:91-142 | reading the rewritten mappings gives the same lines, separators, segments, other fields and unread tail, with each generated column moved by exactly its line's shifts at or before it |
| Mappings.LinesMoved | crates/rotor_compile/src/declmap.rs:91-142 | mappings written as lines apart by semicolons and segments apart by commas come out as as many lines of as many segments with the same fields, each column moved by its line's shifts |
| TextEdits.ApplyTextEdits | crates/rotor_compile/src/declpaths.rs:44-60 | the loop builds the text with each span replaced, edits that start before the cursor skipped, byte offsets meaning character positions |
| TextEdits.NonOverlappingTextEdits | crates/rotor_compile/src/declpaths.rs:28-41 | of the edits sorted stably by start, keeps exactly each that starts inside none kept before it, each once, though it compares with the last one only; the result is in order and does not overlap |
| TextEdits.SpliceOneByOne | crates/rotor_compile/src/declpaths.rs:44-60 | the spliced text is what replacing the spans one at a time makes, the last first |
| TextEdits.SortByStartSorts | crates/rotor_compile/src/declpaths.rs:29 | the sort orders by start and keeps edits of one start in the order given |
| TextEdits.SpliceMoves | crates/rotor_compile/src/declpaths.rs:44-60 | a place outside every single-line edit is, after the splice, on the same line with its UTF-16 column moved by the growth of the edits before it on its line, and the character there, unless an edit replaces it, is at the moved place |
| TextEdits.CharIndexMeaning | crates/rotor_compile/src/declpaths.rs:44-60 | a byte offset on a character boundary names the character with that many bytes before it |
| TextEdits.PositionMeans | crates/rotor_compile/src/source_trace.rs:236-256 | a position is the number of line breaks before it and, since the last of them, the characters, those beyond the basic plane twice |
| DeclMap.DeclarationColumnShifts | crates/rotor_compile/src/declmap.rs:57-88 | the loop collects the shifts of the edits, with no line listed in vain |
| DeclMap.ShiftsTotalGrowth | crates/rotor_compile/src/declmap.rs:57-142 | at any position the shifts of a line add up to what the edits before it grew the line by |
| DeclMap.SplicedWhole | crates/rotor_compile/src/declmap.rs:22-30 | splicing the text with its byte order mark is the mark and the spliced body |
| DeclMap.MarkMeans | crates/rotor_compile/src/declmap.rs:22-30 | the mark is the character U+FEFF in front of the text, three bytes long |
| DeclMap.ShiftOfMeans | crates/rotor_compile/src/declmap.rs:57-88 | an edit shifts its line from the column of its end by what it grows it, exactly if it starts past the mark, lies in the text, holds no line break and does grow it |
| DeclMap.FixupCommutes | crates/rotor_compile/src/declmap.rs:21-142 | the square: shifting the column of a place outside the edits names the same place of the spliced text |
| DeclMap.MapStillPoints | crates/rotor_compile/src/declmap.rs:21-142 | every readable segment of a rewritten map points at the same character it pointed at before the edits, its other fields unchanged |
| DeclMap.ShiftsOfCollects | crates/rotor_compile/src/declmap.rs:57-88 | line by line and in order, the shifts of the edits are their non-zero UTF-16 growths at their ends |
| DeclMap.ShiftDeclarationMapColumns | crates/rotor_compile/src/declmap.rs:21-44 | only the mappings value is rewritten, and nothing without shifts or without such a value |
| DeclMap.ShiftedMapPoints | crates/rotor_compile/src/declmap.rs:21-142 | the map file read again after the fixup, rewritten or left alone, has as many segments, and one that pointed at a place outside the edits points at that place of the spliced text |
| DeclMap.MapRereads | crates/rotor_compile/src/declmap.rs:31-43 | the rewritten map is found where the original was, as its rewritten mappings |
| DeclMap.LocatedMeans | crates/rotor_compile/src/declmap.rs:31-43 | the value lies between the first `"mappings":"` and the next quote; there is none exactly if no such key is closed by a quote |
| DeclMap.RewriteAddsNoQuote | crates/rotor_compile/src/declmap.rs:91-130 | the rewrite never writes the quote that would end the value early |
| JsonGrammar.ParseMeans | crates/rotor_compile/src/gojson.rs:83-325 | a text is read as a value if and only if RFC 8259's grammar, written out with its literals, escapes, surrogate pairs and space, spells that value by it, and it is nested at most ten thousand deep |
| JsonGrammar.BodyReads | crates/rotor_compile/src/gojson.rs:250-325 | every escaped text that the grammar gives, a plus sign in a code included, reads as the characters it stands for up to the closing quote |
| JsonGrammar.WrittenReads | crates/rotor_compile/src/gojson.rs:142-325 | reading a written value gives it back in front of anything that delimits it, exactly when it is nested no deeper than the limit |
| JsonGrammar.WriteSpells | crates/rotor_compile/src/gojson.rs:330-473 | what the writers write is spelled by that grammar, for both escaping modes |
| JsonGrammar.ParseInvertsWrite | crates/rotor_compile/src/gojson.rs:83-96 | parsing what the writers wrote gives the value back if and only if its height is within the limit, for both escaping modes |
| JsonGrammar.EscapeMeans | crates/rotor_compile/src/gojson.rs:330-357 | the writer's escape of each character: two characters, by RFC 8259 (section 7), for quote, backslash and the five short controls; six with its code in lower case for other controls, the line separators and, if asked, the HTML characters; itself otherwise |
| GoJson.NumberAlike | crates/rotor_compile/src/gojson.rs:213-247 | a number reads the same in front of any text that ends it |
| GoJsonParser.Parser.ParseValue | crates/rotor_compile/src/gojson.rs:142-162 | the recursive reader advances over exactly the value read there, which `JsonGrammar.ParseMeans` says from the grammar, or fails |
| GoJsonParser.Parser.ParseMembers | crates/rotor_compile/src/gojson.rs:165-191 | the loop over the members collects them in order, keys and values |
| GoJsonParser.Parser.ParseElements | crates/rotor_compile/src/gojson.rs:194-210 | the loop over the elements collects them in order |
| GoJsonParser.Parser.ParseNumber | crates/rotor_compile/src/gojson.rs:213-247 | consumes exactly the longest number text |
| GoJsonParser.Parser.ParseString | crates/rotor_compile/src/gojson.rs:250-312 | consumes a string up to its closing quote, escapes and surrogate pairs decoded |
| GoJsonParser.Parser.ReadHex4 | crates/rotor_compile/src/gojson.rs:315-325 | four characters by the radix parser, a leading plus included |
| GoJsonParser.ParseDocument | crates/rotor_compile/src/gojson.rs:83-96 | one value with nothing but space around it, as `JsonGrammar.ParseMeans` says from the grammar |
| GoJsonIndent.Indent | crates/rotor_compile/src/gojson.rs:476-536 | the loop writes the layout of the text: line breaks after openers and commas, before closers, none inside strings or empty brackets |
| GoJsonIndent.WrittenIsPretty | crates/rotor_compile/src/gojson.rs:476-536 | indenting a written value gives its layout, member by member and element by element on lines of their own, empty brackets closed at once |
| GoJsonIndent.ValueLaid | crates/rotor_compile/src/gojson.rs:476-536 | indenting any readable text leaves the value it reads as, whatever its own layout was |
| GoJsonIndent.ParseIndented | crates/rotor_compile/src/gojson.rs:476-536 | parsing the indented text gives what parsing the text gives, for blank prefix and indent |
| ManifestJson.IntTextReads | crates/rotor_compile/src/gojson.rs:213-247 | every 64-bit integer is written as a JSON number and parsed back as itself |
| ManifestJson.ManifestRoundTrip | crates/rotor_compile/src/incremental_manifest.rs:62-124 | every manifest, encoded, indented and read, is the same manifest |
| ManifestJson.GraphRoundTrip | crates/rotor_compile/src/incremental_manifest.rs:62-124 | any graph and outputs a build stores are the graph and outputs the next build selects and validates by |
| ManifestLayout.TextIs | crates/rotor_compile/src/incremental_manifest.rs:62-80 | the text of any manifest, spelled out: tabs, line breaks, the four fields in order |
| ManifestJson.ReadMeans | crates/rotor_compile/src/incremental_manifest.rs:82-124 | what is read from a text are the fields of the value it spells, by name, type and default |
| ManifestJson.InsertMeans | crates/rotor_compile/src/incremental_manifest.rs:99-121 | of entries with one name the last one is kept, the others stay |
| ManifestIo.ToJson | crates/rotor_compile/src/incremental_manifest.rs:62-80 | the builder writes exactly the manifest's file, spelled out line by line, references left out when there are none |
| ManifestIo.FromJson | crates/rotor_compile/src/incremental_manifest.rs:82-124 | reads a manifest from any text, or nothing; each field of what it reads is that of the last member named exactly so, or in any case, or the default if that is missing or null |
| ManifestIo.WriteThenRead | crates/rotor_compile/src/incremental_manifest.rs:62-124 | writing and then reading returns the manifest |
| ManifestIo.BuiltWrites | crates/rotor_compile/src/gojson.rs:374-440 | adding members one by one writes the object |
| Incremental.AccumulateReverseDeps | crates/rotor_compile/src/incremental_manifest.rs:393-407 | lists under each path exactly its importers, on top of what was listed |
| Incremental.Search | crates/rotor_compile/src/incremental_manifest.rs:364-384 | the queue ends on any graph and selects the chosen paths and everything that imports something the seeds reach |
| Incremental.SelectIncrementalSourceFiles | crates/rotor_compile/src/incremental_manifest.rs:344-390 | without a previous manifest of the same salt all files; otherwise, in order, exactly those changed or importing, now or before, something a change reaches |
| Incremental.KeepInOrder | crates/rotor_compile/src/incremental_manifest.rs:386-390 | selected files come in the order of the program |
| Incremental.AffectedMeansReached | crates/rotor_compile/src/incremental_manifest.rs:344-390 | for a present file, selected means that a chain of importers leads to it from a new, edited or removed one |
| Incremental.ReachedIsLeast | crates/rotor_compile/src/incremental_manifest.rs:375-384 | what is reached is the least set with the seeds in it and closed under the importers of what passes a change on |
| Incremental.IncrementalIsCold | crates/rotor_compile/src/incremental_manifest.rs:344-390 | previous outputs overwritten by those of the selection are what compiling everything leaves, if an output changes only when a text its file reaches, by the current or the previous references, does |
| Incremental.ReadersQualify | crates/rotor_compile/src/incremental_manifest.rs:344-390 | a compiler of all that a file reaches, whatever it makes of it, is such a one, if references resolve otherwise only when a file they name changes |
| Incremental.ReadersRead | crates/rotor_compile/src/incremental_manifest.rs:344-390 | and it does read imports: two manifests in which only the imported text differs |
| Incremental.BuildIncrementalManifest | crates/rotor_compile/src/incremental_manifest.rs:273-320 | reuses the previous graph if no path is new, edited or removed, and takes the resolved references otherwise |
| Incremental.ReusesExactly | crates/rotor_compile/src/incremental_manifest.rs:293-303 | equal length and matching lookups hold exactly when the change set is empty |
| Signature.HeldInWave | crates/rotor_compile/src/incremental_signature.rs:38-47 | looking a file up among its wave's texts compares its own declaration, as output keys are not shared |
| Signature.TakeWave | crates/rotor_compile/src/incremental_signature.rs:85-97 | selects the pending paths once: new sources become the wave, importers of other paths stay pending |
| Signature.SelectByDeclarationSignature | crates/rotor_compile/src/incremental_signature.rs:64-124 | ends, selects the least set with the seeds in it and the importers of every member that is no source or whose declaration changed, and emits each selected source once, in waves; it fails exactly when the last wave emitted did |
| Signature.NarrowedMeans | crates/rotor_compile/src/incremental_signature.rs:64-124 | a path is selected exactly if it is a seed or references, now or at the previous build, a selected path that is not a source whose declaration hashes to the recorded one |
| Signature.DeclarationImporters | crates/rotor_compile/src/incremental_signature.rs:200-227 | exactly the paths that some changed path which is a declaration file reaches by imports, itself included |
| Signature.NarrowSelection | crates/rotor_compile/src/incremental_signature.rs:148-197 | stands down without a same-salt manifest, outputs or declarations, and otherwise fails exactly when one of the waves it emits does; the seeds are the changed paths, the extra ones and whatever a changed declaration file reaches; the waves hold the sources reached from them, each once, and all of them when none fails |
| Signature.NarrowedIsReached | crates/rotor_compile/src/incremental_signature.rs:148-197 | without extra seeds it never selects a path the importer closure does not |
| Signature.UnselectedSame | crates/rotor_compile/src/incremental_signature.rs:64-124 | a file left out has the text, the declaration and the output it had, import cycles and removed references included |
| Signature.NarrowedIsCold | crates/rotor_compile/src/incremental_signature.rs:64-124 | compiling the narrowed selection over the previous outputs leaves what compiling every source leaves, if the declarations and outputs of files that keep their texts change only with the presence or declaration of something they reference outside, now or before |
| Signature.CompilersQualify | crates/rotor_compile/src/incremental_signature.rs:64-124 | a compiler that makes declarations and outputs of the own text and the imported declarations, in any way, is such a one over acyclic references, which may resolve otherwise when a file comes or goes |
| Signature.OwnDeclarersQualify | crates/rotor_compile/src/incremental_signature.rs:64-124 | one that makes declarations of the own text alone and outputs of the imported ones is, over any references, cycles included |
| Signature.InliningReads | crates/rotor_compile/src/incremental_signature.rs:64-124 | and it does read them: only an import changes, and with it the importer's declaration and output |
| Stamps.OutputStamps.Load | crates/rotor_compile/src/output_stamps.rs:79-112 | keeps nothing if the file is missing or a line malformed, and otherwise of each key the last entry whose times are older than the stamps file |
| Stamps.TrustsLast | crates/rotor_compile/src/output_stamps.rs:79-112 | an entry is trusted exactly if the last line of its key whose times are older than the file holds it |
| Stamps.StampTells | crates/rotor_compile/src/output_stamps.rs:20-49 | two files show one stamp exactly if length, both times, inode and device agree |
| StampsText.PrintedParses | crates/rotor_compile/src/output_stamps.rs:85-153 | the text of any entries, fields separated by tabs and the key last, splits and parses as those entries, tabs in a key included |
| StampsText.LineIs | crates/rotor_compile/src/output_stamps.rs:147-153 | a line is hash, length, modification time, status-change time, inode, device and key, apart by tabs |
| Decimals.NatTextMeans | crates/rotor_compile/src/output_stamps.rs:147-153 | a number is written by its decimal digits without leading zeros |
| Decimals.ParseIntMeans | crates/rotor_compile/src/output_stamps.rs:87-99 | a number is read from digits alone, after a plus, or after a minus where the type has negative values, within the type's bounds, and from nothing else |
| StampsText.KeyComesBack | crates/rotor_compile/src/output_stamps.rs:85-153 | an entry comes back from its text if and only if its key holds no line break and does not end in a carriage return |
| StampsText.TextRoundTrip | crates/rotor_compile/src/output_stamps.rs:79-159 | so the persisted text is loaded as the entries, but for the racy ones |
| Stamps.WrittenReads | crates/rotor_compile/src/output_stamps.rs:79-159 | what was persisted is what is loaded, but for the entries that are racy by the time of the file |
| Stamps.OutputStamps.Persist | crates/rotor_compile/src/output_stamps.rs:132-162 | writes the observed stamps of the outputs with their hash, unless they are exactly the loaded ones |
| Stamps.SameStampSameContent | crates/rotor_compile/src/output_stamps.rs:3-10 | a file that shows a stamp it showed before has the content it had, unless changed in the tick of the stamp's own status-change time |
| Stamps.LoadedStampHolds | crates/rotor_compile/src/output_stamps.rs:51-60 | a non-racy stamp that still shows vouches for the observed content, whatever happened after the stamps file was written |
| Stamps.LaterChangeSeen | crates/rotor_compile/src/output_stamps.rs:51-60 | after any change made once the stamps file was written the loaded stamp never shows again |
| Stamps.RacyTestNeeded | crates/rotor_compile/src/output_stamps.rs:51-60 | without the racy test a rewrite of the same length in one tick passes unseen |
| Stamps.HoldsMeansHash | crates/rotor_compile/src/output_stamps.rs:115-121 | a loaded entry that matches the file tells the hash of its content |
| OutputWriter.PersistedLoadsTrue | crates/rotor_compile/src/output_stamps.rs:73-162 | the stamps one build persisted are true of the disk a later build loads them on |
| OutputWriter.Writer.UseHashes | crates/rotor_compile/src/outputwriter_manifest.rs:16-52 | keeps exactly the recorded outputs whose files still hold them, stamps sparing reads only |
| OutputWriter.Writer.Validate | crates/rotor_compile/src/outputwriter_manifest.rs:16-52 | one output is valid if and only if its file holds what was recorded, and is read exactly if no trusted stamp tells so |
| OutputWriter.Writer.Write | crates/rotor_compile/src/outputwriter.rs:103-128 | says when it writes and skips; the file then holds the contents if and only if it is not the case that this session wrote it before and the validated hash is that of the contents |
| OutputWriter.WriteBackSkipped | crates/rotor_compile/src/outputwriter.rs:106-116 | the exception: writing other contents and then the validated ones leaves the other contents, recorded under the hash of the validated ones |
| OutputWriter.NextBuildLoadsTrue | crates/rotor_compile/src/output_stamps.rs:132-159 | the stamps file a build leaves, new or kept, is true of every later disk, whoever changes it |
| OutputWriter.NextBuild | crates/rotor_compile/src/outputwriter_manifest.rs:16-52 | so a second build on any later disk keeps exactly the outputs whose files still hold what the first recorded |
| OutputWriter.WrittenIsTrusted | crates/rotor_compile/src/output_stamps.rs:79-159 | a file written before the clock moves on and its stamp is persisted is trusted by the next build |
| CopyFilesGate.Walk | crates/rotor_compile/src/copyfilesgate.rs:178-232 | the recursive walk pushes onto the manifest exactly what the walk function lists |
| CopyFilesGate.WalkLists | crates/rotor_compile/src/copyfilesgate.rs:178-232 | a walk lists exactly the directories and the copied files on the paths that no rule skips, with their times and their destinations' |
| CopyFilesGate.RootsList | crates/rotor_compile/src/copyfilesgate.rs:234-256 | the walk of several roots lists exactly those below one of them |
| CopyFilesGate.GateMeans | crates/rotor_compile/src/copyfilesgate.rs:373-426 | nothing is persisted exactly if the cached manifest shows on the disk and nothing changed; otherwise the walk is, the copy is skipped exactly if the same sources and the cached destinations show, the cleanup if also the directories do, and neither without a cached manifest |
| CopyFilesGate.WalkRootsAccurate | crates/rotor_compile/src/copyfilesgate.rs:178-256 | what a walk records are the times the disk shows |
| CopyFilesGate.WalkDirSame | crates/rotor_compile/src/copyfilesgate.rs:178-232 | where the recorded times still show and directory times determine entries, a second walk lists the same |
| CopyFilesGate.TimesEqualMeans | crates/rotor_compile/src/copyfilesgate.rs:344-363 | for distinct paths the recorded times are equal if and only if length and lookup agree and every path looked up is there, which needs no look where no time is 0 |
| CopyFilesGate.ZeroPasses | crates/rotor_compile/src/copyfilesgate.rs:344-353 | a time of 0 passes for a path that is not there |
| CopyFilesGate.FastRefinesSlow | crates/rotor_compile/src/copyfilesgate.rs:373-426 | when the fast check passes, the rebuilt comparison skips the cleanup too exactly if no root directory appeared, and then skips the copy and owns the same outputs |
| CopyFilesGate.NewRootUnseen | crates/rotor_compile/src/copyfilesgate.rs:373-426 | a root directory that appears: the fast check passes and the full comparison does not skip |
| Coverage.DeliverMeans | crates/rotor_cli/src/solution_watch_coverage.rs:46-82 | what a route is told of an event: a file route of its own path; a directory route of a path below it, under the route's name, a package directory of itself and its children, or of a directory around it as of itself; nothing from an ignored tree, and nothing else |
| Coverage.OrderCandidates | crates/rotor_cli/src/solution_watch_coverage.rs:252-290 | the distinct candidates of the routes, shorter paths first, those of one length by text and those of one path by kind |
| Coverage.ChosenAntichain | crates/rotor_cli/src/solution_watch_coverage.rs:291-339 | no recursive watch kept lies inside another, whichever failed to open |
| Coverage.ArmedMeans | crates/rotor_cli/src/solution_watch_coverage.rs:291-339 | armed exactly when every candidate is open or covered by an open ancestor |
| Coverage.ArmedServesOnce | crates/rotor_cli/src/solution_watch_coverage.rs:291-339 | armed, each directory route is dispatched by exactly one recursive watch, and that one contains it |
| Coverage.DeliverBatch | crates/rotor_cli/src/solution_watch_coverage.rs:46-82 | each route is called once, in order, with what it gets of the batch, if that is anything or the watch failed |
| Coverage.CallsMean | crates/rotor_cli/src/solution_watch_coverage.rs:46-82 | calls follow the order of routes and their events that of the batch |
| Coverage.EventHeardOnce | crates/rotor_cli/src/solution_watch_coverage.rs:46-82 | even with failed ancestors a route of any kind hears of an event through at most one open watch, and a batch tells it of each event by itself, at most once |
| Coverage.EventReaches | crates/rotor_cli/src/solution_watch_coverage.rs:46-82 | what an open watch reports from inside a route, outside the trees it ignores, is delivered to the route's handler |
| Coverage.CoveredHears | crates/rotor_cli/src/solution_watch_coverage.rs:46-82 | a route whose candidate is open or covered hears, through some open watch, of every event below it that is to be delivered |
| Coverage.Exclusions | crates/rotor_cli/src/solution_watch_coverage.rs:142-156 | a source root is never excluded by a tree it lies in; every other generated tree is |
| Coverage.SolutionRoutesMean | crates/rotor_cli/src/solution_watch.rs:262-300 | a path is routed in a kind exactly if some set lists it in that kind's field, and for Rojo directories and configs no generated tree holds it; routes are canonical, and ignore exactly the generated trees, a root those that do not hold it |
| Coverage.SolutionWatches.Remove | crates/rotor_cli/src/solution_watch_coverage.rs:203-211 | forgets the watch and its routes together and closes its handle |
| Coverage.SolutionWatches.Close | crates/rotor_cli/src/solution_watch_coverage.rs:213-218 | closes every handle |
| Coverage.SolutionWatches.Arm | crates/rotor_cli/src/solution_watch_coverage.rs:300-336 | hands a live or newly opened watch its routes; a failure disarms and changes nothing else |
| Coverage.SolutionWatches.OpenWanted | crates/rotor_cli/src/solution_watch_coverage.rs:289-339 | opens exactly the wanted candidates, held ones keeping their handles |
| Coverage.SolutionWatches.Refresh | crates/rotor_cli/src/solution_watch_coverage.rs:223-345 | does nothing when armed with the same sets and nothing dead; otherwise the routes are exactly those the sets list, kind by kind (`RoutesMean`), live watches still open keep their handle, every other open one is new, exactly the unused handles are closed, every route's candidate is open, covered or could not be opened, a live one is closed only under an open ancestor or when no route wants it, and the class invariant holds |
| SolutionWatch.RunsNeedTriggers | crates/rotor_cli/src/solution_watch.rs:38-89 | runs never outnumber triggers, and while one is pending there are fewer |
| SolutionWatch.CompileGate.Next | crates/rotor_cli/src/solution_watch.rs:72-83 | starts a run if one is pending and ends only closed and idle |
| SolutionWatch.RunKeeps | crates/rotor_cli/src/solution_watch.rs:38-89 | in every interleaving: unhandled events have a trigger set or on its way or a begun cycle, each event is in one batch or recorded still, one run at a time, runs never exceed triggers |
| SolutionWatch.QuietMeansHandled | crates/rotor_cli/src/solution_watch.rs:438-488 | with nothing pending and nobody about to trigger, every recorded event was handled once |
| SolutionWatch.ReturnMeansClosed | crates/rotor_cli/src/solution_watch.rs:72-89 | serve returns only closed with nothing pending; what is unhandled then is a callback's that has yet to trigger |
| SolutionWatch.CodeMeans | crates/rotor_cli/src/solution_watch.rs:410-430 | the command ends with 1 exactly if the solution could not be loaded and with 0 exactly if the serving ended |
| SolutionWatch.TriggersCoalesce | crates/rotor_cli/src/solution_watch.rs:31-32 | without another trigger at most one more run starts |
| SolutionWatch.EventsReachACycle | crates/rotor_cli/src/solution_watch.rs:438-492 | from any state whose worker serves, at most four steps of the threads put every recorded event into one batch |
| SolutionWatch.EventKept | crates/rotor_cli/src/solution_watch.rs:488-492 | a recorded event stays recorded until a cycle takes it, and is never recorded again |
| FsWatch.Coalesced | crates/rotor_cli/src/fswatch.rs:177-221 | for every true history of a path: an update if it exists at the end; a deletion if not, and it existed before or was removed more than once; else nothing |
| FsWatch.FlickerReported | crates/rotor_cli/src/fswatch.rs:178-194 | created, removed, created and removed again, an absent path is reported deleted |
| FsWatch.BatchMeans | crates/rotor_cli/src/fswatch.rs:207-221 | the same of every path of a drained batch, one event a path |
| FsWatch.EventList.Note | crates/rotor_cli/src/fswatch.rs:178-194 | keeps the entries those of the batch, path by path |
| FsWatch.EventList.Drain | crates/rotor_cli/src/fswatch.rs:207-221 | empties the list and gives one event for each entry that is not created and deleted, in the order of the paths |
| FsWatch.DirWatch.Record | crates/rotor_cli/src/fswatch.rs:480-507 | takes nothing once dead; a directory that went away is removed, fails and dies |
| FsWatch.DirWatch.Fail | crates/rotor_cli/src/fswatch.rs:509-529 | the first error is kept; a terminal one ends the recording, and goes unreported exactly if an overflow is pending |
| FsWatch.OverflowHidesDeath | crates/rotor_cli/src/fswatch.rs:241-272 | an overflow and then a terminal error: the callbacks hear of the overflow, stay, and never hear more |
| FsWatch.DirWatch.TriggerCallbacks | crates/rotor_cli/src/fswatch.rs:241-272 | delivers the batch once to each callback, direct children only where not recursive, and ends the deliveries with a terminal error; a dead watch that keeps its callbacks is one whose error was hidden |
| FsWatch.DirectChildMeans | crates/rotor_cli/src/fswatch.rs:145-150 | a direct child is the directory, a slash and a name |
| FsWatch.NeverDropped | crates/rotor_cli/src/fswatch.rs:289-336 | in every interleaving before the close, undelivered changes have a trigger set or coming or a fire on its way to their watch; fires never exceed triggers |
| FsWatch.PendingMeans | crates/rotor_cli/src/fswatch.rs:289-336 | in every run a watch is there from its opening until it is shut, and has something undelivered exactly if it recorded something no fire visited since |
| FsWatch.IdleMeansDelivered | crates/rotor_cli/src/fswatch.rs:304-336 | idle and untriggered, everything recorded was delivered |
| FsWatch.ChangeReachesDelivery | crates/rotor_cli/src/fswatch.rs:289-336 | from every reachable state with the debouncer open, steps of its own threads deliver any recorded change |
| FsWatch.SettledBeforeFire | crates/rotor_cli/src/fswatch.rs:317-329 | the settling wait fires only if nothing triggered during it |
| FsWatch.FiresOnlyThen | crates/rotor_cli/src/fswatch.rs:304-336 | a fire begins exactly when a trigger is found after a quiet time or the settling wait runs out, and takes everything pending; a trigger found sooner starts that wait |
| Polling.DiffStamps | crates/rotor_cli/src/watch.rs:250-259 | each path added, removed or stamped otherwise, once, sorted by its text; none exactly for equal snapshots |
| Order.BeforeMeans | crates/rotor_cli/src/watch.rs:250-259 | where two texts part, the one with the lower character, or with none, comes first |
| Polling.SettleChanges | crates/rotor_cli/src/watch.rs:263-283 | takes the settling's snapshots and names exactly what differs from the baseline, nothing only if the settled snapshot is the baseline |
| Polling.SettleMeans | crates/rotor_cli/src/watch.rs:263-283 | settling takes at most ten snapshots, up to the first that repeats the one before it |
| Polling.PollOnce | crates/rotor_cli/src/watch.rs:287-310 | a poll ends on its snapshot if that is the baseline and on its settled one otherwise |
| Polling.AwaitChanges | crates/rotor_cli/src/watch.rs:287-310 | nothing if every poll before the stop settles on the baseline, and otherwise the snapshot the first other poll settles on, with exactly what differs from the baseline |
| Polling.BuildWatchLoop | crates/rotor_cli/src/watch.rs:428-478 | over a whole session each build names exactly what differs between the baseline from before the last build and the settled snapshot |
| Polling.CheckWatchLoop | crates/rotor_cli/src/watch.rs:483-516 | the same of checks, whose baseline keeps the stamps from before the check of the files read again |
| Polling.ChangeSeen | crates/rotor_cli/src/watch.rs:428-516 | a change since before a run differs from the next baseline exactly if the path has a stamp from before the run, or none from after it, or changed after that one |
| Polling.EditNamed | crates/rotor_cli/src/watch.rs:428-516 | an edit made during a run and still there when a poll settles, the polls before having settled back, is named by the next run, started from that snapshot, exactly in that case |
| Polling.FirstCheckAbsorbs | crates/rotor_cli/src/watch.rs:488-512 | an edit made while the first check runs starts no second one |
| Polling.NewExtraAbsorbs | crates/rotor_cli/src/watch.rs:450-454 | nor does an edit to an extra file that the build is the first to have watched |
| Polling.UntouchedStartsNone | crates/rotor_cli/src/watch.rs:436-476 | an untouched tree starts no build exactly when the directories and extra files known after a build give the view known before it |
| Polling.ExtraInsideRestarts | crates/rotor_cli/src/watch.rs:436-476 | an extra file inside a skipped directory makes every build of an untouched tree start another |
| Polling.WalkLists | crates/rotor_cli/src/watch.rs:173-205 | a walk that skips no directory lists exactly the files that stand there along directories not left out by name, with their stamps |
| Polling.PruneMeans | crates/rotor_cli/src/watch.rs:330-338 | pruning keeps exactly the files that no skipped directory is or holds, names compared by the case rule |
| Polling.WalkCuts | crates/rotor_cli/src/watch.rs:173-205 | walking with skipped directories leaves out exactly the files below them |
| Polling.PruneIsWalk | crates/rotor_cli/src/watch.rs:330-338 | pruning a full snapshot equals walking with the skipped directories exactly when each of its files that stands at a skipped path, or has its root in a skipped directory, also lies in one below the root |
| Polling.FileAtSkippedPath | crates/rotor_cli/src/watch.rs:330-338 | a plain file at a skipped path is walked and pruned |
| BuildServer.RunKeeps | crates/rotor_cli/src/buildapi.rs:401-830 | in every interleaving of the reader, the build threads and the calls, one active build, the thread count, the responses, the callbacks and the shutdown stay consistent |
| BuildServer.RunGoesOn | crates/rotor_cli/src/buildapi.rs:401-830 | every enabled step extends a run |
| BuildServer.OneBuildAtATime | crates/rotor_cli/src/buildapi.rs:610-658 | two builds never run at once, whatever the client sends |
| BuildServer.EveryRequestAnsweredOnce | crates/rotor_cli/src/buildapi.rs:411-477 | every request is answered at most once, under its id, and once when the reader has ended |
| BuildAnswers.CodesMean | crates/rotor_cli/src/buildapi.rs:411-670 | each response has, by the history of the run, its request's code: already or not initialized, refused parameters, build in progress, a thread that did not start, how the build ended, the shutdown, an unknown method, and each only then |
| BuildAnswers.FinishAnswered | crates/rotor_cli/src/buildapi.rs:651-658 | a build that succeeded is answered with its result, one that failed as failed, one that was cancelled as cancelled unless the session ended with an error while it was active, and then as failed |
| BuildAnswers.StopReachesBuild | crates/rotor_cli/src/buildapi.rs:405-409 | a build is told to stop exactly if a shutdown or the session's end found it active |
| BuildAnswers.CheckFindsFailure | crates/rotor_cli/src/buildapi.rs:470-472 | the session fails after a request exactly if a response could not be written |
| BuildServer.EndsAfterBuilds | crates/rotor_cli/src/buildapi.rs:780-786 | waiting for the builds ends only when every build thread has left |
| BuildServer.ShutdownAnsweredLast | crates/rotor_cli/src/buildapi.rs:463-468 | a shutdown is answered after every other request, and nothing after it |
| BuildServer.AnswerReachesItsCall | crates/rotor_cli/src/buildapi.rs:672-765 | an answer goes to the one call that made its callback id, once; an unknown id ends the session |
| BuildServer.SessionEnds | crates/rotor_cli/src/buildapi.rs:411-477 | from every reachable state that is shutting down or over, once the builds return, the server's own steps end the session with every request answered |
| BuildSession.Session.Request | api.js:266-298 | allocates the next id and waits for it, or refuses after a terminal error; a failed write rejects at once |
| BuildSession.Session.Receive | api.js:304-341 | settles the promise of a pending id and fails the session on any other |
| BuildSession.Session.Fail | api.js:392-401 | the first error rejects everything pending; later ones change nothing |
| BuildSession.Session.FinishAbort | api.js:408-427 | after the child exits everything pending is rejected as cancelled |
| BuildSession.NeverInProgress | api.js:184-203 | composed with the server, this client is never told a build is in progress and never gets a response it did not wait for |
| BuildSession.SettlesOnce | api.js:266-427 | ids grow with every request, and each is pending or settled once |
| BuildSession.PromiseTold | api.js:266-341 | a promise settled with a code is the one of the request with that id, and the server answered that request so |
| BuildSession.PipeInOrder | crates/rotor_cli/src/buildapi.rs:796-822 | the responses the server wrote are, in order, those the client read and those still in the pipe: none lost, doubled or overtaken |
| BuildSession.TerminalIsQuiet | api.js:266-267 | after a terminal error the error stays, and whatever the queue still asks for, no id is given out and no request enters the pipe |
| BuildSession.RunKeeps | api.js:184-427 | in every interleaving of both ends at most one request is under way: in a pipe, at the server, or answered |
| CrossProject.OverlapMeans | crates/rotor_compile/src/crossproject.rs:419-442 | write roots overlap exactly when some place lies below one of each |
| CrossProject.DeriveWaitOnlyDependencies | crates/rotor_compile/src/crossproject.rs:395-416 | each project waits, in order, for the earlier ones whose write roots overlap its own, and only those |
| CrossProject.WaitsInOrder | crates/rotor_compile/src/crossproject.rs:395-416 | a project's edges are in the order of the projects |
| CrossProject.StartsAfter | crates/rotor_compile/src/crossproject.rs:393-416 | in every schedule a project starts only after everything it references or waits for has finished |
| CrossProject.WaitsExactly | crates/rotor_compile/src/crossproject.rs:395-416 | an edge joins two projects if and only if their roots overlap, later to earlier |
| CrossProject.OverlappingNeverTogether | crates/rotor_compile/src/crossproject.rs:393-416 | no schedule that respects the edges runs two overlapping writers at once |
| CrossProject.NeverStuck | crates/rotor_compile/src/crossproject.rs:393-416 | with dependency-ordered projects the edges close no cycle: while a project is left, one runs or can start |
| CrossProject.VisitReference | crates/rotor_compile/src/crossproject.rs:182-204 | ends on any graph, adds only what the project reaches, each once, and without a cycle after its own references |
| CrossProject.VisitAll | crates/rotor_compile/src/crossproject.rs:136-150 | merges exactly the transitively referenced projects, each once |
| GroupedEmit.DeclarationEmitOrder | crates/rotor_compile/src/output.rs:950-960 | the indices, each once, sorted stably by place in the program |
| GroupedEmit.GroupByChecker | crates/rotor_compile/src/output.rs:932-946 | one ascending group for each checker, holding exactly its files, in order of the first |
| GroupedEmit.EmitGroups | crates/rotor_compile/src/output.rs:869-880 | every interleaving of the groups gives each file the text of the serial run |
| GroupedEmit.EmitDeclarationTexts | crates/rotor_compile/src/output.rs:853-900 | the result is that of the serial run in program order, collected in the order given |
| GroupedEmit.CollectedMeans | crates/rotor_compile/src/output.rs:881-900 | without a diagnostic the collected result is the files' texts one after the other, otherwise their diagnostics, in the order given |
| GroupedEmit.GivenOrderIrrelevant | crates/rotor_compile/src/output.rs:850-852 | given the same files in another order, every file gets the same texts |

## Left out

- Vlq.AppendVlq: asks that the loop ends, which `Vlq.EncoderEnds` says when; a build that checks overflow stops at the least value instead.
- Mappings.ShiftMappingColumns: asks that every re-encoded difference lies below 2^62 in magnitude, since on others the source's encoder does not end (`Vlq.EncoderEnds`), and adds columns as unbounded integers where the source uses 64-bit ones.
- Mappings.RewriteMovesColumns: asks the same of the differences.
- DeclMap.MapStillPoints: asks the same of the differences.
- DeclMap.ShiftDeclarationMapColumns: asks the same of the map's mappings when there is a shift; the empty `sourceRoot` that is put back beside it is not modelled.
- TextEdits.ApplyTextEdits: asks that offsets lie on character boundaries of the text, as the source's slicing does.
- GoJsonParser.ParseDocument: reads characters, so invalid UTF-8 bytes and the wording of errors are not part of this model.
- ManifestJson.ManifestRoundTrip: the path conversion applied before encoding and after reading is not part of this model.
- Signature.NarrowedIsCold: asks that the records of files that were there before are of their declarations then, and that an unchanged file comes to reference a new source with a recorded output key only in the place of one that is gone.
- OutputWriter.Writer.Write: outputs are regular files or absent, and write errors and the confinement to the project directory are not modelled.
- Coverage.SolutionWatches.Refresh: Windows volumes, Unicode normalisation and the OS watcher itself are not modelled; a watch is its handle.
- BuildServer.SessionEnds: that a build function returns is assumed.
- BuildServer.RunKeeps: parameters are decoded elsewhere, a request carries only whether and how it is refused; timing of the callback poll and a panic's process exit are not modelled.
- GroupedEmit.EmitDeclarationTexts: abandoning an emit half way, which discards it, is not modelled.
- The event sets of one cycle and what a cycle compiles: only which events reach which cycle.
- The copy-files manifest's JSON, the Rojo caches and the copying itself.
- Path canonicalisation, the `project://` path encoding and the order of manifest paths.
- The checker, the transformer, Rojo and Flamework, which are abstract here.
- Terminal output, options, documentation and release scripts.
