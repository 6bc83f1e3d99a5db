/**
 * The narrower selection by declaration signature (`incremental_signature.rs`): a change stops at a
 * source file whose declaration still hashes to the one recorded last time.
 */
module Signature {

  import opened Common
  import opened Incremental

  /** One emitted declaration: the source it is of, the key of its output, its text. */
  datatype Declaration = Declaration(source: string, key: string, text: string)

  /**
   * The declaration emit of a program: which sources have a declaration, its text and its output
   * key (empty when there is none), and which waves fail. `hash` is the text's digest.
   */
  datatype Emitter = Emitter(texts: map<string, string>, key: string -> string, hash: string -> string,
                             fails: seq<string> -> bool)

  function EmitAll(wave: seq<string>, emitter: Emitter): seq<Declaration> {
    if wave == [] then []
    else
      (if wave[0] in emitter.texts then [Declaration(wave[0], emitter.key(wave[0]), emitter.texts[wave[0]])] else []) +
      EmitAll(wave[1..], emitter)
  }

  function Emit(wave: seq<string>, emitter: Emitter): Option<seq<Declaration>> {
    if emitter.fails(wave) then None else Some(EmitAll(wave, emitter))
  }

  /** The texts of a wave under their output keys, the last one winning. */
  function Texts(emitted: seq<Declaration>): map<string, string> {
    if emitted == [] then map[]
    else
      var last := emitted[|emitted| - 1];
      Texts(emitted[..|emitted| - 1])[last.key := last.text]
  }

  /** `signature_held` */
  predicate SignatureHeld(source: string, emitter: Emitter, outputs: map<string, string>, texts: map<string, string>) {
    var key := emitter.key(source);
    key != "" && key in outputs && key in texts && emitter.hash(texts[key]) == outputs[key]
  }

  /** The file's own declaration hashes to the recorded one. */
  predicate Held(source: string, emitter: Emitter, outputs: map<string, string>) {
    var key := emitter.key(source);
    key != "" && key in outputs && source in emitter.texts && emitter.hash(emitter.texts[source]) == outputs[key]
  }

  /** Two sources never share an output key. */
  ghost predicate OwnKeys(sources: seq<string>, emitter: Emitter) {
    forall a, b | a in sources && b in sources && emitter.key(a) == emitter.key(b) && emitter.key(a) != "" :: a == b
  }

  lemma {:induction false} TextsOf(emitted: seq<Declaration>, key: string)
    ensures key in Texts(emitted) <==> exists d | d in emitted :: d.key == key
    ensures key in Texts(emitted) ==> exists d | d in emitted :: d.key == key && d.text == Texts(emitted)[key]
  {
    if emitted != [] {
      var front, last := emitted[..|emitted| - 1], emitted[|emitted| - 1];
      assert emitted == front + [last];
      TextsOf(front, key);
      if last.key == key {
        assert last in emitted;
      }
    }
  }

  lemma {:induction false} EmitAllOf(wave: seq<string>, emitter: Emitter)
    ensures forall d :: d in EmitAll(wave, emitter) <==>
              d.source in wave && d.source in emitter.texts &&
              d == Declaration(d.source, emitter.key(d.source), emitter.texts[d.source])
  {
    if wave != [] {
      EmitAllOf(wave[1..], emitter);
      assert wave == [wave[0]] + wave[1..];
    }
  }

  /** Looking a file up among its wave's texts finds its own declaration. */
  lemma HeldInWave(wave: seq<string>, source: string, sources: seq<string>, emitter: Emitter, outputs: map<string, string>)
    requires source in wave && (forall s | s in wave :: s in sources) && OwnKeys(sources, emitter)
    ensures SignatureHeld(source, emitter, outputs, Texts(EmitAll(wave, emitter))) <==> Held(source, emitter, outputs)
  {
    var emitted, key := EmitAll(wave, emitter), emitter.key(source);
    EmitAllOf(wave, emitter);
    TextsOf(emitted, key);
    if source in emitter.texts {
      assert Declaration(source, key, emitter.texts[source]) in emitted;
    }
    if key != "" && key in Texts(emitted) {
      var d :| d in emitted && d.key == key && d.text == Texts(emitted)[key];
      assert d.source == source;
    }
  }

  // ---- The waves ---------------------------------------------------------------------------

  /** A change at `path` goes on to its importers: it is no source file, or its declaration changed. */
  predicate Spreads(path: string, sources: seq<string>, emitter: Emitter, outputs: map<string, string>) {
    path !in sources || !Held(path, emitter, outputs)
  }

  function Spreading(sources: seq<string>, emitter: Emitter, outputs: map<string, string>): string -> bool {
    path => Spreads(path, sources, emitter, outputs)
  }

  /** What the propagation selects: the paths the seeds reach through spreading ones. */
  ghost predicate Narrowed(seeds: set<string>, path: string, sources: seq<string>, current: Manifest, previous: Manifest,
                           emitter: Emitter, outputs: map<string, string>) {
    Reached(seeds, path, current, previous, Spreading(sources, emitter, outputs))
  }

  /**
   * Why a path is in the narrowed selection. The seeds are. A file that references a selected path, now
   * or at the previous build, is selected unless that path is a source whose declaration hashes to the
   * recorded one. Nothing else is.
   */
  lemma NarrowedMeans(seeds: set<string>, path: string, sources: seq<string>, current: Manifest, previous: Manifest,
                      emitter: Emitter, outputs: map<string, string>)
    ensures Narrowed(seeds, path, sources, current, previous, emitter, outputs) <==>
            path in seeds ||
            exists p | Narrowed(seeds, p, sources, current, previous, emitter, outputs) ::
              ((path in current.files && p in current.files[path].refs) ||
               (path in previous.files && p in previous.files[path].refs)) &&
              !(p in sources && p in emitter.texts && emitter.key(p) != "" && emitter.key(p) in outputs &&
                emitter.hash(emitter.texts[p]) == outputs[emitter.key(p)])
  {
    var pass := Spreading(sources, emitter, outputs);
    if path in seeds {
      SeedReached(seeds, path, current, previous, pass);
    } else if Reached(seeds, path, current, previous, pass) {
      var p := LastLink(seeds, path, current, previous, pass);
      assert Narrowed(seeds, p, sources, current, previous, emitter, outputs);
    }
    forall p | Narrowed(seeds, p, sources, current, previous, emitter, outputs) && pass(p) && Links(current, previous, p, path)
      ensures Narrowed(seeds, path, sources, current, previous, emitter, outputs)
    {
      ReachedNext(seeds, p, path, current, previous, pass);
    }
  }

  /** The path whose change a reached one takes over. */
  ghost function LastLink(seeds: set<string>, path: string, current: Manifest, previous: Manifest, pass: string -> bool): (p: string)
    requires Reached(seeds, path, current, previous, pass) && path !in seeds
    ensures Reached(seeds, p, current, previous, pass) && pass(p) && Links(current, previous, p, path)
  {
    var chain :| ChainFrom(chain, seeds, path, current, previous, pass);
    var shorter := chain[..|chain| - 1];
    assert chain[|chain| - 2] == shorter[|shorter| - 1] && pass(shorter[|shorter| - 1]);
    assert ChainFrom(shorter, seeds, shorter[|shorter| - 1], current, previous, pass);
    shorter[|shorter| - 1]
  }

  /**
   * Between waves: what is selected or pending is reached, the seeds are among them, and so is every
   * importer of a selected path that spreads.
   */
  ghost predicate Propagating(selected: set<string>, pending: seq<string>, seeds: set<string>, pass: string -> bool,
                              current: Manifest, previous: Manifest) {
    (forall p | p in selected || p in pending :: Reached(seeds, p, current, previous, pass)) &&
    (forall p | p in seeds :: p in selected || p in pending) &&
    (forall p, q :: p in selected && pass(p) && Links(current, previous, p, q) ==> q in selected || q in pending)
  }

  predicate Unique<T(==)>(s: seq<T>) {
    forall i, j | 0 <= i < j < |s| :: s[i] != s[j]
  }

  /**
   * Inside a wave: as above, but for the sources of the wave, whose declarations are still to be
   * compared.
   */
  ghost predicate MidWave(selected: set<string>, wave: seq<string>, paths: seq<string>, pending: seq<string>,
                          seeds: set<string>, pass: string -> bool, current: Manifest, previous: Manifest) {
    (forall p | p in selected || p in pending || p in paths :: Reached(seeds, p, current, previous, pass)) &&
    (forall p | p in seeds :: p in selected || p in pending || p in paths) &&
    (forall p, q :: p in selected && p !in wave && pass(p) && Links(current, previous, p, q) ==>
       q in selected || q in pending || q in paths)
  }

  lemma Spread(path: string, more: seq<string>, seeds: set<string>, pass: string -> bool,
               current: Manifest, previous: Manifest)
    requires Reached(seeds, path, current, previous, pass) && pass(path)
    requires forall q | q in more :: Links(current, previous, path, q)
    ensures forall q | q in more :: Reached(seeds, q, current, previous, pass)
  {
    forall q | q in more ensures Reached(seeds, q, current, previous, pass) {
      ReachedNext(seeds, path, q, current, previous, pass);
    }
  }

  lemma ImportersLinked(reverse: map<string, seq<string>>, path: string, current: Manifest, previous: Manifest)
    requires Reverses(reverse, current, previous)
    ensures forall q :: q in ImportersOf(reverse, path) <==> Links(current, previous, path, q)
  {
    forall q ensures q in ImportersOf(reverse, path) <==> Links(current, previous, path, q) {
      assert q in ImportersOf(reverse, path) <==> Lists(reverse, path, q);
    }
  }

  lemma TakenSource(path: string, rest: seq<string>, selected: set<string>, wave: seq<string>, pending: seq<string>,
                    seeds: set<string>, pass: string -> bool, current: Manifest, previous: Manifest)
    requires MidWave(selected, wave, [path] + rest, pending, seeds, pass, current, previous)
    ensures MidWave(selected + {path}, wave + [path], rest, pending, seeds, pass, current, previous)
  {
    assert forall p :: p in [path] + rest <==> p == path || p in rest;
  }

  lemma TakenOther(path: string, rest: seq<string>, selected: set<string>, wave: seq<string>, pending: seq<string>,
                   more: seq<string>, seeds: set<string>, pass: string -> bool, current: Manifest, previous: Manifest)
    requires MidWave(selected, wave, [path] + rest, pending, seeds, pass, current, previous)
    requires path !in wave && pass(path) && forall q :: q in more <==> Links(current, previous, path, q)
    ensures MidWave(selected + {path}, wave, rest, pending + more, seeds, pass, current, previous)
  {
    assert forall p :: p in [path] + rest <==> p == path || p in rest;
    Spread(path, more, seeds, pass, current, previous);
  }

  lemma TakenAgain(path: string, rest: seq<string>, selected: set<string>, wave: seq<string>, pending: seq<string>,
                   seeds: set<string>, pass: string -> bool, current: Manifest, previous: Manifest)
    requires MidWave(selected, wave, [path] + rest, pending, seeds, pass, current, previous) && path in selected
    ensures MidWave(selected, wave, rest, pending, seeds, pass, current, previous)
  {
    assert forall p :: p in [path] + rest <==> p == path || p in rest;
  }

  /** The sources first selected in this wave, once each. */
  ghost predicate IsWave(wave: seq<string>, before: set<string>, selected: set<string>, sources: seq<string>) {
    Unique(wave) && before <= selected && forall p :: p in wave <==> p in selected && p !in before && p in sources
  }

  function Members(paths: seq<string>): set<string> {
    set p | p in paths
  }

  lemma NextPath(paths: seq<string>, index: nat)
    requires index < |paths|
    ensures paths[index..] == [paths[index]] + paths[index + 1..]
    ensures Members(paths[..index + 1]) == Members(paths[..index]) + {paths[index]}
  {
    assert paths[..index + 1] == paths[..index] + [paths[index]];
  }

  lemma WaveBegins(before: set<string>, paths: seq<string>, seeds: set<string>, pass: string -> bool,
                   current: Manifest, previous: Manifest)
    requires Propagating(before, paths, seeds, pass, current, previous)
    ensures MidWave(before, [], paths, [], seeds, pass, current, previous)
  {
  }

  /** Selects the pending paths: sources into the wave, the importers of others to the next one. */
  method TakeWave(paths: seq<string>, before: set<string>, sources: seq<string>, reverse: map<string, seq<string>>,
                  ghost seeds: set<string>, ghost pass: string -> bool, ghost current: Manifest, ghost previous: Manifest)
    returns (selected: set<string>, wave: seq<string>, pending: seq<string>)
    requires Propagating(before, paths, seeds, pass, current, previous) && Reverses(reverse, current, previous)
    requires forall p | p !in sources :: pass(p)
    ensures IsWave(wave, before, selected, sources)
    ensures MidWave(selected, wave, [], pending, seeds, pass, current, previous)
    ensures selected == before + Members(paths)
    ensures selected == before ==> pending == [] && wave == []
  {
    hide MidWave, Propagating, Reached, Links;
    selected, wave, pending := before, [], [];
    var index := 0;
    assert paths[index..] == paths;
    WaveBegins(before, paths, seeds, pass, current, previous);
    while index < |paths|
      invariant 0 <= index <= |paths|
      invariant IsWave(wave, before, selected, sources)
      invariant MidWave(selected, wave, paths[index..], pending, seeds, pass, current, previous)
      invariant selected == before + Members(paths[..index])
      invariant selected == before ==> pending == [] && wave == []
    {
      var path := paths[index];
      NextPath(paths, index);
      if path in selected {
        TakenAgain(path, paths[index + 1..], selected, wave, pending, seeds, pass, current, previous);
      } else if path in sources {
        TakenSource(path, paths[index + 1..], selected, wave, pending, seeds, pass, current, previous);
        selected, wave := selected + {path}, wave + [path];
      } else {
        ImportersLinked(reverse, path, current, previous);
        TakenOther(path, paths[index + 1..], selected, wave, pending, ImportersOf(reverse, path), seeds, pass, current, previous);
        selected, pending := selected + {path}, pending + ImportersOf(reverse, path);
      }
      index := index + 1;
    }
    assert paths[..index] == paths && paths[index..] == [];
  }

  lemma Compared(path: string, rest: seq<string>, selected: set<string>, pending: seq<string>, more: seq<string>,
                 seeds: set<string>, pass: string -> bool, current: Manifest, previous: Manifest)
    requires MidWave(selected, [path] + rest, [], pending, seeds, pass, current, previous) && path in selected
    requires if pass(path) then forall q :: q in more <==> Links(current, previous, path, q) else more == []
    ensures MidWave(selected, rest, [], pending + more, seeds, pass, current, previous)
  {
    assert forall p :: p in [path] + rest <==> p == path || p in rest;
    if pass(path) {
      Spread(path, more, seeds, pass, current, previous);
    }
  }

  /** Adds the importers of the wave's sources whose declaration changed. */
  method CompareWave(wave: seq<string>, ghost selected: set<string>, before: seq<string>, texts: map<string, string>,
                     sources: seq<string>, reverse: map<string, seq<string>>, emitter: Emitter, outputs: map<string, string>,
                     ghost seeds: set<string>, ghost current: Manifest, ghost previous: Manifest)
    returns (pending: seq<string>)
    requires MidWave(selected, wave, [], before, seeds, Spreading(sources, emitter, outputs), current, previous)
    requires Reverses(reverse, current, previous) && forall p | p in wave :: p in selected && p in sources
    requires forall p | p in wave :: SignatureHeld(p, emitter, outputs, texts) <==> Held(p, emitter, outputs)
    ensures Propagating(selected, pending, seeds, Spreading(sources, emitter, outputs), current, previous)
    ensures wave == [] ==> pending == before
  {
    ghost var pass := Spreading(sources, emitter, outputs);
    pending := before;
    var index := 0;
    assert wave[index..] == wave;
    while index < |wave|
      invariant 0 <= index <= |wave|
      invariant MidWave(selected, wave[index..], [], pending, seeds, pass, current, previous)
      invariant wave == [] ==> pending == before
    {
      var file := wave[index];
      assert wave[index..] == [file] + wave[index + 1..];
      ImportersLinked(reverse, file, current, previous);
      if SignatureHeld(file, emitter, outputs, texts) {
        Compared(file, wave[index + 1..], selected, pending, [], seeds, pass, current, previous);
        assert pending + [] == pending;
      } else {
        Compared(file, wave[index + 1..], selected, pending, ImportersOf(reverse, file), seeds, pass, current, previous);
        pending := pending + ImportersOf(reverse, file);
      }
      index := index + 1;
    }
    assert wave[index..] == [];
  }

  // ---- Each source emitted once ------------------------------------------------------------

  predicate OncePerSource(emitted: seq<Declaration>) {
    forall i, j | 0 <= i < j < |emitted| :: emitted[i].source != emitted[j].source
  }

  /** `emitted` is the declarations of the sources in `selected`, once each. */
  ghost predicate EmittedOnce(emitted: seq<Declaration>, selected: set<string>, sources: seq<string>, emitter: Emitter) {
    OncePerSource(emitted) &&
    forall d :: d in emitted <==>
      d.source in selected && d.source in sources && d.source in emitter.texts &&
      d == Declaration(d.source, emitter.key(d.source), emitter.texts[d.source])
  }

  lemma {:induction false} EmitAllUnique(wave: seq<string>, emitter: Emitter)
    requires Unique(wave)
    ensures OncePerSource(EmitAll(wave, emitter))
  {
    if wave != [] {
      assert forall i | 0 < i < |wave| :: wave[0] != wave[i];
      EmitAllUnique(wave[1..], emitter);
      EmitAllOf(wave[1..], emitter);
      var rest := EmitAll(wave[1..], emitter);
      forall j | 0 <= j < |rest| ensures rest[j].source != wave[0] {
        assert rest[j] in rest;
      }
      var all := EmitAll(wave, emitter);
      var k := |all| - |rest|;
      assert forall j | k <= j < |all| :: all[j] == rest[j - k];
      forall i, j | 0 <= i < j < |all| ensures all[i].source != all[j].source {
        if i < k {
          assert all[i].source == wave[0] && rest[j - k].source != wave[0];
        } else {
          assert rest[i - k].source != rest[j - k].source;
        }
      }
    }
  }

  lemma EmittedMore(emitted: seq<Declaration>, before: set<string>, selected: set<string>, wave: seq<string>,
                    sources: seq<string>, emitter: Emitter)
    requires EmittedOnce(emitted, before, sources, emitter) && IsWave(wave, before, selected, sources)
    ensures EmittedOnce(emitted + EmitAll(wave, emitter), selected, sources, emitter)
  {
    var more := EmitAll(wave, emitter);
    EmitAllUnique(wave, emitter);
    EmitAllOf(wave, emitter);
    forall i, j | 0 <= i < |emitted| && 0 <= j < |more| ensures emitted[i].source != more[j].source {
      assert emitted[i] in emitted && more[j] in more;
    }
  }

  // ---- Selection ---------------------------------------------------------------------------

  function Joined(waves: seq<seq<string>>): seq<string> {
    if waves == [] then [] else Joined(waves[..|waves| - 1]) + waves[|waves| - 1]
  }

  /** The waves hold the selected sources, each once. */
  ghost predicate Waved(waves: seq<seq<string>>, selected: set<string>, sources: seq<string>) {
    Unique(Joined(waves)) && forall p :: p in Joined(waves) <==> p in selected && p in sources
  }

  /** Which of the emitted waves failed: none, or the last one and no other. */
  ghost predicate WavesRan(waves: seq<seq<string>>, ok: bool, emitter: Emitter) {
    (!ok ==> waves != []) && forall i | 0 <= i < |waves| :: emitter.fails(waves[i]) <==> !ok && i == |waves| - 1
  }

  lemma WavedMore(waves: seq<seq<string>>, before: set<string>, wave: seq<string>, selected: set<string>, sources: seq<string>)
    requires Waved(waves, before, sources) && IsWave(wave, before, selected, sources)
    ensures Waved(waves + [wave], selected, sources)
    ensures wave == [] ==> Waved(waves, selected, sources)
  {
    var all := Joined(waves);
    assert (waves + [wave])[..|waves|] == waves;
    forall i, j | 0 <= i < |all| && 0 <= j < |wave| ensures all[i] != wave[j] {
      assert all[i] in all && wave[j] in wave;
    }
  }

  lemma RanMore(waves: seq<seq<string>>, wave: seq<string>, emitter: Emitter)
    requires WavesRan(waves, true, emitter)
    ensures WavesRan(waves + [wave], !emitter.fails(wave), emitter)
  {
  }

  lemma TakenWithin(paths: seq<string>, before: set<string>, seeds: set<string>, universe: set<string>,
                    current: Manifest, previous: Manifest)
    requires forall p | p in paths :: p in seeds || p in Universe(current, previous)
    requires before <= universe && seeds + Universe(current, previous) <= universe
    ensures before <= before + Members(paths) <= universe
  {
  }

  /** One wave of `select_by_declaration_signature`: none when its emit fails. */
  method Wave(paths: seq<string>, before: set<string>, sources: seq<string>, reverse: map<string, seq<string>>,
              emitter: Emitter, outputs: map<string, string>, ghost seeds: set<string>,
              ghost current: Manifest, ghost previous: Manifest)
    returns (emitted: Option<seq<Declaration>>, selected: set<string>, pending: seq<string>, ghost wave: seq<string>)
    requires Propagating(before, paths, seeds, Spreading(sources, emitter, outputs), current, previous)
    requires Reverses(reverse, current, previous) && OwnKeys(sources, emitter)
    ensures IsWave(wave, before, selected, sources)
    ensures forall p | p in selected :: Narrowed(seeds, p, sources, current, previous, emitter, outputs)
    ensures emitted.None? <==> wave != [] && emitter.fails(wave)
    ensures emitted.Some? ==>
              Propagating(selected, pending, seeds, Spreading(sources, emitter, outputs), current, previous) &&
              selected == before + Members(paths) && (selected == before ==> pending == []) &&
              emitted.value == EmitAll(wave, emitter)
  {
    ghost var pass := Spreading(sources, emitter, outputs);
    var files;
    selected, files, pending := TakeWave(paths, before, sources, reverse, seeds, pass, current, previous);
    wave := files;
    if files == [] {
      assert EmitAll(files, emitter) == [];
      return Some([]), selected, pending, wave;
    }
    emitted := Emit(files, emitter);
    if emitted.None? {
      return;
    }
    forall p | p in wave ensures SignatureHeld(p, emitter, outputs, Texts(emitted.value)) <==> Held(p, emitter, outputs) {
      HeldInWave(wave, p, sources, emitter, outputs);
    }
    pending := CompareWave(files, selected, pending, Texts(emitted.value), sources, reverse, emitter, outputs,
                           seeds, current, previous);
  }

  /** A wave, and the declarations emitted so far with its own. */
  method NextWave(paths: seq<string>, before: set<string>, emitted: seq<Declaration>, sources: seq<string>,
                  reverse: map<string, seq<string>>, emitter: Emitter, outputs: map<string, string>,
                  ghost waves: seq<seq<string>>, ghost seeds: set<string>, ghost universe: set<string>,
                  ghost current: Manifest, ghost previous: Manifest)
    returns (ok: bool, selected: set<string>, pending: seq<string>, declarations: seq<Declaration>,
             ghost more: seq<seq<string>>)
    requires paths != [] && Propagating(before, paths, seeds, Spreading(sources, emitter, outputs), current, previous)
    requires Reverses(reverse, current, previous) && OwnKeys(sources, emitter)
    requires EmittedOnce(emitted, before, sources, emitter) && before <= universe && seeds + Universe(current, previous) <= universe
    requires WavesRan(waves, true, emitter) && Waved(waves, before, sources)
    ensures WavesRan(more, ok, emitter) && Waved(more, selected, sources)
    ensures forall p | p in selected :: Narrowed(seeds, p, sources, current, previous, emitter, outputs)
    ensures ok ==>
              Propagating(selected, pending, seeds, Spreading(sources, emitter, outputs), current, previous) &&
              EmittedOnce(declarations, selected, sources, emitter) && selected <= universe &&
              (|universe - selected| < |universe - before| || (selected == before && pending == []))
  {
    hide Propagating, Reverses, OwnKeys, EmittedOnce, Waved, WavesRan, Narrowed, IsWave;
    var now;
    ghost var wave;
    now, selected, pending, wave := Wave(paths, before, sources, reverse, emitter, outputs, seeds, current, previous);
    WavedMore(waves, before, wave, selected, sources);
    RanMore(waves, wave, emitter);
    more := if wave == [] then waves else waves + [wave];
    if now.None? {
      return false, selected, pending, emitted, more;
    }
    ReachedInUniverse(before, paths, seeds, Spreading(sources, emitter, outputs), current, previous);
    EmittedMore(emitted, before, selected, wave, sources, emitter);
    TakenWithin(paths, before, seeds, universe, current, previous);
    if before < selected {
      Shrinks(universe, before, selected);
    }
    return true, selected, pending, emitted + now.value, more;
  }

  /** Between waves: the selection is propagated so far, and its sources are emitted, each once. */
  ghost predicate Selecting(chosen: set<string>, pending: seq<string>, declarations: seq<Declaration>, waves: seq<seq<string>>,
                            sources: seq<string>, seeds: set<string>, emitter: Emitter, outputs: map<string, string>,
                            current: Manifest, previous: Manifest) {
    Propagating(chosen, pending, seeds, Spreading(sources, emitter, outputs), current, previous) &&
    EmittedOnce(declarations, chosen, sources, emitter) && chosen <= seeds + Universe(current, previous) &&
    WavesRan(waves, true, emitter) && Waved(waves, chosen, sources)
  }

  /** The emit of a wave failed: the last of those that ran, all of reached sources. */
  ghost predicate Failed(chosen: set<string>, waves: seq<seq<string>>, sources: seq<string>, seeds: set<string>,
                         emitter: Emitter, outputs: map<string, string>, current: Manifest, previous: Manifest) {
    WavesRan(waves, false, emitter) && Waved(waves, chosen, sources) &&
    forall p | p in chosen :: Narrowed(seeds, p, sources, current, previous, emitter, outputs)
  }

  /** One turn of the loop. */
  method Advance(paths: seq<string>, before: set<string>, emitted: seq<Declaration>, ghost waves: seq<seq<string>>,
                 sources: seq<string>, reverse: map<string, seq<string>>, emitter: Emitter, outputs: map<string, string>,
                 ghost seeds: set<string>, ghost current: Manifest, ghost previous: Manifest)
    returns (ok: bool, selected: set<string>, pending: seq<string>, declarations: seq<Declaration>,
             ghost more: seq<seq<string>>)
    requires paths != [] && Selecting(before, paths, emitted, waves, sources, seeds, emitter, outputs, current, previous)
    requires Reverses(reverse, current, previous) && OwnKeys(sources, emitter)
    ensures if ok then Selecting(selected, pending, declarations, more, sources, seeds, emitter, outputs, current, previous)
            else Failed(selected, more, sources, seeds, emitter, outputs, current, previous)
    ensures ok ==> var universe := seeds + Universe(current, previous);
                   |universe - selected| < |universe - before| || (selected == before && pending == [])
  {
    ghost var universe := seeds + Universe(current, previous);
    hide Propagating, EmittedOnce, WavesRan, Waved, Narrowed, Reverses, OwnKeys, Universe;
    ok, selected, pending, declarations, more :=
      NextWave(paths, before, emitted, sources, reverse, emitter, outputs, waves, seeds, universe, current, previous);
  }

  /** Wave after wave, until nothing is pending or an emit fails. */
  method Propagate(sources: seq<string>, seeds: set<string>, reverse: map<string, seq<string>>,
                   emitter: Emitter, outputs: map<string, string>, ghost current: Manifest, ghost previous: Manifest)
    returns (ok: bool, chosen: set<string>, declarations: seq<Declaration>, ghost waves: seq<seq<string>>)
    requires Reverses(reverse, current, previous) && OwnKeys(sources, emitter)
    ensures if ok then Selecting(chosen, [], declarations, waves, sources, seeds, emitter, outputs, current, previous)
            else Failed(chosen, waves, sources, seeds, emitter, outputs, current, previous)
  {
    ok, chosen, declarations, waves := true, {}, [], [];
    var pending := Sequence(seeds);
    hide Selecting, Failed, Reverses, OwnKeys;
    SelectingBegins(seeds, pending, sources, emitter, outputs, current, previous);
    while pending != []
      invariant ok && Selecting(chosen, pending, declarations, waves, sources, seeds, emitter, outputs, current, previous)
      decreases |seeds + Universe(current, previous) - chosen|, |pending|
    {
      ok, chosen, pending, declarations, waves :=
        Advance(pending, chosen, declarations, waves, sources, reverse, emitter, outputs, seeds, current, previous);
      if !ok {
        return;
      }
    }
  }

  /**
   * `select_by_declaration_signature`: selects the least set of paths with the seeds in it and the
   * importers of every member that spreads, and emits each selected source once. It fails exactly
   * when the emit of a wave of reached sources does.
   */
  method SelectByDeclarationSignature(sources: seq<string>, seeds: set<string>, current: Manifest, previous: Manifest,
                                      emitter: Emitter, outputs: map<string, string>)
    returns (r: Option<(seq<string>, seq<Declaration>)>, ghost selected: set<string>, ghost waves: seq<seq<string>>)
    requires OwnKeys(sources, emitter)
    ensures WavesRan(waves, r.Some?, emitter) && Waved(waves, selected, sources)
    ensures forall p | p in selected :: Narrowed(seeds, p, sources, current, previous, emitter, outputs)
    ensures r.Some? ==>
              r.value.0 == Keep(sources, selected) && EmittedOnce(r.value.1, selected, sources, emitter) &&
              forall p :: p in selected <==> Narrowed(seeds, p, sources, current, previous, emitter, outputs)
  {
    var reverse := ReverseGraph(current, previous);
    var ok, chosen, declarations;
    ok, chosen, declarations, waves := Propagate(sources, seeds, reverse, emitter, outputs, current, previous);
    selected := chosen;
    if !ok {
      return None, selected, waves;
    }
    NarrowedIsLeast(seeds, chosen, sources, current, previous, emitter, outputs);
    r := Some((Keep(sources, chosen), declarations));
  }

  /** With nothing pending, the selection is the least one closed under spreading. */
  lemma NarrowedIsLeast(seeds: set<string>, chosen: set<string>, sources: seq<string>, current: Manifest, previous: Manifest,
                        emitter: Emitter, outputs: map<string, string>)
    requires Propagating(chosen, [], seeds, Spreading(sources, emitter, outputs), current, previous)
    ensures forall p :: p in chosen <==> Narrowed(seeds, p, sources, current, previous, emitter, outputs)
  {
    ReachedIsLeast(seeds, chosen, current, previous, Spreading(sources, emitter, outputs));
  }

  lemma SelectingBegins(seeds: set<string>, pending: seq<string>, sources: seq<string>, emitter: Emitter,
                        outputs: map<string, string>, current: Manifest, previous: Manifest)
    requires forall p :: p in pending <==> p in seeds
    ensures Selecting({}, pending, [], [], sources, seeds, emitter, outputs, current, previous)
  {
    SeedsPropagate(seeds, pending, Spreading(sources, emitter, outputs), current, previous);
  }

  lemma SeedsPropagate(seeds: set<string>, pending: seq<string>, pass: string -> bool, current: Manifest, previous: Manifest)
    requires forall p :: p in pending <==> p in seeds
    ensures Propagating({}, pending, seeds, pass, current, previous)
  {
    forall p | p in seeds ensures Reached(seeds, p, current, previous, pass) {
      SeedReached(seeds, p, current, previous, pass);
    }
  }

  lemma ReachedInUniverse(selected: set<string>, pending: seq<string>, seeds: set<string>, pass: string -> bool,
                          current: Manifest, previous: Manifest)
    requires Propagating(selected, pending, seeds, pass, current, previous)
    ensures forall p | p in pending :: p in seeds || p in Universe(current, previous)
  {
    forall p | p in pending ensures p in seeds || p in Universe(current, previous) {
      var chain :| ChainFrom(chain, seeds, p, current, previous, pass);
      if |chain| > 1 {
        assert Links(current, previous, chain[|chain| - 2], chain[|chain| - 1]);
      }
    }
  }

  // ---- Narrowing ---------------------------------------------------------------------------

  /** The changed declaration files. */
  function ChangedDeclarations(changed: set<string>, isDeclaration: string -> bool): (r: set<string>)
    ensures forall p :: p in r <==> p in changed && isDeclaration(p)
  {
    set p | p in changed && isDeclaration(p)
  }

  /** `declaration_importers`: the changed declaration files and all that reaches them by imports. */
  method DeclarationImporters(changed: set<string>, current: Manifest, previous: Manifest, isDeclaration: string -> bool)
    returns (affected: set<string>)
    ensures forall p :: p in affected <==>
              exists d | d in changed && isDeclaration(d) :: Reached({d}, p, current, previous, ANYTHING)
  {
    var seeds := ChangedDeclarations(changed, isDeclaration);
    if seeds == {} {
      return {};
    }
    var reverse := ReverseGraph(current, previous);
    var queue := Sequence(seeds);
    affected := Search(seeds, seeds, queue, reverse, current, previous);
    forall p ensures p in affected <==> exists d | d in changed && isDeclaration(d) :: Reached({d}, p, current, previous, ANYTHING) {
      ReachedSplits(seeds, p, current, previous);
      ReachedFromOne(seeds, p, current, previous, ANYTHING);
      hide Reached;
      assert forall d :: d in seeds <==> d in changed && isDeclaration(d);
    }
  }

  /** What some paths reach, one of them does. */
  lemma ReachedFromOne(seeds: set<string>, path: string, current: Manifest, previous: Manifest, pass: string -> bool)
    ensures Reached(seeds, path, current, previous, pass) <==> exists d | d in seeds :: Reached({d}, path, current, previous, pass)
  {
    if Reached(seeds, path, current, previous, pass) {
      var chain :| ChainFrom(chain, seeds, path, current, previous, pass);
      assert ChainFrom(chain, {chain[0]}, path, current, previous, pass);
    }
    if d :| d in seeds && Reached({d}, path, current, previous, pass) {
      var chain :| ChainFrom(chain, {d}, path, current, previous, pass);
      assert ChainFrom(chain, seeds, path, current, previous, pass);
    }
  }

  /** What propagation starts from: the changed paths, the extra ones, and what a changed declaration file reaches. */
  ghost predicate Seeds(seeds: set<string>, extra: set<string>, current: Manifest, previous: Manifest,
                        isDeclaration: string -> bool)
  {
    var changed := ChangedPaths(current, previous);
    forall p :: p in seeds <==>
      p in changed || p in extra ||
      exists d | d in changed && isDeclaration(d) :: Reached({d}, p, current, previous, ANYTHING)
  }

  /** `narrow_selection_by_declaration_signature`: none when it stands down or a wave it emits fails. */
  method NarrowSelection(sources: seq<string>, extra: set<string>, current: Manifest, previous: Option<Manifest>,
                         outputs: map<string, string>, emitsDeclarations: bool, emitter: Emitter,
                         isDeclaration: string -> bool)
    returns (r: Option<(seq<string>, seq<Declaration>)>, ghost seeds: set<string>, ghost selected: set<string>,
             ghost waves: seq<seq<string>>)
    requires OwnKeys(sources, emitter)
    ensures previous.None? || previous.value.salt != current.salt || outputs == map[] || !emitsDeclarations ==>
              r.None? && waves == []
    ensures previous.Some? && previous.value.salt == current.salt && outputs != map[] && emitsDeclarations ==>
              WavesRan(waves, r.Some?, emitter) && Waved(waves, selected, sources) &&
              Seeds(seeds, extra, current, previous.value, isDeclaration) &&
              forall p | p in selected :: Narrowed(seeds, p, sources, current, previous.value, emitter, outputs)
    ensures r.Some? ==>
              r.value.0 == Keep(sources, selected) && EmittedOnce(r.value.1, selected, sources, emitter) &&
              forall p :: p in selected <==> Narrowed(seeds, p, sources, current, previous.value, emitter, outputs)
  {
    seeds, selected, waves := {}, {}, [];
    if previous.None? || previous.value.salt != current.salt || outputs == map[] || !emitsDeclarations {
      return None, seeds, selected, waves;
    }
    var before := previous.value;
    var changed := ChangedPaths(current, before);
    var importers := DeclarationImporters(changed, current, before, isDeclaration);
    var start := changed + importers + extra;
    seeds := start;
    if start == {} {
      KeepNone(sources);
      return Some(([], [])), seeds, selected, waves;
    }
    r, selected, waves := SelectByDeclarationSignature(sources, start, current, before, emitter, outputs);
  }

  /** Without extra seeds, narrowing never selects a path the importer closure does not. */
  lemma NarrowedIsReached(seeds: set<string>, path: string, sources: seq<string>, current: Manifest, previous: Manifest,
                          emitter: Emitter, outputs: map<string, string>, isDeclaration: string -> bool)
    requires Seeds(seeds, {}, current, previous, isDeclaration)
    requires Narrowed(seeds, path, sources, current, previous, emitter, outputs)
    ensures Reached(ChangedPaths(current, previous), path, current, previous, ANYTHING)
  {
    var changed := ChangedPaths(current, previous);
    var all := AllReached(changed, current, previous);
    AllClosed(changed, current, previous);
    forall d, p | d in changed && Reached({d}, p, current, previous, ANYTHING) ensures p in all {
      ReachedFromOne(changed, p, current, previous, ANYTHING);
      ReachedInAll(changed, p, current, previous);
    }
    hide Reached, AllReached, Spreading;
    var pass := Spreading(sources, emitter, outputs);
    assert seeds <= all;
    NarrowedInside(seeds, path, all, current, previous, pass);
  }

  lemma NarrowedInside(seeds: set<string>, path: string, all: set<string>, current: Manifest, previous: Manifest, pass: string -> bool)
    requires seeds <= all && ClosedUnder(all, current, previous, ANYTHING) && Reached(seeds, path, current, previous, pass)
    ensures path in all
  {
    var chain :| ChainFrom(chain, seeds, path, current, previous, pass);
    ClosedHoldsReached(chain, seeds, path, all, current, previous, pass);
  }

  /** Everything the paths reach. */
  ghost function AllReached(paths: set<string>, current: Manifest, previous: Manifest): (r: set<string>)
    ensures forall p | p in r :: Reached(paths, p, current, previous, ANYTHING)
  {
    set p | p in paths + Universe(current, previous) && Reached(paths, p, current, previous, ANYTHING)
  }

  lemma AllClosed(paths: set<string>, current: Manifest, previous: Manifest)
    ensures ClosedUnder(AllReached(paths, current, previous), current, previous, ANYTHING)
    ensures paths <= AllReached(paths, current, previous)
  {
    var all := AllReached(paths, current, previous);
    forall p, q | p in all && Links(current, previous, p, q) ensures q in all {
      ReachedNext(paths, p, q, current, previous, ANYTHING);
    }
    forall p | p in paths ensures p in all {
      SeedReached(paths, p, current, previous, ANYTHING);
    }
  }

  lemma ReachedInAll(paths: set<string>, path: string, current: Manifest, previous: Manifest)
    requires Reached(paths, path, current, previous, ANYTHING)
    ensures path in AllReached(paths, current, previous)
  {
    AllClosed(paths, current, previous);
    hide AllReached;
    var chain :| ChainFrom(chain, paths, path, current, previous, ANYTHING);
    ClosedHoldsReached(chain, paths, path, AllReached(paths, current, previous), current, previous, ANYTHING);
  }

  // ---- A narrowed build agrees with a cold one ---------------------------------------------

  /** A file of the graph is there before and now, with one declaration, or neither time. */
  ghost predicate SameDeclared(current: Manifest, previous: Manifest, path: string, declare: (Manifest, string) -> string) {
    (path in current.files <==> path in previous.files) &&
    (path in current.files ==> declare(current, path) == declare(previous, path))
  }

  /** The files keep their texts, and what they reference outside, now or before, its declarations. */
  ghost predicate Enclosed(files: set<string>, current: Manifest, previous: Manifest, declare: (Manifest, string) -> string) {
    forall f | f in files ::
      SameText(current, previous, f) &&
      forall g | Links(current, previous, g, f) && g !in files :: SameDeclared(current, previous, g, declare)
  }

  /**
   * From the last build to this one, the declarations and outputs of some files change only if one
   * of their texts or something they reference outside declares otherwise. Files that reference each
   * other count together.
   */
  ghost predicate ReadsDeclarations<O(!new)>(declare: (Manifest, string) -> string, build: (Manifest, string) -> O,
                                             current: Manifest, previous: Manifest) {
    forall files, f | Enclosed(files, current, previous, declare) && f in files ::
      declare(current, f) == declare(previous, f) && build(current, f) == build(previous, f)
  }

  /** The emitter emits the current declarations, and the records of files that were there are of the previous ones. */
  ghost predicate Faithful(sources: seq<string>, emitter: Emitter, outputs: map<string, string>,
                           current: Manifest, previous: Manifest, declare: (Manifest, string) -> string)
  {
    (forall a, b | emitter.hash(a) == emitter.hash(b) :: a == b) &&
    (forall f | f in emitter.texts :: emitter.texts[f] == declare(current, f)) &&
    (forall f | f in sources && f in previous.files && emitter.key(f) in outputs ::
       outputs[emitter.key(f)] == emitter.hash(declare(previous, f)))
  }

  /**
   * Where a new source has the output key of a recorded file, as `x.ts` in the place of `x.tsx`, an
   * unchanged file that references it now referenced one that is gone.
   */
  ghost predicate TakesPlace(sources: seq<string>, emitter: Emitter, outputs: map<string, string>,
                             current: Manifest, previous: Manifest)
  {
    forall g, f | g in sources && g !in previous.files && emitter.key(g) in outputs &&
                  SameText(current, previous, f) && Links(current, previous, g, f) ::
      exists h :: Imports(previous, f, h) && h in previous.files && h !in current.files
  }

  lemma HeldKeeps(source: string, sources: seq<string>, emitter: Emitter, outputs: map<string, string>,
                  current: Manifest, previous: Manifest, declare: (Manifest, string) -> string)
    requires Faithful(sources, emitter, outputs, current, previous, declare)
    requires source in sources && source in previous.files && Held(source, emitter, outputs)
    ensures declare(current, source) == declare(previous, source)
  {
    assert emitter.hash(emitter.texts[source]) == emitter.hash(declare(previous, source));
  }

  /** What a file left out references is left out with it, or declares what it did. */
  lemma LeftOutReference(f: string, g: string, selected: set<string>, seeds: set<string>, sources: seq<string>,
                         current: Manifest, previous: Manifest, emitter: Emitter, outputs: map<string, string>,
                         declare: (Manifest, string) -> string)
    requires ChangedPaths(current, previous) <= seeds && forall s | s in sources :: s in current.files
    requires forall p :: p in selected <==> Narrowed(seeds, p, sources, current, previous, emitter, outputs)
    requires Faithful(sources, emitter, outputs, current, previous, declare) &&
             TakesPlace(sources, emitter, outputs, current, previous)
    requires f in current.files && f !in selected && Links(current, previous, g, f)
    ensures (g in current.files && g !in selected) || SameDeclared(current, previous, g, declare)
  {
    if g in selected {
      SelectedHeld(f, g, selected, seeds, sources, current, previous, emitter, outputs);
      if g !in previous.files {
        UnselectedUnchanged(f, selected, seeds, sources, current, previous, emitter, outputs);
        var h :| Imports(previous, f, h) && h in previous.files && h !in current.files;
        SeedReached(seeds, h, current, previous, Spreading(sources, emitter, outputs));
        SelectedHeld(f, h, selected, seeds, sources, current, previous, emitter, outputs);
        assert false;
      } else {
        HeldKeeps(g, sources, emitter, outputs, current, previous, declare);
      }
    } else {
      UnselectedUnchanged(g, selected, seeds, sources, current, previous, emitter, outputs);
    }
  }

  /** What is selected and referenced by a file left out stopped the propagation. */
  lemma SelectedHeld(f: string, g: string, selected: set<string>, seeds: set<string>, sources: seq<string>,
                     current: Manifest, previous: Manifest, emitter: Emitter, outputs: map<string, string>)
    requires forall p :: p in selected <==> Narrowed(seeds, p, sources, current, previous, emitter, outputs)
    requires f !in selected && g in selected && Links(current, previous, g, f)
    ensures g in sources && Held(g, emitter, outputs)
  {
    var pass := Spreading(sources, emitter, outputs);
    if pass(g) {
      ReachedNext(seeds, g, f, current, previous, pass);
    }
  }

  lemma UnselectedUnchanged(f: string, selected: set<string>, seeds: set<string>, sources: seq<string>,
                            current: Manifest, previous: Manifest, emitter: Emitter, outputs: map<string, string>)
    requires ChangedPaths(current, previous) <= seeds && f !in selected
    requires forall p :: p in selected <==> Narrowed(seeds, p, sources, current, previous, emitter, outputs)
    ensures !ChangedPath(current, previous, f)
  {
    if f in seeds {
      SeedReached(seeds, f, current, previous, Spreading(sources, emitter, outputs));
    }
  }

  /** Whatever the propagation leaves out has the declaration and the output it had, import cycles included. */
  lemma UnselectedSame<O(!new)>(path: string, selected: set<string>, seeds: set<string>, sources: seq<string>,
                                current: Manifest, previous: Manifest, emitter: Emitter, outputs: map<string, string>,
                                declare: (Manifest, string) -> string, build: (Manifest, string) -> O)
    requires ChangedPaths(current, previous) <= seeds && forall f | f in sources :: f in current.files
    requires forall p :: p in selected <==> Narrowed(seeds, p, sources, current, previous, emitter, outputs)
    requires Faithful(sources, emitter, outputs, current, previous, declare) &&
             TakesPlace(sources, emitter, outputs, current, previous)
    requires ReadsDeclarations(declare, build, current, previous)
    requires path in current.files && path !in selected
    ensures SameText(current, previous, path)
    ensures declare(current, path) == declare(previous, path) && build(current, path) == build(previous, path)
  {
    var files := set f | f in current.files && f !in selected;
    forall f | f in files
      ensures SameText(current, previous, f)
      ensures forall g | Links(current, previous, g, f) && g !in files :: SameDeclared(current, previous, g, declare)
    {
      UnselectedUnchanged(f, selected, seeds, sources, current, previous, emitter, outputs);
      forall g | Links(current, previous, g, f) && g !in files ensures SameDeclared(current, previous, g, declare) {
        LeftOutReference(f, g, selected, seeds, sources, current, previous, emitter, outputs, declare);
      }
    }
    assert Enclosed(files, current, previous, declare) && path in files;
  }

  /**
   * Compiling only the narrowed selection over the previous outputs leaves what compiling every
   * source leaves.
   */
  lemma NarrowedIsCold<O(!new)>(compiled: seq<string>, selected: set<string>, seeds: set<string>, sources: seq<string>,
                                current: Manifest, previous: Manifest, emitter: Emitter, records: map<string, string>,
                                declare: (Manifest, string) -> string, build: (Manifest, string) -> O, outputs: map<string, O>)
    requires ChangedPaths(current, previous) <= seeds && forall f | f in sources :: f in current.files
    requires forall p :: p in selected <==> Narrowed(seeds, p, sources, current, previous, emitter, records)
    requires Faithful(sources, emitter, records, current, previous, declare) &&
             TakesPlace(sources, emitter, records, current, previous)
    requires ReadsDeclarations(declare, build, current, previous) && compiled == Keep(sources, selected)
    requires forall f | f in sources && f in previous.files :: f in outputs && outputs[f] == build(previous, f)
    requires outputs.Keys <= set f | f in sources
    ensures Rebuilt(outputs, compiled, current, build) == Rebuilt(outputs, sources, current, build)
  {
    forall f | f in sources && f !in compiled ensures f in outputs && outputs[f] == build(current, f) {
      UnselectedSame(f, selected, seeds, sources, current, previous, emitter, records, declare, build);
    }
  }

  // ---- Compilers that read declarations ----------------------------------------------------

  /** How a compiler makes a file's declaration, and its output, of its text and what its references declare. */
  datatype Compiler<!O> = Compiler(declaration: (string, seq<string>) -> string, output: (string, seq<string>) -> O)

  /** References lead down the rank. */
  ghost predicate Ranked(manifest: Manifest, rank: string -> nat) {
    forall p, q | p in manifest.files && q in manifest.files[p].refs :: rank(q) < rank(p)
  }

  ghost function Declared<O>(compiler: Compiler<O>, manifest: Manifest, rank: string -> nat, path: string): string
    requires Ranked(manifest, rank)
    decreases rank(path)
  {
    if path !in manifest.files then ""
    else
      var refs := manifest.files[path].refs;
      compiler.declaration(manifest.files[path].hash,
                           seq(|refs|, i requires 0 <= i < |refs| => Declared(compiler, manifest, rank, refs[i])))
  }

  /** What a build with this compiler declares: a file's imported declarations first, then its own. */
  ghost function Declares<O>(compiler: Compiler<O>, rank: string -> nat): (Manifest, string) -> string {
    (manifest: Manifest, path: string) => if Ranked(manifest, rank) then Declared(compiler, manifest, rank, path) else ""
  }

  ghost function ImportedDeclarations<O>(compiler: Compiler<O>, rank: string -> nat, manifest: Manifest, path: string): seq<string> {
    if path !in manifest.files then []
    else
      var refs := manifest.files[path].refs;
      seq(|refs|, i requires 0 <= i < |refs| => Declares(compiler, rank)(manifest, refs[i]))
  }

  ghost function Builds<O>(compiler: Compiler<O>, rank: string -> nat): (Manifest, string) -> O {
    (manifest: Manifest, path: string) =>
      compiler.output(if path in manifest.files then manifest.files[path].hash else "",
                      ImportedDeclarations(compiler, rank, manifest, path))
  }

  /** A file's references resolve otherwise only if its text changed or a file either names came or went. */
  ghost predicate ResolvesByPresence(current: Manifest, previous: Manifest) {
    forall p | SameText(current, previous, p) &&
               (forall q | Links(current, previous, q, p) :: q in current.files <==> q in previous.files) ::
      current.files[p].refs == previous.files[p].refs
  }

  lemma SameReferences(files: set<string>, f: string, current: Manifest, previous: Manifest, declare: (Manifest, string) -> string)
    requires ResolvesByPresence(current, previous) && Enclosed(files, current, previous, declare) && f in files
    ensures SameText(current, previous, f) && current.files[f].refs == previous.files[f].refs
  {
    forall q | Links(current, previous, q, f) ensures q in current.files <==> q in previous.files {
      if q in files {
        assert SameText(current, previous, q);
      } else {
        assert SameDeclared(current, previous, q, declare);
      }
    }
  }

  lemma {:induction false} DeclaredAlike<O>(compiler: Compiler<O>, rank: string -> nat, current: Manifest, previous: Manifest,
                                            files: set<string>, f: string)
    requires Ranked(current, rank) && Ranked(previous, rank) && ResolvesByPresence(current, previous)
    requires Enclosed(files, current, previous, Declares(compiler, rank)) && f in files
    ensures ImportedDeclarations(compiler, rank, current, f) == ImportedDeclarations(compiler, rank, previous, f)
    ensures Declares(compiler, rank)(current, f) == Declares(compiler, rank)(previous, f)
    decreases rank(f)
  {
    var declare := Declares(compiler, rank);
    SameReferences(files, f, current, previous, declare);
    var refs := current.files[f].refs;
    forall i | 0 <= i < |refs| ensures declare(current, refs[i]) == declare(previous, refs[i]) {
      assert Links(current, previous, refs[i], f);
      if refs[i] in files {
        DeclaredAlike(compiler, rank, current, previous, files, refs[i]);
      } else {
        assert SameDeclared(current, previous, refs[i], declare);
      }
    }
    DeclaredOfImports(compiler, rank, current, f);
    DeclaredOfImports(compiler, rank, previous, f);
  }

  /**
   * Whatever such a compiler makes of declarations, over references without cycles it meets what
   * `NarrowedIsCold` asks of it.
   */
  lemma CompilersQualify<O(!new)>(compiler: Compiler<O>, rank: string -> nat, current: Manifest, previous: Manifest)
    requires Ranked(current, rank) && Ranked(previous, rank) && ResolvesByPresence(current, previous)
    ensures ReadsDeclarations(Declares(compiler, rank), Builds(compiler, rank), current, previous)
  {
    var declare, build := Declares(compiler, rank), Builds(compiler, rank);
    forall files, f | Enclosed(files, current, previous, declare) && f in files
      ensures declare(current, f) == declare(previous, f) && build(current, f) == build(previous, f)
    {
      DeclaredAlike(compiler, rank, current, previous, files, f);
      assert SameText(current, previous, f);
    }
  }

  /** What a compiler declares that makes each declaration of the file's own text. */
  function OwnDeclares(own: string -> string): (Manifest, string) -> string {
    (manifest: Manifest, path: string) => if path in manifest.files then own(manifest.files[path].hash) else ""
  }

  function OwnImports(own: string -> string, manifest: Manifest, path: string): seq<string> {
    if path !in manifest.files then []
    else
      var refs := manifest.files[path].refs;
      seq(|refs|, i requires 0 <= i < |refs| => OwnDeclares(own)(manifest, refs[i]))
  }

  function OwnBuilds<O>(own: string -> string, output: (string, seq<string>) -> O): (Manifest, string) -> O {
    (manifest: Manifest, path: string) =>
      output(if path in manifest.files then manifest.files[path].hash else "", OwnImports(own, manifest, path))
  }

  /** One that makes declarations of the own text alone meets it whatever the references, cycles or not. */
  lemma OwnDeclarersQualify<O(!new)>(own: string -> string, output: (string, seq<string>) -> O,
                                     current: Manifest, previous: Manifest)
    requires ResolvesByPresence(current, previous)
    ensures ReadsDeclarations(OwnDeclares(own), OwnBuilds(own, output), current, previous)
  {
    var declare, build := OwnDeclares(own), OwnBuilds(own, output);
    forall files, f | Enclosed(files, current, previous, declare) && f in files
      ensures declare(current, f) == declare(previous, f) && build(current, f) == build(previous, f)
    {
      SameReferences(files, f, current, previous, declare);
      var refs := current.files[f].refs;
      forall i | 0 <= i < |refs| ensures declare(current, refs[i]) == declare(previous, refs[i]) {
        assert Links(current, previous, refs[i], f);
        if refs[i] in files {
          assert SameText(current, previous, refs[i]);
        } else {
          assert SameDeclared(current, previous, refs[i], declare);
        }
      }
      assert OwnImports(own, current, f) == OwnImports(own, previous, f);
    }
  }

  lemma DeclaredOfImports<O>(compiler: Compiler<O>, rank: string -> nat, manifest: Manifest, path: string)
    requires Ranked(manifest, rank) && path in manifest.files
    ensures Declares(compiler, rank)(manifest, path) ==
            compiler.declaration(manifest.files[path].hash, ImportedDeclarations(compiler, rank, manifest, path))
  {
    var refs := manifest.files[path].refs;
    var declared := seq(|refs|, i requires 0 <= i < |refs| => Declared(compiler, manifest, rank, refs[i]));
    var imported := ImportedDeclarations(compiler, rank, manifest, path);
    assert |declared| == |imported| == |refs|;
    forall i | 0 <= i < |refs| ensures declared[i] == imported[i] {
      assert imported[i] == Declares(compiler, rank)(manifest, refs[i]);
    }
    assert declared == imported;
    assert Declared(compiler, manifest, rank, path) == compiler.declaration(manifest.files[path].hash, declared);
  }

  /** One that puts the declarations a file imports into its own and into its output. */
  function Inlining(): Compiler<seq<string>> {
    Compiler((text, imported: seq<string>) => if imported == [] then text else text + imported[0],
             (text, imported) => [text] + imported)
  }

  /** It reads what it imports: here only `b` changes, and with it what `a`, which imports it, declares and builds. */
  lemma InliningReads(rank: string -> nat)
    requires rank("b") < rank("a")
    ensures var current := Manifest("", map["a" := FileState("1", ["b"]), "b" := FileState("2", [])]);
            var previous := Manifest("", map["a" := FileState("1", ["b"]), "b" := FileState("3", [])]);
            Ranked(current, rank) && Ranked(previous, rank) && SameText(current, previous, "a") &&
            Declares(Inlining(), rank)(current, "a") != Declares(Inlining(), rank)(previous, "a") &&
            Builds(Inlining(), rank)(current, "a") != Builds(Inlining(), rank)(previous, "a")
  {
    var current := Manifest("", map["a" := FileState("1", ["b"]), "b" := FileState("2", [])]);
    var previous := Manifest("", map["a" := FileState("1", ["b"]), "b" := FileState("3", [])]);
    DeclaredOfImports(Inlining(), rank, current, "b");
    DeclaredOfImports(Inlining(), rank, previous, "b");
    DeclaredOfImports(Inlining(), rank, current, "a");
    DeclaredOfImports(Inlining(), rank, previous, "a");
    assert ImportedDeclarations(Inlining(), rank, current, "a")[0] == "2";
    assert ImportedDeclarations(Inlining(), rank, previous, "a")[0] == "3";
    assert Declares(Inlining(), rank)(current, "a")[1] == '2';
    assert Builds(Inlining(), rank)(current, "a")[1] == "2";
  }
}
