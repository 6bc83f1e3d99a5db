/**
 * Which source files an incremental build compiles again (`incremental_manifest.rs`): the changed
 * ones and everything that imports them, by the current import graph or the previous one.
 */
module Incremental {

  import opened Common

  /** What a manifest records of a file: its text's hash and the project files it references. */
  datatype FileState = FileState(hash: string, refs: seq<string>)

  datatype Manifest = Manifest(salt: string, files: map<string, FileState>)

  predicate Imports(manifest: Manifest, importer: string, path: string) {
    importer in manifest.files && path in manifest.files[importer].refs
  }

  /** `importer` references `path` now or did at the previous build. */
  predicate Links(current: Manifest, previous: Manifest, path: string, importer: string) {
    Imports(current, importer, path) || Imports(previous, importer, path)
  }

  // ---- Reachability ------------------------------------------------------------------------

  /** Each path of the chain but the last one passes its change on to the next, which imports it. */
  ghost predicate Chain(chain: seq<string>, current: Manifest, previous: Manifest, pass: string -> bool) {
    |chain| > 0 &&
    forall i | 0 <= i < |chain| - 1 :: pass(chain[i]) && Links(current, previous, chain[i], chain[i + 1])
  }

  ghost predicate ChainFrom(chain: seq<string>, seeds: set<string>, path: string,
                            current: Manifest, previous: Manifest, pass: string -> bool) {
    Chain(chain, current, previous, pass) && chain[0] in seeds && chain[|chain| - 1] == path
  }

  /** A change of the seeds reaches `path`. */
  ghost predicate Reached(seeds: set<string>, path: string, current: Manifest, previous: Manifest, pass: string -> bool) {
    exists chain :: ChainFrom(chain, seeds, path, current, previous, pass)
  }

  lemma SeedReached(seeds: set<string>, path: string, current: Manifest, previous: Manifest, pass: string -> bool)
    requires path in seeds
    ensures Reached(seeds, path, current, previous, pass)
  {
    assert ChainFrom([path], seeds, path, current, previous, pass);
  }

  lemma ReachedNext(seeds: set<string>, path: string, importer: string,
                    current: Manifest, previous: Manifest, pass: string -> bool)
    requires Reached(seeds, path, current, previous, pass) && pass(path) && Links(current, previous, path, importer)
    ensures Reached(seeds, importer, current, previous, pass)
  {
    var chain :| ChainFrom(chain, seeds, path, current, previous, pass);
    var longer := chain + [importer];
    forall i | 0 <= i < |longer| - 1
      ensures pass(longer[i]) && Links(current, previous, longer[i], longer[i + 1])
    {
      if i < |chain| - 1 {
        assert pass(chain[i]) && Links(current, previous, chain[i], chain[i + 1]);
      }
    }
    assert ChainFrom(longer, seeds, importer, current, previous, pass);
  }

  /** `paths` holds the importers of each of its members that passes its change on. */
  ghost predicate ClosedUnder(paths: set<string>, current: Manifest, previous: Manifest, pass: string -> bool) {
    forall p, q :: p in paths && pass(p) && Links(current, previous, p, q) ==> q in paths
  }

  /** A closed set with the seeds in it holds everything reached. */
  lemma {:induction false} ClosedHoldsReached(chain: seq<string>, seeds: set<string>, path: string, paths: set<string>,
                                              current: Manifest, previous: Manifest, pass: string -> bool)
    requires ChainFrom(chain, seeds, path, current, previous, pass)
    requires seeds <= paths && ClosedUnder(paths, current, previous, pass)
    ensures path in paths
    decreases |chain|
  {
    if |chain| > 1 {
      var shorter := chain[..|chain| - 1];
      var before := shorter[|shorter| - 1];
      assert ChainFrom(shorter, seeds, before, current, previous, pass);
      ClosedHoldsReached(shorter, seeds, before, paths, current, previous, pass);
      assert pass(chain[|chain| - 2]) && Links(current, previous, chain[|chain| - 2], chain[|chain| - 1]);
    }
  }

  /** The reached paths are the least closed set with the seeds in it. */
  lemma ReachedIsLeast(seeds: set<string>, paths: set<string>, current: Manifest, previous: Manifest, pass: string -> bool)
    requires seeds <= paths && ClosedUnder(paths, current, previous, pass)
    requires forall p | p in paths :: Reached(seeds, p, current, previous, pass)
    ensures forall p :: p in paths <==> Reached(seeds, p, current, previous, pass)
  {
    forall p | Reached(seeds, p, current, previous, pass) ensures p in paths {
      var chain :| ChainFrom(chain, seeds, p, current, previous, pass);
      ClosedHoldsReached(chain, seeds, p, paths, current, previous, pass);
    }
  }

  // ---- The reverse graph -------------------------------------------------------------------

  predicate Lists(reverse: map<string, seq<string>>, path: string, importer: string) {
    path in reverse && importer in reverse[path]
  }

  function WithImporter(reverse: map<string, seq<string>>, path: string, importer: string): map<string, seq<string>> {
    reverse[path := (if path in reverse then reverse[path] else []) + [importer]]
  }

  lemma WithImporterLists(reverse: map<string, seq<string>>, path: string, importer: string)
    ensures forall p, q :: Lists(WithImporter(reverse, path, importer), p, q) <==>
                           Lists(reverse, p, q) || (p == path && q == importer)
  {
  }

  method AddImporter(reverse: map<string, seq<string>>, importer: string, refs: seq<string>)
    returns (more: map<string, seq<string>>)
    ensures forall p, q :: Lists(more, p, q) <==> Lists(reverse, p, q) || (q == importer && p in refs)
  {
    more := reverse;
    var index := 0;
    while index < |refs|
      invariant 0 <= index <= |refs|
      invariant forall p, q :: Lists(more, p, q) <==> Lists(reverse, p, q) || (q == importer && p in refs[..index])
    {
      WithImporterLists(more, refs[index], importer);
      more := WithImporter(more, refs[index], importer);
      assert refs[..index + 1] == refs[..index] + [refs[index]];
      index := index + 1;
    }
    assert refs[..index] == refs;
  }

  /** `accumulate_reverse_deps` */
  method AccumulateReverseDeps(reverse: map<string, seq<string>>, manifest: Manifest)
    returns (more: map<string, seq<string>>)
    ensures forall p, q :: Lists(more, p, q) <==> Lists(reverse, p, q) || Imports(manifest, q, p)
  {
    more := reverse;
    var left := manifest.files.Keys;
    ghost var done: set<string> := {};
    while left != {}
      invariant done + left == manifest.files.Keys && done !! left
      invariant forall p, q :: Lists(more, p, q) <==> Lists(reverse, p, q) || (q in done && Imports(manifest, q, p))
    {
      var importer :| importer in left;
      more := AddImporter(more, importer, manifest.files[importer].refs);
      left, done := left - {importer}, done + {importer};
    }
  }

  /** `reverse` lists, under each path, what imports it now or did before. */
  ghost predicate Reverses(reverse: map<string, seq<string>>, current: Manifest, previous: Manifest) {
    forall p, q :: Lists(reverse, p, q) <==> Links(current, previous, p, q)
  }

  method ReverseGraph(current: Manifest, previous: Manifest) returns (reverse: map<string, seq<string>>)
    ensures Reverses(reverse, current, previous)
  {
    reverse := AccumulateReverseDeps(map[], current);
    reverse := AccumulateReverseDeps(reverse, previous);
  }

  // ---- The worklist ------------------------------------------------------------------------

  const ANYTHING: string -> bool := (path: string) => true

  /**
   * The state of the search: everything selected or queued is reached, and what left the queue has
   * its importers selected.
   */
  ghost predicate Searching(selected: set<string>, queue: seq<string>, taken: set<string>, seeds: set<string>,
                            current: Manifest, previous: Manifest) {
    (forall p | p in selected || p in queue :: Reached(seeds, p, current, previous, ANYTHING)) &&
    (forall p | p in selected || p in seeds :: p in queue || p in taken) &&
    (forall p, q :: p in taken && Links(current, previous, p, q) ==> q in selected)
  }

  function Universe(current: Manifest, previous: Manifest): set<string> {
    current.files.Keys + previous.files.Keys
  }

  /** Selects and queues the importers of `path` not selected yet. */
  method Visit(path: string, selected: set<string>, queue: seq<string>, importers: seq<string>)
    returns (selected': set<string>, queue': seq<string>)
    ensures selected' == selected + set q | q in importers
    ensures forall q :: q in queue' <==> q in queue || (q in importers && q !in selected)
    ensures queue' == queue || selected < selected'
  {
    selected', queue' := selected, queue;
    var index := 0;
    while index < |importers|
      invariant 0 <= index <= |importers|
      invariant selected' == selected + set q | q in importers[..index]
      invariant forall q :: q in queue' <==> q in queue || (q in importers[..index] && q !in selected)
      invariant queue' == queue || selected < selected'
    {
      assert importers[..index + 1] == importers[..index] + [importers[index]];
      if importers[index] !in selected' {
        selected' := selected' + {importers[index]};
        queue' := queue' + [importers[index]];
      }
      index := index + 1;
    }
    assert importers[..index] == importers;
  }

  /** One turn of the search. */
  lemma Visited(path: string, rest: seq<string>, selected: set<string>, queue: seq<string>, taken: set<string>,
                selected': set<string>, queue': seq<string>, importers: seq<string>,
                seeds: set<string>, current: Manifest, previous: Manifest)
    requires queue == [path] + rest && Searching(selected, queue, taken, seeds, current, previous)
    requires forall q :: q in importers <==> Links(current, previous, path, q)
    requires selected' == selected + set q | q in importers
    requires forall q :: q in queue' <==> q in rest || (q in importers && q !in selected)
    ensures Searching(selected', queue', taken + {path}, seeds, current, previous)
  {
    forall q | q in importers ensures Reached(seeds, q, current, previous, ANYTHING) {
      ReachedNext(seeds, path, q, current, previous, ANYTHING);
    }
  }

  /** The importers of `path` by the reverse graph. */
  function ImportersOf(reverse: map<string, seq<string>>, path: string): seq<string> {
    if path in reverse then reverse[path] else []
  }

  lemma ImportersMean(reverse: map<string, seq<string>>, path: string, seeds: set<string>,
                      current: Manifest, previous: Manifest)
    requires Reverses(reverse, current, previous) && Reached(seeds, path, current, previous, ANYTHING)
    ensures forall q :: q in ImportersOf(reverse, path) <==> Links(current, previous, path, q)
    ensures forall q | q in ImportersOf(reverse, path) ::
              q in Universe(current, previous) && ReachedByImport(seeds, q, current, previous)
  {
    forall q ensures q in ImportersOf(reverse, path) <==> Links(current, previous, path, q) {
      assert q in ImportersOf(reverse, path) <==> Lists(reverse, path, q);
    }
  }

  method SearchStep(selected: set<string>, queue: seq<string>, ghost taken: set<string>, ghost seeds: set<string>,
                    ghost universe: set<string>, reverse: map<string, seq<string>>,
                    ghost current: Manifest, ghost previous: Manifest)
    returns (selected': set<string>, queue': seq<string>)
    requires queue != [] && Searching(selected, queue, taken, seeds, current, previous)
    requires Reverses(reverse, current, previous) && selected + Universe(current, previous) <= universe
    ensures Searching(selected', queue', taken + {queue[0]}, seeds, current, previous)
    ensures selected <= selected' <= universe
    ensures forall q | q in selected' :: q in selected || ReachedByImport(seeds, q, current, previous)
    ensures |universe - selected'| < |universe - selected| || (selected' == selected && |queue'| < |queue|)
  {
    var path := queue[0];
    ImportersMean(reverse, path, seeds, current, previous);
    selected', queue' := Visit(path, selected, queue[1..], ImportersOf(reverse, path));
    assert queue == [path] + queue[1..];
    Visited(path, queue[1..], selected, queue, taken, selected', queue', ImportersOf(reverse, path), seeds, current, previous);
    Progresses(universe, selected, selected', queue, queue');
  }

  lemma Progresses(universe: set<string>, selected: set<string>, more: set<string>, queue: seq<string>, queue': seq<string>)
    requires queue != [] && selected <= more <= universe && (queue' == queue[1..] || selected < more)
    ensures |universe - more| < |universe - selected| || (more == selected && |queue'| < |queue|)
  {
    if selected < more {
      Shrinks(universe, selected, more);
    }
  }

  /** The breadth-first search over the importers; a path can be queued without being selected. */
  method Search(chosen: set<string>, seeds: set<string>, start: seq<string>, reverse: map<string, seq<string>>,
                ghost current: Manifest, ghost previous: Manifest)
    returns (selected: set<string>)
    requires Reverses(reverse, current, previous) && chosen <= seeds && forall p :: p in start <==> p in seeds
    ensures forall p :: p in selected <==> p in chosen || ReachedByImport(seeds, p, current, previous)
  {
    selected := chosen;
    var queue := start;
    ghost var taken: set<string> := {};
    ghost var universe := Universe(current, previous) + chosen;
    forall p | p in seeds ensures Reached(seeds, p, current, previous, ANYTHING) {
      SeedReached(seeds, p, current, previous, ANYTHING);
    }
    while queue != []
      invariant Searching(selected, queue, taken, seeds, current, previous)
      invariant chosen <= selected <= universe
      invariant forall p | p in selected :: p in chosen || ReachedByImport(seeds, p, current, previous)
      decreases |universe - selected|, |queue|
    {
      ghost var path := queue[0];
      selected, queue := SearchStep(selected, queue, taken, seeds, universe, reverse, current, previous);
      taken := taken + {path};
    }
    SearchedAll(selected, taken, chosen, seeds, current, previous);
  }

  lemma Shrinks(universe: set<string>, selected: set<string>, more: set<string>)
    requires selected < more <= universe
    ensures |universe - more| < |universe - selected|
  {
    assert universe - more < universe - selected;
    SmallerSet(universe - more, universe - selected);
  }

  lemma {:induction false} SmallerSet<T>(a: set<T>, b: set<T>)
    requires a < b
    ensures |a| < |b|
  {
    var extra := b - a;
    assert b == a + extra && a !! extra && extra != {};
  }

  /** A change of the seeds reaches something `path` imports. */
  ghost predicate ReachedByImport(seeds: set<string>, path: string, current: Manifest, previous: Manifest) {
    exists p :: Reached(seeds, p, current, previous, ANYTHING) && Links(current, previous, p, path)
  }

  lemma SearchedAll(selected: set<string>, taken: set<string>, chosen: set<string>, seeds: set<string>,
                    current: Manifest, previous: Manifest)
    requires Searching(selected, [], taken, seeds, current, previous) && chosen <= selected
    requires forall p | p in selected :: p in chosen || ReachedByImport(seeds, p, current, previous)
    ensures forall p :: p in selected <==> p in chosen || ReachedByImport(seeds, p, current, previous)
  {
    var all := seeds + selected;
    forall p | p in seeds ensures Reached(seeds, p, current, previous, ANYTHING) {
      SeedReached(seeds, p, current, previous, ANYTHING);
    }
    assert ClosedUnder(all, current, previous, ANYTHING);
    ReachedIsLeast(seeds, all, current, previous, ANYTHING);
  }

  // ---- Selection ---------------------------------------------------------------------------

  predicate ChangedPath(current: Manifest, previous: Manifest, path: string) {
    (path in current.files && (path !in previous.files || previous.files[path].hash != current.files[path].hash)) ||
    (path in previous.files && path !in current.files)
  }

  /** `changed_source_paths`: new, edited and removed files. */
  function ChangedPaths(current: Manifest, previous: Manifest): (r: set<string>)
    ensures forall p :: p in r <==> ChangedPath(current, previous, p)
    ensures forall p :: p in r <==> (p in current.files.Keys) != (p in previous.files.Keys) ||
                                    (p in current.files && current.files[p].hash != previous.files[p].hash)
  {
    (set p | p in current.files && (p !in previous.files || previous.files[p].hash != current.files[p].hash)) +
    (set p | p in previous.files && p !in current.files)
  }

  /** The paths of `paths` in `kept`, in order. */
  function Keep(paths: seq<string>, kept: set<string>): (r: seq<string>)
    ensures forall p :: p in r <==> p in paths && p in kept
  {
    if paths == [] then [] else (if paths[0] in kept then [paths[0]] else []) + Keep(paths[1..], kept)
  }

  /** They stay in the order they were given in. */
  lemma {:induction false} KeepInOrder(before: seq<string>, path: string, after: seq<string>, kept: set<string>)
    ensures Keep(before + [path] + after, kept) == Keep(before, kept) + (if path in kept then [path] else []) + Keep(after, kept)
  {
    var all := before + [path] + after;
    if before == [] {
      assert all[0] == path && all[1..] == after;
    } else {
      assert all[0] == before[0] && all[1..] == before[1..] + [path] + after;
      KeepInOrder(before[1..], path, after, kept);
    }
  }

  /** Changed and still there, or importing something a change reaches. */
  ghost predicate Affected(current: Manifest, previous: Manifest, path: string) {
    (path in current.files && ChangedPath(current, previous, path)) ||
    ReachedByImport(ChangedPaths(current, previous), path, current, previous)
  }

  /** What is reached is a seed or imports something reached. */
  lemma ReachedSplits(seeds: set<string>, path: string, current: Manifest, previous: Manifest)
    ensures Reached(seeds, path, current, previous, ANYTHING) <==>
            path in seeds || ReachedByImport(seeds, path, current, previous)
  {
    if path in seeds {
      SeedReached(seeds, path, current, previous, ANYTHING);
    }
    if p :| Reached(seeds, p, current, previous, ANYTHING) && Links(current, previous, p, path) {
      ReachedNext(seeds, p, path, current, previous, ANYTHING);
    }
    if Reached(seeds, path, current, previous, ANYTHING) && path !in seeds {
      var chain :| ChainFrom(chain, seeds, path, current, previous, ANYTHING);
      var shorter := chain[..|chain| - 1];
      assert Links(current, previous, chain[|chain| - 2], chain[|chain| - 1]);
      assert ChainFrom(shorter, seeds, chain[|chain| - 2], current, previous, ANYTHING);
    }
  }

  /** For a file of the current manifest, that is: a change reaches it. */
  lemma AffectedMeansReached(current: Manifest, previous: Manifest, path: string)
    requires path in current.files
    ensures Affected(current, previous, path) <==>
            Reached(ChangedPaths(current, previous), path, current, previous, ANYTHING)
  {
    ReachedSplits(ChangedPaths(current, previous), path, current, previous);
  }

  method Sequence(paths: set<string>) returns (list: seq<string>)
    ensures forall p :: p in list <==> p in paths
  {
    list := [];
    var left := paths;
    while left != {}
      invariant left <= paths && forall p :: p in list <==> p in paths && p !in left
    {
      var p :| p in left;
      list, left := list + [p], left - {p};
    }
  }

  /** `select_incremental_source_files` */
  method SelectIncrementalSourceFiles(sourceFiles: seq<string>, current: Manifest, previous: Option<Manifest>)
    returns (selection: seq<string>, ghost selected: set<string>)
    ensures previous.None? || previous.value.salt != current.salt ==> selection == sourceFiles
    ensures previous.Some? && previous.value.salt == current.salt ==>
              selection == Keep(sourceFiles, selected) &&
              forall p :: p in selected <==> Affected(current, previous.value, p)
  {
    if previous.None? || previous.value.salt != current.salt {
      return sourceFiles, {};
    }
    var before := previous.value;
    var changed := ChangedPaths(current, before);
    if changed == {} {
      NothingAffected(current, before);
      KeepNone(sourceFiles);
      return [], {};
    }
    var reverse := ReverseGraph(current, before);
    var queue := Sequence(changed);
    var found := Search((set p | p in changed && p in current.files), changed, queue, reverse, current, before);
    selected := found;
    selection := Keep(sourceFiles, found);
  }

  lemma {:induction false} KeepNone(paths: seq<string>)
    ensures Keep(paths, {}) == []
  {
    if paths != [] {
      KeepNone(paths[1..]);
    }
  }

  lemma NothingAffected(current: Manifest, previous: Manifest)
    requires ChangedPaths(current, previous) == {}
    ensures forall p :: !Affected(current, previous, p)
  {
  }

  // ---- An incremental build agrees with a cold one -----------------------------------------

  /** `path` reaches `target` by the references of one manifest. */
  ghost predicate Uses(manifest: Manifest, path: string, target: string) {
    exists chain :: UsesBy(chain, manifest, path, target)
  }

  ghost predicate UsesBy(chain: seq<string>, manifest: Manifest, path: string, target: string) {
    |chain| > 0 && chain[0] == target && chain[|chain| - 1] == path &&
    forall i | 0 <= i < |chain| - 1 :: Imports(manifest, chain[i + 1], chain[i])
  }

  ghost predicate SameText(a: Manifest, b: Manifest, path: string) {
    path in a.files && path in b.files && a.files[path].hash == b.files[path].hash
  }

  /** From the last build to this one, an output changes only if a text its file reaches, now or before, does. */
  ghost predicate ReadsWhatItUses<O(!new)>(build: (Manifest, string) -> O, current: Manifest, previous: Manifest) {
    forall path | path in current.files && UsesOnlySame(current, previous, path) :: build(current, path) == build(previous, path)
  }

  ghost predicate UsesOnlySame(current: Manifest, previous: Manifest, path: string) {
    forall target | Uses(current, path, target) || Uses(previous, path, target) :: !ChangedPath(current, previous, target)
  }

  lemma UnaffectedUsesSame(current: Manifest, previous: Manifest, path: string)
    requires path in current.files && !Affected(current, previous, path)
    ensures UsesOnlySame(current, previous, path)
  {
    AffectedMeansReached(current, previous, path);
    forall target | Uses(current, path, target) || Uses(previous, path, target)
      ensures !ChangedPath(current, previous, target)
    {
      var here := if Uses(current, path, target) then current else previous;
      var chain :| UsesBy(chain, here, path, target);
      if ChangedPath(current, previous, target) {
        forall i | 0 <= i < |chain| - 1 ensures Links(current, previous, chain[i], chain[i + 1]) {
          assert Imports(here, chain[i + 1], chain[i]);
        }
        assert ChainFrom(chain, ChangedPaths(current, previous), path, current, previous, ANYTHING);
      }
    }
  }

  /** What a build of `compiled` leaves on top of the outputs it starts with. */
  function Rebuilt<O>(outputs: map<string, O>, compiled: seq<string>, manifest: Manifest, build: (Manifest, string) -> O): map<string, O> {
    map p | p in outputs.Keys + (set f | f in compiled) :: if p in compiled then build(manifest, p) else outputs[p]
  }

  /**
   * Over the previous outputs of the files that are still there, an incremental build leaves for
   * every source file what compiling all of them leaves.
   */
  lemma IncrementalIsCold<O(!new)>(sourceFiles: seq<string>, selection: seq<string>, selected: set<string>,
                             current: Manifest, previous: Manifest,
                             outputs: map<string, O>, build: (Manifest, string) -> O)
    requires ReadsWhatItUses(build, current, previous) && forall f | f in sourceFiles :: f in current.files
    requires selection == Keep(sourceFiles, selected) && forall p :: p in selected <==> Affected(current, previous, p)
    requires forall f | f in sourceFiles && f in previous.files :: f in outputs && outputs[f] == build(previous, f)
    requires outputs.Keys <= set f | f in sourceFiles
    ensures Rebuilt(outputs, selection, current, build) == Rebuilt(outputs, sourceFiles, current, build)
  {
    forall f | f in sourceFiles && f !in selection
      ensures f in outputs && outputs[f] == build(current, f)
    {
      UnaffectedUsesSame(current, previous, f);
      assert UsesBy([f], current, f, f) && Uses(current, f, f);
    }
  }

  // ---- Compilers that read what they import ------------------------------------------------

  /** Everything `path` reaches, itself included, as the manifest has it. */
  ghost function Reading(manifest: Manifest, path: string): map<string, FileState> {
    map target | target in manifest.files && Uses(manifest, path, target) :: manifest.files[target]
  }

  /** A file's references resolve otherwise only if its text changed or a file either names did. */
  ghost predicate ResolvesAlike(current: Manifest, previous: Manifest) {
    forall p | SameText(current, previous, p) &&
               (forall q | Links(current, previous, q, p) :: !ChangedPath(current, previous, q)) ::
      current.files[p].refs == previous.files[p].refs
  }

  /** Along a chain of one manifest over unchanged files, the other has the same references. */
  lemma {:induction false} UsedAlike(chain: seq<string>, current: Manifest, previous: Manifest, path: string, target: string)
    requires ResolvesAlike(current, previous) && UsesOnlySame(current, previous, path) && path in current.files
    requires UsesBy(chain, current, path, target) || UsesBy(chain, previous, path, target)
    ensures UsesBy(chain, current, path, target) && UsesBy(chain, previous, path, target)
    ensures target in current.files <==> target in previous.files
    ensures target in current.files ==> current.files[target] == previous.files[target]
    decreases |chain|
  {
    if |chain| > 1 {
      var rest := chain[1..];
      var here := if UsesBy(chain, current, path, target) then current else previous;
      assert UsesBy(rest, here, path, chain[1]) by {
        forall i | 0 <= i < |rest| - 1 ensures Imports(here, rest[i + 1], rest[i]) {
          assert Imports(here, chain[i + 2], chain[i + 1]);
        }
      }
      UsedAlike(rest, current, previous, path, chain[1]);
      assert Imports(here, chain[1], chain[0]);
      UsesLonger(chain, current, path);
      UsesLonger(chain, previous, path);
    }
    StateAlike(chain, current, previous, path, target);
  }

  lemma UsesLonger(chain: seq<string>, manifest: Manifest, path: string)
    requires |chain| > 1 && UsesBy(chain[1..], manifest, path, chain[1]) && Imports(manifest, chain[1], chain[0])
    ensures UsesBy(chain, manifest, path, chain[0])
  {
    forall i | 0 <= i < |chain| - 1 ensures Imports(manifest, chain[i + 1], chain[i]) {
      if i > 0 {
        assert Imports(manifest, chain[1..][i], chain[1..][i - 1]);
      }
    }
  }

  /** A file reached by both manifests over unchanged files is the same in both. */
  lemma StateAlike(chain: seq<string>, current: Manifest, previous: Manifest, path: string, target: string)
    requires ResolvesAlike(current, previous) && UsesOnlySame(current, previous, path)
    requires UsesBy(chain, current, path, target) && UsesBy(chain, previous, path, target)
    ensures target in current.files <==> target in previous.files
    ensures target in current.files ==> current.files[target] == previous.files[target]
  {
    assert Uses(current, path, target);
    assert !ChangedPath(current, previous, target);
    if target in current.files {
      forall q | Links(current, previous, q, target) ensures !ChangedPath(current, previous, q) {
        var here := if Imports(current, target, q) then current else previous;
        var longer := [q] + chain;
        assert longer[1..] == chain;
        UsesLonger(longer, here, path);
        assert Uses(here, path, q);
      }
    }
  }

  /** Whatever is compiled from all that a file reaches meets what `IncrementalIsCold` asks. */
  lemma ReadersQualify<O(!new)>(compile: map<string, FileState> -> O, current: Manifest, previous: Manifest)
    requires ResolvesAlike(current, previous)
    ensures ReadsWhatItUses((manifest, path) => compile(Reading(manifest, path)), current, previous)
  {
    forall path | path in current.files && UsesOnlySame(current, previous, path)
      ensures Reading(current, path) == Reading(previous, path)
    {
      forall target | Uses(current, path, target) || Uses(previous, path, target)
        ensures target in Reading(current, path) <==> target in Reading(previous, path)
        ensures target in Reading(current, path) ==> Reading(current, path)[target] == Reading(previous, path)[target]
      {
        var here := if Uses(current, path, target) then current else previous;
        var chain :| UsesBy(chain, here, path, target);
        UsedAlike(chain, current, previous, path, target);
      }
      assert Reading(current, path).Keys == Reading(previous, path).Keys;
    }
  }

  /** Such a compiler does read its imports: here only the imported text changes, and the output with it. */
  lemma ReadersRead()
    ensures var current := Manifest("", map["a" := FileState("1", ["b"]), "b" := FileState("2", [])]);
            var previous := Manifest("", map["a" := FileState("1", ["b"]), "b" := FileState("3", [])]);
            ResolvesAlike(current, previous) && SameText(current, previous, "a") &&
            Reading(current, "a") != Reading(previous, "a")
  {
    var current := Manifest("", map["a" := FileState("1", ["b"]), "b" := FileState("2", [])]);
    var previous := Manifest("", map["a" := FileState("1", ["b"]), "b" := FileState("3", [])]);
    assert UsesBy(["b", "a"], current, "a", "b") && UsesBy(["b", "a"], previous, "a", "b");
    assert Uses(current, "a", "b") && Uses(previous, "a", "b");
    assert Reading(current, "a")["b"] != Reading(previous, "a")["b"];
  }

  // ---- Building the manifest ---------------------------------------------------------------

  /** No source changed: the same paths with the same hashes, by length and lookup. */
  predicate Reuses(salt: string, hashes: map<string, string>, previous: Option<Manifest>) {
    previous.Some? && previous.value.salt == salt && |previous.value.files| == |hashes| &&
    forall p | p in hashes :: p in previous.value.files && previous.value.files[p].hash == hashes[p]
  }

  /** `build_incremental_manifest`, given each input's hash and resolved references. */
  method BuildIncrementalManifest(inputs: map<string, FileState>, salt: string, previous: Option<Manifest>)
    returns (manifest: Manifest)
    ensures manifest.salt == salt && manifest.files.Keys == inputs.Keys
    ensures forall p | p in inputs :: manifest.files[p].hash == inputs[p].hash
    ensures previous.Some? && previous.value.salt == salt && ChangedPaths(Manifest(salt, inputs), previous.value) == {} ==>
              manifest == previous.value
    ensures !(previous.Some? && previous.value.salt == salt && ChangedPaths(Manifest(salt, inputs), previous.value) == {}) ==>
              manifest == Manifest(salt, inputs)
  {
    var hashes := map p | p in inputs :: inputs[p].hash;
    ReusesExactly(inputs, salt, previous);
    if Reuses(salt, hashes, previous) {
      return Manifest(salt, previous.value.files);
    }
    return Manifest(salt, inputs);
  }

  /** The graph is reused exactly when no path is new, edited or removed. */
  lemma ReusesExactly(inputs: map<string, FileState>, salt: string, previous: Option<Manifest>)
    ensures Reuses(salt, map p | p in inputs :: inputs[p].hash, previous) <==>
            previous.Some? && previous.value.salt == salt && ChangedPaths(Manifest(salt, inputs), previous.value) == {}
    ensures Reuses(salt, map p | p in inputs :: inputs[p].hash, previous) ==> previous.value.files.Keys == inputs.Keys
  {
    var hashes := map p | p in inputs :: inputs[p].hash;
    assert hashes.Keys == inputs.Keys;
    if previous.Some? && previous.value.salt == salt {
      var files := previous.value.files;
      if Reuses(salt, hashes, previous) {
        SameSize(hashes.Keys, files.Keys);
        assert forall p :: !ChangedPath(Manifest(salt, inputs), previous.value, p);
        assert ChangedPaths(Manifest(salt, inputs), previous.value) == {};
      }
      if ChangedPaths(Manifest(salt, inputs), previous.value) == {} {
        forall p ensures p in inputs <==> p in files {
          assert !ChangedPath(Manifest(salt, inputs), previous.value, p);
        }
        assert hashes.Keys == files.Keys;
        forall p | p in hashes ensures files[p].hash == hashes[p] {
          assert !ChangedPath(Manifest(salt, inputs), previous.value, p);
        }
        assert |hashes.Keys| == |hashes| && |files.Keys| == |files|;
      }
    }
  }

  lemma SameSize(a: set<string>, b: set<string>)
    requires a <= b && |a| == |b|
    ensures a == b
  {
    if a != b {
      SmallerSet(a, b);
    }
  }
}
