/**
 * Scheduling projects of a solution (`crossproject.rs`): wait-only edges between projects whose
 * write roots overlap, what they buy a parallel schedule, and the merge of referenced projects.
 *
 * A write root is the components of a canonical path, in the file system's case.
 */
module CrossProject {

  import opened Common

  type Path = seq<string>

  datatype Project = Project(config: string, references: seq<string>)

  /** `write_root_contains` */
  predicate Contains(root: Path, path: Path) {
    root <= path
  }

  /** `write_roots_overlap` */
  predicate Overlap(left: seq<Path>, right: seq<Path>) {
    exists i, j | 0 <= i < |left| && 0 <= j < |right| :: Contains(left[i], right[j]) || Contains(right[j], left[i])
  }

  /** The place is one of the roots or lies below one. */
  ghost predicate Below(roots: seq<Path>, place: Path) {
    exists root | root in roots :: root <= place
  }

  lemma BothAbove(a: Path, b: Path, place: Path)
    requires a <= place && b <= place
    ensures a <= b || b <= a
  {
    if |a| <= |b| {
      assert a == place[..|a|] == b[..|a|];
    } else {
      assert b == place[..|b|] == a[..|b|];
    }
  }

  /** Overlapping roots are those with a place below both. */
  lemma OverlapMeans(left: seq<Path>, right: seq<Path>)
    ensures Overlap(left, right) <==> exists place :: Below(left, place) && Below(right, place)
  {
    if Overlap(left, right) {
      var i, j :| 0 <= i < |left| && 0 <= j < |right| && (Contains(left[i], right[j]) || Contains(right[j], left[i]));
      var place := if Contains(left[i], right[j]) then right[j] else left[i];
      assert left[i] in left && right[j] in right && left[i] <= place && right[j] <= place;
      assert Below(left, place) && Below(right, place);
    }
    if place :| Below(left, place) && Below(right, place) {
      var a :| a in left && a <= place;
      var b :| b in right && b <= place;
      var i :| 0 <= i < |left| && left[i] == a;
      var j :| 0 <= j < |right| && right[j] == b;
      BothAbove(a, b, place);
      assert Contains(left[i], right[j]) || Contains(right[j], left[i]);
    }
  }

  /** The place lies in or below a write root of the project. */
  ghost predicate WritesTo(roots: map<string, seq<Path>>, config: string, place: Path) {
    config in roots && Below(roots[config], place)
  }

  lemma OverlapWrites(roots: map<string, seq<Path>>, a: string, b: string)
    ensures Overlap(RootsOf(roots, a), RootsOf(roots, b)) <==>
            exists place :: WritesTo(roots, a, place) && WritesTo(roots, b, place)
  {
    OverlapMeans(RootsOf(roots, a), RootsOf(roots, b));
    forall place ensures WritesTo(roots, a, place) == Below(RootsOf(roots, a), place) &&
                         WritesTo(roots, b, place) == Below(RootsOf(roots, b), place) {
    }
  }

  function RootsOf(roots: map<string, seq<Path>>, config: string): seq<Path> {
    if config in roots then roots[config] else []
  }

  // ---- Wait-only edges ---------------------------------------------------------------------

  predicate Distinct(projects: seq<Project>) {
    forall i, j | 0 <= i < j < |projects| :: projects[i].config != projects[j].config
  }

  /** Whether a project's write roots overlap those of `later`. */
  function Overlapping(roots: map<string, seq<Path>>, later: string): string -> bool {
    config => Overlap(RootsOf(roots, config), RootsOf(roots, later))
  }

  /** Those of the first `n` projects with the property, in order. */
  function Among(projects: seq<Project>, n: nat, property: string -> bool): seq<string>
    requires n <= |projects|
  {
    if n == 0 then []
    else
      var next := projects[n - 1].config;
      Among(projects, n - 1, property) + if property(next) then [next] else []
  }

  lemma {:induction false} AmongMeans(projects: seq<Project>, n: nat, property: string -> bool, config: string)
    requires n <= |projects|
    ensures config in Among(projects, n, property) <==>
            property(config) && exists i | 0 <= i < n :: projects[i].config == config
  {
    if n > 0 {
      AmongMeans(projects, n - 1, property, config);
    }
  }

  /** The earlier projects whose write roots overlap those of project `n`. */
  function Earlier(projects: seq<Project>, n: nat, roots: map<string, seq<Path>>): seq<string>
    requires n < |projects|
  {
    Among(projects, n, Overlapping(roots, projects[n].config))
  }

  function WaitsFor(dependencies: map<string, seq<string>>, config: string): seq<string> {
    if config in dependencies then dependencies[config] else []
  }

  /** The first `n` projects wait for exactly the earlier ones whose write roots overlap theirs. */
  ghost predicate Derived(projects: seq<Project>, n: nat, roots: map<string, seq<Path>>, dependencies: map<string, seq<string>>)
    requires n <= |projects|
  {
    (forall i | 0 <= i < n :: WaitsFor(dependencies, projects[i].config) == Earlier(projects, i, roots)) &&
    dependencies.Keys <= Configs(projects, n)
  }

  function Configs(projects: seq<Project>, n: nat): (r: set<string>)
    requires n <= |projects|
  {
    set i | 0 <= i < n :: projects[i].config
  }

  method EarlierOverlapping(projects: seq<Project>, later: nat, roots: map<string, seq<Path>>) returns (waits: seq<string>)
    requires later < |projects|
    ensures waits == Earlier(projects, later, roots)
  {
    waits := [];
    var earlier := 0;
    while earlier < later
      invariant 0 <= earlier <= later && waits == Among(projects, earlier, Overlapping(roots, projects[later].config))
    {
      if Overlap(RootsOf(roots, projects[earlier].config), RootsOf(roots, projects[later].config)) {
        waits := waits + [projects[earlier].config];
      }
      earlier := earlier + 1;
    }
  }

  function WithWaits(dependencies: map<string, seq<string>>, config: string, waits: seq<string>): map<string, seq<string>> {
    if waits == [] then dependencies else dependencies[config := waits]
  }

  lemma WithWaitsMeans(dependencies: map<string, seq<string>>, config: string, waits: seq<string>)
    requires config !in dependencies
    ensures var after := WithWaits(dependencies, config, waits);
            WaitsFor(after, config) == waits && after.Keys <= dependencies.Keys + {config} &&
            forall c :: c != config ==> WaitsFor(after, c) == WaitsFor(dependencies, c)
  {
  }

  lemma NotListed(projects: seq<Project>, n: nat)
    requires Distinct(projects) && n < |projects|
    ensures projects[n].config !in Configs(projects, n)
    ensures Configs(projects, n + 1) == Configs(projects, n) + {projects[n].config}
  {
  }

  lemma DerivedNext(projects: seq<Project>, n: nat, roots: map<string, seq<Path>>, before: map<string, seq<string>>)
    requires Distinct(projects) && n < |projects| && Derived(projects, n, roots, before)
    ensures Derived(projects, n + 1, roots, WithWaits(before, projects[n].config, Earlier(projects, n, roots)))
  {
    NotListed(projects, n);
    WithWaitsMeans(before, projects[n].config, Earlier(projects, n, roots));
  }

  /** `derive_wait_only_dependencies` */
  method DeriveWaitOnlyDependencies(projects: seq<Project>, roots: map<string, seq<Path>>)
    returns (dependencies: map<string, seq<string>>)
    requires Distinct(projects)
    ensures Derived(projects, |projects|, roots, dependencies)
  {
    dependencies := map[];
    if projects == [] {
      return;
    }
    DerivedNext(projects, 0, roots, map[]);
    var later := 1;
    while later < |projects|
      invariant 1 <= later <= |projects| && Derived(projects, later, roots, dependencies)
    {
      var waits := EarlierOverlapping(projects, later, roots);
      DerivedNext(projects, later, roots, dependencies);
      if waits != [] {
        dependencies := dependencies[projects[later].config := waits];
      }
      later := later + 1;
    }
  }

  lemma SameProject(projects: seq<Project>, i: nat, k: nat)
    requires Distinct(projects) && i < |projects| && k < |projects| && projects[i].config == projects[k].config
    ensures i == k
  {
  }

  /** Of two projects whose write roots overlap the later waits for the earlier, and for no others. */
  lemma WaitsExactly(projects: seq<Project>, roots: map<string, seq<Path>>, dependencies: map<string, seq<string>>, i: nat, j: nat)
    requires Distinct(projects) && i < |projects| && j < |projects|
    requires Derived(projects, |projects|, roots, dependencies)
    ensures projects[i].config in WaitsFor(dependencies, projects[j].config) <==>
            i < j && exists place :: WritesTo(roots, projects[i].config, place) && WritesTo(roots, projects[j].config, place)
  {
    OverlapWrites(roots, projects[i].config, projects[j].config);
    hide WritesTo;
    var waits := Earlier(projects, j, roots);
    AmongMeans(projects, j, Overlapping(roots, projects[j].config), projects[i].config);
    if projects[i].config in waits {
      var k :| 0 <= k < j && projects[k].config == projects[i].config;
      SameProject(projects, i, k);
    }
  }

  lemma {:induction false} AmongInOrder(projects: seq<Project>, n: nat, property: string -> bool, a: nat, b: nat)
    requires n <= |projects| && a < b < |Among(projects, n, property)|
    ensures exists i, k | 0 <= i < k < n ::
              Among(projects, n, property)[a] == projects[i].config && Among(projects, n, property)[b] == projects[k].config
  {
    var before := Among(projects, n - 1, property);
    if b < |before| {
      AmongInOrder(projects, n - 1, property, a, b);
    } else {
      AmongMeans(projects, n - 1, property, before[a]);
      var i :| 0 <= i < n - 1 && projects[i].config == before[a];
      assert Among(projects, n, property)[b] == projects[n - 1].config;
    }
  }

  /** A project waits for the earlier ones in the order they have among the projects. */
  lemma WaitsInOrder(projects: seq<Project>, roots: map<string, seq<Path>>, dependencies: map<string, seq<string>>, j: nat, a: nat, b: nat)
    requires Derived(projects, |projects|, roots, dependencies) && j < |projects|
    requires projects[j].config in dependencies && a < b < |dependencies[projects[j].config]|
    ensures exists i, k | 0 <= i < k < j ::
              dependencies[projects[j].config][a] == projects[i].config && dependencies[projects[j].config][b] == projects[k].config
  {
    AmongInOrder(projects, j, Overlapping(roots, projects[j].config), a, b);
  }

  // ---- Any schedule ------------------------------------------------------------------------

  /** The projects come after what they reference. */
  ghost predicate DependencyOrdered(projects: seq<Project>) {
    forall i, j | 0 <= i < |projects| && 0 <= j < |projects| && projects[j].config in projects[i].references :: j < i
  }

  datatype Status = Queued | Running | Done

  /** How far each project of a build is, by its place in the list. */
  type State = seq<Status>

  /** What a project's start waits for: its references and its wait-only dependencies. */
  predicate Ready(projects: seq<Project>, dependencies: map<string, seq<string>>, s: State, i: nat)
    requires i < |projects| == |s|
  {
    forall j | 0 <= j < |projects| &&
               (projects[j].config in projects[i].references || projects[j].config in WaitsFor(dependencies, projects[i].config)) ::
      s[j].Done?
  }

  datatype Step = Start(i: nat) | Finish(i: nat)

  predicate Enabled(projects: seq<Project>, dependencies: map<string, seq<string>>, s: State, step: Step) {
    |s| == |projects| && step.i < |s| &&
    match step
    case Start(i) => s[i].Queued? && Ready(projects, dependencies, s, i)
    case Finish(i) => s[i].Running?
  }

  function Apply(s: State, step: Step): State
    requires step.i < |s|
  {
    s[step.i := if step.Start? then Running else Done]
  }

  ghost predicate Schedule(projects: seq<Project>, dependencies: map<string, seq<string>>, states: seq<State>, steps: seq<Step>) {
    |states| == |steps| + 1 && |states[0]| == |projects| && (forall i | 0 <= i < |projects| :: states[0][i].Queued?) &&
    forall k | 0 <= k < |steps| :: Enabled(projects, dependencies, states[k], steps[k]) && states[k + 1] == Apply(states[k], steps[k])
  }

  /** Whatever has started had all it waits for done. */
  ghost predicate StartedReady(projects: seq<Project>, dependencies: map<string, seq<string>>, s: State) {
    |s| == |projects| && forall i | 0 <= i < |s| && !s[i].Queued? :: Ready(projects, dependencies, s, i)
  }

  lemma {:induction false} ScheduleKeeps(projects: seq<Project>, dependencies: map<string, seq<string>>,
                                         states: seq<State>, steps: seq<Step>, k: nat)
    requires Schedule(projects, dependencies, states, steps) && k < |states|
    ensures StartedReady(projects, dependencies, states[k])
  {
    if k > 0 {
      ScheduleKeeps(projects, dependencies, states, steps, k - 1);
      var s, step := states[k - 1], steps[k - 1];
      assert Enabled(projects, dependencies, s, step) && states[k] == Apply(s, step);
      forall i | 0 <= i < |projects| && !states[k][i].Queued? ensures Ready(projects, dependencies, states[k], i) {
        assert Ready(projects, dependencies, s, i);
      }
    }
  }

  /** A project is queued until it starts and done once it finished. */
  lemma {:induction false} StatusMeans(projects: seq<Project>, dependencies: map<string, seq<string>>,
                                       states: seq<State>, steps: seq<Step>, k: nat, i: nat)
    requires Schedule(projects, dependencies, states, steps) && k < |states| && i < |projects|
    ensures |states[k]| == |projects|
    ensures states[k][i].Queued? <==> forall m | 0 <= m < k :: steps[m] != Start(i)
    ensures states[k][i].Done? <==> exists m | 0 <= m < k :: steps[m] == Finish(i)
  {
    if k > 0 {
      StatusMeans(projects, dependencies, states, steps, k - 1, i);
      assert Enabled(projects, dependencies, states[k - 1], steps[k - 1]) && states[k] == Apply(states[k - 1], steps[k - 1]);
      hide Ready;
    }
  }

  /** A project starts after everything it references, or waits for, has finished. */
  lemma StartsAfter(projects: seq<Project>, dependencies: map<string, seq<string>>,
                    states: seq<State>, steps: seq<Step>, k: nat, i: nat, j: nat)
    requires Schedule(projects, dependencies, states, steps) && k < |steps| && steps[k] == Start(i) && j < |projects|
    requires projects[j].config in projects[i].references ||
             (projects[i].config in dependencies && projects[j].config in dependencies[projects[i].config])
    ensures exists m | 0 <= m < k :: steps[m] == Finish(j)
  {
    assert Enabled(projects, dependencies, states[k], steps[k]);
    StatusMeans(projects, dependencies, states, steps, k, j);
  }

  /** No schedule that respects the edges runs two projects whose write roots overlap at once. */
  lemma OverlappingNeverTogether(projects: seq<Project>, roots: map<string, seq<Path>>, dependencies: map<string, seq<string>>,
                                 states: seq<State>, steps: seq<Step>, k: nat, i: nat, j: nat)
    requires Distinct(projects) && Schedule(projects, dependencies, states, steps)
    requires Derived(projects, |projects|, roots, dependencies)
    requires k < |states| && i < j < |projects| == |states[k]| && states[k][i].Running? && states[k][j].Running?
    ensures !exists place :: WritesTo(roots, projects[i].config, place) && WritesTo(roots, projects[j].config, place)
  {
    ScheduleKeeps(projects, dependencies, states, steps, k);
    WaitsExactly(projects, roots, dependencies, i, j);
    assert Ready(projects, dependencies, states[k], j);
  }

  /**
   * The edges form no cycle with the references: while a project is left, one is running or can
   * start.
   */
  lemma NeverStuck(projects: seq<Project>, roots: map<string, seq<Path>>, dependencies: map<string, seq<string>>,
                   s: State) returns (i: nat)
    requires Distinct(projects) && DependencyOrdered(projects) && |s| == |projects|
    requires Derived(projects, |projects|, roots, dependencies)
    requires exists n | 0 <= n < |s| :: !s[n].Done?
    ensures i < |s| && (s[i].Running? || Enabled(projects, dependencies, s, Start(i)))
  {
    i := 0;
    while s[i].Done?
      invariant i < |s| && forall n | 0 <= n < i :: s[n].Done?
      decreases |s| - i
    {
      i := i + 1;
    }
    if s[i].Queued? {
      WaitsForEarlier(projects, roots, dependencies, s, i);
    }
  }

  lemma WaitsForEarlier(projects: seq<Project>, roots: map<string, seq<Path>>, dependencies: map<string, seq<string>>, s: State, i: nat)
    requires Distinct(projects) && DependencyOrdered(projects) && Derived(projects, |projects|, roots, dependencies)
    requires i < |projects| == |s| && forall n | 0 <= n < i :: s[n].Done?
    ensures Ready(projects, dependencies, s, i)
  {
    forall j | 0 <= j < |projects| &&
               (projects[j].config in projects[i].references || projects[j].config in WaitsFor(dependencies, projects[i].config))
      ensures s[j].Done?
    {
      if projects[j].config !in projects[i].references {
        WaitsExactly(projects, roots, dependencies, j, i);
      }
      assert j < i;
    }
  }

  // ---- Merging referenced projects ---------------------------------------------------------

  function ReferencesOf(references: map<string, seq<string>>, config: string): seq<string> {
    if config in references then references[config] else []
  }

  ghost predicate Leads(chain: seq<string>, references: map<string, seq<string>>, from: string, to: string) {
    |chain| > 0 && chain[0] == from && chain[|chain| - 1] == to &&
    forall i | 0 <= i < |chain| - 1 :: chain[i] in references && chain[i + 1] in references[chain[i]]
  }

  /** `from` references `to`, over any number of projects. */
  ghost predicate Reaches(references: map<string, seq<string>>, from: string, to: string) {
    exists chain :: Leads(chain, references, from, to)
  }

  lemma ReachesSelf(references: map<string, seq<string>>, config: string)
    ensures Reaches(references, config, config)
  {
    assert Leads([config], references, config, config);
  }

  lemma ReachesFurther(references: map<string, seq<string>>, from: string, next: string, to: string)
    requires next in ReferencesOf(references, from) && Reaches(references, next, to)
    ensures Reaches(references, from, to)
  {
    var chain :| Leads(chain, references, next, to);
    var longer := [from] + chain;
    forall i | 0 <= i < |longer| - 1 ensures longer[i + 1] in ReferencesOf(references, longer[i]) {
      if i > 0 {
        assert chain[i - 1 + 1] in ReferencesOf(references, chain[i - 1]);
      }
    }
    assert Leads(longer, references, from, to);
  }

  ghost predicate Once(configs: seq<string>) {
    forall i, j | 0 <= i < j < |configs| :: configs[i] != configs[j]
  }

  /** Each merged project comes after what it references. */
  ghost predicate AfterReferences(merged: seq<string>, references: map<string, seq<string>>) {
    forall i, c | 0 <= i < |merged| && c in ReferencesOf(references, merged[i]) :: c in merged[..i]
  }

  ghost predicate Ranked(references: map<string, seq<string>>, rank: string -> nat) {
    forall c, d | c in references && d in references[c] :: rank(d) < rank(c)
  }

  /** The projects `references` mentions lie in the universe. */
  ghost predicate Closed(universe: set<string>, references: map<string, seq<string>>) {
    forall c | c in references :: forall d | d in references[c] :: d in universe
  }

  /** What is merged was visited; what is visited and not merged is still under way. */
  ghost predicate UnderWay(visited: set<string>, merged: seq<string>, open: set<string>) {
    Once(merged) && (forall c :: c in visited <==> c in merged || c in open) && (forall c | c in open :: c !in merged)
  }

  /** Everything merged has its references visited. */
  ghost predicate Complete(visited: set<string>, merged: seq<string>, references: map<string, seq<string>>) {
    forall c, d | c in merged && d in ReferencesOf(references, c) :: d in visited
  }

  /** Along an acyclic graph: every project under way references its way to `config`. */
  ghost predicate Above(open: set<string>, rank: string -> nat, config: string) {
    forall c | c in open :: rank(c) > rank(config)
  }

  /** What holds between visits, with `open` under way, begun from `seeds`. */
  ghost predicate Visiting(visited: set<string>, merged: seq<string>, open: set<string>,
                           references: map<string, seq<string>>, universe: set<string>) {
    UnderWay(visited, merged, open) && Complete(visited, merged, references) && visited <= universe &&
    Closed(universe, references)
  }

  /** What visits of `configs` add: them and what they reach. */
  ghost predicate Adds(before: seq<string>, after: seq<string>, references: map<string, seq<string>>, configs: seq<string>) {
    before <= after && forall c | c in after && c !in before :: Wanted(references, configs, c)
  }

  ghost predicate Wanted(references: map<string, seq<string>>, configs: seq<string>, c: string) {
    exists d | d in configs :: Reaches(references, d, c)
  }

  /** What a visit keeps of the order, on a graph without cycles. */
  ghost predicate KeepsOrder(before: seq<string>, after: seq<string>, open: set<string>, references: map<string, seq<string>>,
                             configs: seq<string>, rank: string -> nat) {
    Ranked(references, rank) && (forall d | d in configs :: Above(open, rank, d)) && AfterReferences(before, references) ==>
      AfterReferences(after, references)
  }

  /**
   * `visit_reference`: merges the project and what it references, each once, after its own
   * references; ends on any graph. Without a cycle, every project comes after what it references.
   */
  method VisitReference(config: string, references: map<string, seq<string>>, visited: set<string>, merged: seq<string>,
                        ghost open: set<string>, ghost universe: set<string>, ghost rank: string -> nat)
    returns (visited': set<string>, merged': seq<string>)
    requires config in universe && Visiting(visited, merged, open, references, universe)
    ensures Visiting(visited', merged', open, references, universe)
    ensures visited <= visited' && config in visited' && Adds(merged, merged', references, [config])
    ensures KeepsOrder(merged, merged', open, references, [config], rank)
    decreases |universe - visited|, 0
  {
    if config in visited {
      return visited, merged;
    }
    Shrinks(universe, visited, config);
    visited', merged' := VisitEach(ReferencesOf(references, config), references, visited + {config}, merged,
                                   open + {config}, universe, rank);
    MergedLast(visited', merged', open, references, universe, config, rank);
    OwnerAdds(merged, merged', open, references, config, rank);
    merged' := merged' + [config];
  }

  /** Visits the projects in turn. */
  method VisitEach(configs: seq<string>, references: map<string, seq<string>>, visited: set<string>, merged: seq<string>,
                   ghost open: set<string>, ghost universe: set<string>, ghost rank: string -> nat)
    returns (visited': set<string>, merged': seq<string>)
    requires (forall c | c in configs :: c in universe) && Visiting(visited, merged, open, references, universe)
    ensures Visiting(visited', merged', open, references, universe)
    ensures visited <= visited' && (forall c | c in configs :: c in visited') && Adds(merged, merged', references, configs)
    ensures KeepsOrder(merged, merged', open, references, configs, rank)
    decreases |universe - visited|, 1
  {
    visited', merged' := visited, merged;
    var index := 0;
    while index < |configs|
      invariant 0 <= index <= |configs|
      invariant Visiting(visited', merged', open, references, universe) && visited <= visited'
      invariant AllIn(configs, index, visited')
      invariant Adds(merged, merged', references, configs)
      invariant KeepsOrder(merged, merged', open, references, configs, rank)
    {
      ghost var was, seen := merged', visited';
      Fewer(universe, visited, visited');
      visited', merged' := VisitReference(configs[index], references, visited', merged', open, universe, rank);
      AddsMore(merged, was, merged', open, references, configs, index, rank);
      AllInNext(configs, index, seen, visited');
      index := index + 1;
    }
    AllInAll(configs, visited');
  }

  ghost predicate AllIn(configs: seq<string>, n: nat, visited: set<string>)
    requires n <= |configs|
  {
    forall i | 0 <= i < n :: configs[i] in visited
  }

  lemma AllInNext(configs: seq<string>, n: nat, seen: set<string>, visited: set<string>)
    requires n < |configs| && AllIn(configs, n, seen) && seen <= visited && configs[n] in visited
    ensures AllIn(configs, n + 1, visited)
  {
  }

  lemma AllInAll(configs: seq<string>, visited: set<string>)
    requires AllIn(configs, |configs|, visited)
    ensures forall c | c in configs :: c in visited
  {
  }

  lemma Fewer(universe: set<string>, less: set<string>, more: set<string>)
    requires less <= more
    ensures |universe - more| <= |universe - less|
  {
    assert universe - less == (universe - more) + ((universe - less) - (universe - more));
  }

  lemma Shrinks(universe: set<string>, visited: set<string>, config: string)
    requires config in universe && config !in visited
    ensures |universe - (visited + {config})| < |universe - visited|
  {
    assert universe - visited == (universe - (visited + {config})) + {config};
  }

  lemma AddsMore(merged: seq<string>, was: seq<string>, now: seq<string>, open: set<string>, references: map<string, seq<string>>,
                 configs: seq<string>, index: nat, rank: string -> nat)
    requires index < |configs| && Adds(merged, was, references, configs) && Adds(was, now, references, [configs[index]])
    requires KeepsOrder(merged, was, open, references, configs, rank) && KeepsOrder(was, now, open, references, [configs[index]], rank)
    ensures Adds(merged, now, references, configs) && KeepsOrder(merged, now, open, references, configs, rank)
  {
    forall c | c in now && c !in merged ensures Wanted(references, configs, c) {
      if c !in was {
        var d :| d in [configs[index]] && Reaches(references, d, c);
        assert d in configs;
      }
    }
  }

  /** What its references reach, the project reaches. */
  lemma OwnerAdds(merged: seq<string>, after: seq<string>, open: set<string>, references: map<string, seq<string>>,
                  config: string, rank: string -> nat)
    requires Adds(merged, after, references, ReferencesOf(references, config))
    requires KeepsOrder(merged, after, open + {config}, references, ReferencesOf(references, config), rank)
    ensures Adds(merged, after + [config], references, [config])
    ensures Ranked(references, rank) && Above(open, rank, config) && AfterReferences(merged, references) ==>
              AfterReferences(after, references)
  {
    ReachesSelf(references, config);
    forall c | c in after + [config] && c !in merged ensures Wanted(references, [config], c) {
      if c in after {
        var d :| d in ReferencesOf(references, config) && Reaches(references, d, c);
        ReachesFurther(references, config, d, c);
      }
      assert config in [config] && Reaches(references, config, c);
    }
  }

  /** With all its references visited, the project itself is merged. */
  lemma MergedLast(visited: set<string>, merged: seq<string>, open: set<string>, references: map<string, seq<string>>,
                   universe: set<string>, config: string, rank: string -> nat)
    requires Visiting(visited, merged, open + {config}, references, universe) && config !in open
    requires forall d | d in ReferencesOf(references, config) :: d in visited
    ensures Visiting(visited, merged + [config], open, references, universe)
    ensures Ranked(references, rank) && Above(open, rank, config) && AfterReferences(merged, references) ==>
              AfterReferences(merged + [config], references)
  {
    var more := merged + [config];
    if Ranked(references, rank) && Above(open, rank, config) && AfterReferences(merged, references) {
      forall i, c | 0 <= i < |more| && c in ReferencesOf(references, more[i]) ensures c in more[..i] {
        if i < |merged| {
          assert more[..i] == merged[..i];
        } else {
          assert more[..i] == merged;
          assert rank(c) < rank(config);
        }
      }
    }
  }

  /** A visit of the references of a project: everything they reach, once each. */
  method VisitAll(configs: seq<string>, references: map<string, seq<string>>, ghost rank: string -> nat)
    returns (merged: seq<string>)
    ensures Once(merged) && forall c :: c in merged <==> Wanted(references, configs, c)
    ensures Ranked(references, rank) ==> AfterReferences(merged, references)
  {
    ghost var universe := (set c | c in configs) + Mentioned(references);
    var visited;
    visited, merged := VisitEach(configs, references, {}, [], {}, universe, rank);
    forall c, d | d in configs && Reaches(references, d, c) ensures c in merged {
      var chain :| Leads(chain, references, d, c);
      ReachedMerged(chain, merged, visited, references, d, c);
    }
  }

  function Mentioned(references: map<string, seq<string>>): set<string> {
    set c, d | c in references && d in references[c] :: d
  }

  lemma {:induction false} ReachedMerged(chain: seq<string>, merged: seq<string>, visited: set<string>,
                                         references: map<string, seq<string>>, from: string, to: string)
    requires Leads(chain, references, from, to) && from in visited
    requires UnderWay(visited, merged, {}) && Complete(visited, merged, references)
    ensures to in merged
    decreases |chain|
  {
    if |chain| > 1 {
      assert chain[1] in ReferencesOf(references, chain[0]);
      forall i | 0 <= i < |chain[1..]| - 1 ensures chain[1..][i + 1] in ReferencesOf(references, chain[1..][i]) {
        assert chain[(i + 1) + 1] in ReferencesOf(references, chain[i + 1]);
      }
      assert Leads(chain[1..], references, chain[1], to);
      ReachedMerged(chain[1..], merged, visited, references, chain[1], to);
    }
  }
}

