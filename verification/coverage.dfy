/**
 * The physical watches of a solution watch (`solution_watch_coverage.rs`): which directories the OS
 * watches for the logical routes, and which events reach which route.
 *
 * A path is its components from the root, canonical where it is compared; resolving a logical path
 * is a function of the file system, given to each refresh.
 */
module Coverage {

  import opened Order

  type Path = seq<string>

  /** `path_within`: `path` is `root` or below it. */
  predicate Within(path: Path, root: Path) {
    root <= path
  }

  /** The length of a path as text. */
  function TextLength(path: Path): nat {
    if path == [] then 0 else 1 + |path[0]| + TextLength(path[1..])
  }

  datatype WatchKind = Root | Rojo | Config | PackageFile | PackageDirectory | Macro

  function KindRank(kind: WatchKind): nat {
    match kind
    case Root => 0
    case Rojo => 1
    case Config => 2
    case PackageFile => 3
    case PackageDirectory => 4
    case Macro => 5
  }

  /** A logical watch; a physical one has no project and a canonical path. */
  datatype WatchKey = WatchKey(kind: WatchKind, project: string, path: Path) {
    predicate FileWatch() {
      kind.Config? || kind.PackageFile? || kind.Macro?
    }
  }

  function Parent(path: Path): Path {
    if path == [] then path else path[..|path| - 1]
  }

  /** A logical watch, where it is on disk, and the generated trees it ignores. */
  datatype Route = Route(key: WatchKey, path: Path, excluded: seq<Path>)

  // ---- Delivery ----------------------------------------------------------------------------

  datatype EventKind = Update | Delete

  datatype Event = Event(kind: EventKind, path: Path)

  /** `directory_is_artifact` */
  predicate IsArtifact(directory: Path, artifacts: seq<Path>) {
    exists i | 0 <= i < |artifacts| :: Within(directory, artifacts[i])
  }

  lemma ArtifactIn(directory: Path, artifacts: seq<Path>)
    ensures IsArtifact(directory, artifacts) <==> exists tree | tree in artifacts :: tree <= directory
  {
    if tree :| tree in artifacts && tree <= directory {
      var i :| 0 <= i < |artifacts| && artifacts[i] == tree;
      assert Within(directory, artifacts[i]);
    }
    if i :| 0 <= i < |artifacts| && Within(directory, artifacts[i]) {
      assert artifacts[i] in artifacts;
    }
  }

  datatype Delivery = Skipped | Delivered(event: Event)

  /** What a route gets of an event: the event on the route's own spelling of the path. */
  function Deliver(route: Route, event: Event): Delivery {
    if route.key.FileWatch() then
      if event.path == route.path then Delivered(event.(path := route.key.path)) else Skipped
    else if IsArtifact(event.path, route.excluded) then Skipped
    else if Within(event.path, route.path) then
      var relative := event.path[|route.path|..];
      if route.key.kind.PackageDirectory? && |relative| > 1 then Skipped
      else Delivered(event.(path := route.key.path + relative))
    else if Within(route.path, event.path) then Delivered(event.(path := route.key.path))
    else Skipped
  }

  /** The events of a batch a route gets, in order. */
  function Matched(route: Route, events: seq<Event>): seq<Event> {
    if events == [] then []
    else
      (match Deliver(route, events[0]) case Skipped => [] case Delivered(event) => [event]) +
      Matched(route, events[1..])
  }

  lemma {:induction false} MatchedSum(route: Route, a: seq<Event>, b: seq<Event>)
    ensures Matched(route, a + b) == Matched(route, a) + Matched(route, b)
  {
    if a == [] {
      assert a + b == b;
    } else {
      assert (a + b)[1..] == a[1..] + b;
      MatchedSum(route, a[1..], b);
    }
  }

  /** One call of a route's handler: what it is told of, and whether the watch failed. */
  datatype Call = Call(key: WatchKey, events: seq<Event>, failed: bool)

  /** The calls a batch leads to: each route, in order, that gets an event or has to hear of a failure. */
  function Calls(routes: seq<Route>, events: seq<Event>, failed: bool): seq<Call> {
    if routes == [] then []
    else
      Calls(routes[..|routes| - 1], events, failed) +
      var route := routes[|routes| - 1];
      if Matched(route, events) != [] || failed then [Call(route.key, Matched(route, events), failed)] else []
  }

  /** A route is called with what it gets of the batch, when that is anything or the watch failed. */
  lemma {:induction false} Called(routes: seq<Route>, events: seq<Event>, failed: bool, route: Route)
    requires route in routes && (Matched(route, events) != [] || failed)
    ensures Call(route.key, Matched(route, events), failed) in Calls(routes, events, failed)
  {
    var front, last := routes[..|routes| - 1], routes[|routes| - 1];
    assert routes == front + [last];
    if route != last {
      Called(front, events, failed, route);
    }
  }

  /** `deliver` */
  method DeliverBatch(routes: seq<Route>, events: seq<Event>, failed: bool) returns (calls: seq<Call>)
    ensures calls == Calls(routes, events, failed)
  {
    calls := [];
    for i := 0 to |routes|
      invariant calls == Calls(routes[..i], events, failed)
    {
      assert routes[..i + 1][..i] == routes[..i];
      var matched := MatchEvents(routes[i], events);
      if matched != [] || failed {
        calls := calls + [Call(routes[i].key, matched, failed)];
      }
    }
    assert routes[..|routes|] == routes;
  }

  method MatchEvents(route: Route, events: seq<Event>) returns (matched: seq<Event>)
    ensures matched == Matched(route, events)
  {
    matched := [];
    for i := 0 to |events|
      invariant matched == Matched(route, events[..i])
    {
      assert events[..i + 1] == events[..i] + [events[i]];
      MatchedSum(route, events[..i], [events[i]]);
      match Deliver(route, events[i])
      case Skipped =>
      case Delivered(event) => matched := matched + [event];
    }
    assert events[..|events|] == events;
  }

  /**
   * What a route is told of an event: of its own file and no other; of a directory, whatever is not in a
   * generated tree and below it, a package directory's own entries only, under the same relative path;
   * and of a directory above it that changed, as of the route itself.
   */
  lemma DeliverMeans(route: Route, event: Event, seen: Event)
    ensures Deliver(route, event) == Delivered(seen) <==>
            seen.kind == event.kind &&
            if route.key.kind in {Config, PackageFile, Macro} then event.path == route.path && seen.path == route.key.path
            else
              (forall tree | tree in route.excluded :: !(tree <= event.path)) &&
              ((exists rest: Path :: event.path == route.path + rest && seen.path == route.key.path + rest &&
                                     (route.key.kind == PackageDirectory ==> |rest| <= 1)) ||
               (exists rest: Path :: rest != [] && route.path == event.path + rest && seen.path == route.key.path))
  {
    if route.path <= event.path {
      var relative := event.path[|route.path|..];
      assert event.path == route.path + relative;
      forall rest: Path | event.path == route.path + rest ensures rest == relative {
        assert (route.path + rest)[|route.path|..] == rest;
      }
    } else if event.path <= route.path {
      assert route.path == event.path + route.path[|event.path|..];
    }
    ArtifactIn(event.path, route.excluded);
  }

  lemma {:induction false} CallsSum(a: seq<Route>, b: seq<Route>, events: seq<Event>, failed: bool)
    ensures Calls(a + b, events, failed) == Calls(a, events, failed) + Calls(b, events, failed)
    decreases |b|
  {
    if b == [] {
      assert a + b == a;
    } else {
      var front, last := b[..|b| - 1], b[|b| - 1];
      assert (a + b)[..|a + b| - 1] == a + front;
      CallsSum(a, front, events, failed);
    }
  }

  lemma {:induction false} MatchesAny(route: Route, events: seq<Event>)
    ensures Matched(route, events) != [] <==> exists e | e in events :: Deliver(route, e).Delivered?
  {
    if events != [] {
      MatchesAny(route, events[1..]);
      assert events == [events[0]] + events[1..];
    }
  }

  /**
   * Of a batch each route is called by itself, in turn, and once: if it is told of any event, or the
   * watch failed, with what it is told of each event in turn.
   */
  lemma CallsMean(before: seq<Route>, route: Route, after: seq<Route>, first: seq<Event>, event: Event, more: seq<Event>, failed: bool)
    ensures var events := first + [event] + more;
            Calls(before + [route] + after, events, failed) ==
            Calls(before, events, failed) +
            (if failed || exists e | e in events :: Deliver(route, e).Delivered? then
               [Call(route.key, Matched(route, events), failed)] else []) +
            Calls(after, events, failed)
    ensures Matched(route, first + [event] + more) ==
            Matched(route, first) + (if Deliver(route, event).Delivered? then [Deliver(route, event).event] else []) +
            Matched(route, more)
  {
    var events := first + [event] + more;
    CallsSum(before + [route], after, events, failed);
    CallsSum(before, [route], events, failed);
    MatchesAny(route, events);
    MatchedSum(route, first + [event], more);
    MatchedSum(route, first, [event]);
    assert [route][..0] == [] && [event][1..] == [];
  }

  // ---- Choosing physical watches -----------------------------------------------------------

  /** The physical watch a route asks for. */
  function Candidate(route: Route): WatchKey {
    var kind := if route.key.FileWatch() then Config
                else if route.key.kind.PackageDirectory? then PackageDirectory
                else Root;
    WatchKey(kind, "", route.path)
  }

  predicate Candidates(keys: seq<WatchKey>, routes: seq<Route>) {
    (forall i, j | 0 <= i < j < |keys| :: keys[i] != keys[j]) &&
    (forall r | r in routes :: Candidate(r) in keys) &&
    (forall k | k in keys :: IsPhysical(k))
  }

  predicate IsPhysical(key: WatchKey) {
    (key.kind.Root? || key.kind.Config? || key.kind.PackageDirectory?) && key.project == ""
  }

  /** Shorter paths first. */
  predicate AncestorsFirst(keys: seq<WatchKey>) {
    forall i, j | 0 <= i < j < |keys| :: TextLength(keys[i].path) <= TextLength(keys[j].path)
  }

  /** An open recursive watch contains `key`'s directory. */
  predicate CoveredBy(key: WatchKey, open: set<WatchKey>) {
    exists w | w in open :: w.kind.Root? && Within(key.path, w.path)
  }

  /** `physical` needs no watch of its own. */
  predicate Redundant(physical: WatchKey, chosen: set<WatchKey>) {
    physical.kind.Root? && CoveredBy(physical, chosen)
  }

  /**
   * The watches wanted of the first `n` candidates: those no chosen ancestor covers, if they are
   * already held or can be opened.
   */
  function Chosen(ordered: seq<WatchKey>, n: nat, held: set<WatchKey>, failing: set<WatchKey>): set<WatchKey>
    requires n <= |ordered|
  {
    if n == 0 then {}
    else
      var chosen, next := Chosen(ordered, n - 1, held, failing), ordered[n - 1];
      if Redundant(next, chosen) || (next !in held && next in failing) then chosen else chosen + {next}
  }

  /** Neither open nor redundant when its turn comes, and unable to be opened. */
  predicate GivenUp(ordered: seq<WatchKey>, i: nat, held: set<WatchKey>, failing: set<WatchKey>)
    requires i < |ordered|
  {
    !Redundant(ordered[i], Chosen(ordered, i, held, failing)) && ordered[i] !in held && ordered[i] in failing
  }

  /** No wanted watch failed to open among the first `n` candidates. */
  predicate AllOpened(ordered: seq<WatchKey>, n: nat, held: set<WatchKey>, failing: set<WatchKey>)
    requires n <= |ordered|
  {
    forall i | 0 <= i < n :: !GivenUp(ordered, i, held, failing)
  }

  /** No recursive watch lies inside another. */
  predicate Antichain(open: set<WatchKey>) {
    forall a, b | a in open && b in open && a.kind.Root? && b.kind.Root? && Within(a.path, b.path) :: a == b
  }

  lemma {:induction false} PrefixLength(path: Path, root: Path)
    requires Within(path, root)
    ensures TextLength(root) <= TextLength(path)
    ensures TextLength(root) == TextLength(path) ==> root == path
  {
    if root != [] {
      assert path[0] == root[0];
      assert Within(path[1..], root[1..]);
      PrefixLength(path[1..], root[1..]);
      assert path == [path[0]] + path[1..] && root == [root[0]] + root[1..];
    }
  }

  lemma {:induction false} ChosenFrom(ordered: seq<WatchKey>, n: nat, held: set<WatchKey>, failing: set<WatchKey>)
    requires n <= |ordered|
    ensures forall k | k in Chosen(ordered, n, held, failing) :: k in ordered[..n]
  {
    if n > 0 {
      ChosenFrom(ordered, n - 1, held, failing);
      assert ordered[..n] == ordered[..n - 1] + [ordered[n - 1]];
    }
  }

  lemma {:induction false} ChosenGrows(ordered: seq<WatchKey>, m: nat, n: nat, held: set<WatchKey>, failing: set<WatchKey>)
    requires m <= n <= |ordered|
    ensures Chosen(ordered, m, held, failing) <= Chosen(ordered, n, held, failing)
  {
    if m < n {
      ChosenGrows(ordered, m, n - 1, held, failing);
    }
  }

  /** Taking ancestors first, no chosen recursive watch lies inside another. */
  lemma {:induction false} ChosenAntichain(ordered: seq<WatchKey>, n: nat, held: set<WatchKey>, failing: set<WatchKey>)
    requires n <= |ordered| && AncestorsFirst(ordered)
    requires forall k | k in ordered :: IsPhysical(k)
    ensures Antichain(Chosen(ordered, n, held, failing))
  {
    if n > 0 {
      var chosen, next := Chosen(ordered, n - 1, held, failing), ordered[n - 1];
      ChosenAntichain(ordered, n - 1, held, failing);
      ChosenFrom(ordered, n - 1, held, failing);
      if next.kind.Root? && !Redundant(next, chosen) {
        forall a | a in chosen && a.kind.Root? ensures !Within(a.path, next.path) {
          var i :| 0 <= i < n - 1 && ordered[i] == a;
          assert a in ordered;
          if Within(a.path, next.path) {
            PrefixLength(a.path, next.path);
          }
        }
      }
    }
  }

  // ---- Which routes a physical watch serves ------------------------------------------------

  predicate Serves(physical: WatchKey, route: Route) {
    if physical.FileWatch() || route.key.FileWatch() then
      physical.FileWatch() && route.key.FileWatch() && route.path == physical.path
    else if physical.kind.PackageDirectory? || route.key.kind.PackageDirectory? then
      physical.kind == route.key.kind && route.path == physical.path
    else
      Within(route.path, physical.path) || Within(physical.path, route.path)
  }

  /** The routes `physical` serves, in order. */
  function Served(physical: WatchKey, routes: seq<Route>): seq<Route> {
    if routes == [] then []
    else (if Serves(physical, routes[0]) then [routes[0]] else []) + Served(physical, routes[1..])
  }

  lemma {:induction false} ServedMeaning(physical: WatchKey, routes: seq<Route>, route: Route)
    ensures route in Served(physical, routes) <==> route in routes && Serves(physical, route)
  {
    if routes != [] {
      ServedMeaning(physical, routes[1..], route);
      assert routes == [routes[0]] + routes[1..];
    }
  }

  predicate DirectoryRoute(route: Route) {
    route.key.kind.Root? || route.key.kind.Rojo?
  }

  /** What a refresh leaves: the open watches and the routes each one delivers to. */
  ghost predicate Dispatches(dispatch: map<WatchKey, seq<Route>>, routes: seq<Route>) {
    forall w | w in dispatch :: dispatch[w] == Served(w, routes)
  }

  /**
   * With every wanted watch open, each directory route is served by exactly one recursive watch,
   * and that watch contains it.
   */
  lemma ArmedServesOnce(ordered: seq<WatchKey>, held: set<WatchKey>, failing: set<WatchKey>,
                        routes: seq<Route>, dispatch: map<WatchKey, seq<Route>>, route: Route)
    returns (watch: WatchKey)
    requires AncestorsFirst(ordered) && Candidates(ordered, routes)
    requires AllOpened(ordered, |ordered|, held, failing)
    requires dispatch.Keys == Chosen(ordered, |ordered|, held, failing) && Dispatches(dispatch, routes)
    requires route in routes && DirectoryRoute(route)
    ensures watch in dispatch && watch.kind.Root? && Within(route.path, watch.path) && route in dispatch[watch]
    ensures forall w | w in dispatch && w.kind.Root? && route in dispatch[w] :: w == watch
  {
    hide Chosen, AllOpened, Served;
    var open := Chosen(ordered, |ordered|, held, failing);
    ChosenAntichain(ordered, |ordered|, held, failing);
    var own := Candidate(route);
    var i :| 0 <= i < |ordered| && ordered[i] == own;
    LeftOutArmed(ordered, i, held, failing);
    watch :| watch in open && watch.kind.Root? && Within(route.path, watch.path);
    ServedMeaning(watch, routes, route);
    forall w | w in dispatch && w.kind.Root? && route in dispatch[w] ensures w == watch {
      ServedMeaning(w, routes, route);
      if Within(w.path, route.path) {
        assert Within(w.path, watch.path);
      } else {
        Comparable(route.path, w.path, watch.path);
      }
    }
  }

  lemma LeftOutArmed(ordered: seq<WatchKey>, i: nat, held: set<WatchKey>, failing: set<WatchKey>)
    requires i < |ordered| && ordered[i].kind.Root? && AllOpened(ordered, |ordered|, held, failing)
    ensures CoveredBy(ordered[i], Chosen(ordered, |ordered|, held, failing))
  {
    var open := Chosen(ordered, |ordered|, held, failing);
    ChosenGrows(ordered, i, |ordered|, held, failing);
    ChosenGrows(ordered, i + 1, |ordered|, held, failing);
    if Redundant(ordered[i], Chosen(ordered, i, held, failing)) {
    } else {
      assert !GivenUp(ordered, i, held, failing);
      assert ordered[i] in open && Within(ordered[i].path, ordered[i].path);
    }
  }

  /** Two directories that contain one path are comparable. */
  lemma Comparable(path: Path, a: Path, b: Path)
    requires Within(path, a) && Within(path, b)
    ensures Within(a, b) || Within(b, a)
  {
    if |a| <= |b| {
      assert a == path[..|a|] == b[..|a|];
    } else {
      assert b == path[..|b|] == a[..|b|];
    }
  }

  /** What an open watch is told of: all below a recursive one, a package directory and its entries, one file. */
  predicate Reports(watch: WatchKey, path: Path) {
    if watch.kind.Root? then Within(path, watch.path)
    else if watch.kind.PackageDirectory? then Within(path, watch.path) && |path| <= |watch.path| + 1
    else path == watch.path
  }

  /** The route's handler is told of the event through this watch. */
  ghost predicate Hears(dispatch: map<WatchKey, seq<Route>>, watch: WatchKey, route: Route, event: Event) {
    watch in dispatch && Reports(watch, event.path) && route in dispatch[watch] && Matched(route, [event]) != []
  }

  /** Of the open watches that serve a route, at most one is told of a path. */
  lemma ReportedOnce(dispatch: map<WatchKey, seq<Route>>, routes: seq<Route>, route: Route, path: Path, a: WatchKey, b: WatchKey)
    requires Antichain(dispatch.Keys) && Dispatches(dispatch, routes) && forall w | w in dispatch :: IsPhysical(w)
    requires a in dispatch && b in dispatch && route in dispatch[a] && route in dispatch[b]
    requires Reports(a, path) && Reports(b, path)
    ensures a == b
  {
    ServedMeaning(a, routes, route);
    ServedMeaning(b, routes, route);
    if a.kind.Root? && b.kind.Root? {
      Comparable(path, a.path, b.path);
    }
  }

  /**
   * Armed or not, even where failed ancestors left several watches serving it, a route hears of an
   * event through at most one watch; a batch tells it of each event by itself, in order.
   */
  lemma EventHeardOnce(dispatch: map<WatchKey, seq<Route>>, routes: seq<Route>, route: Route, event: Event)
    requires Antichain(dispatch.Keys) && Dispatches(dispatch, routes) && forall w | w in dispatch :: IsPhysical(w)
    ensures forall a, b | Hears(dispatch, a, route, event) && Hears(dispatch, b, route, event) :: a == b
    ensures |Matched(route, [event])| <= 1
    ensures forall before, after :: Matched(route, before + [event] + after) ==
                                    Matched(route, before) + Matched(route, [event]) + Matched(route, after)
  {
    forall a, b | Hears(dispatch, a, route, event) && Hears(dispatch, b, route, event) ensures a == b {
      ReportedOnce(dispatch, routes, route, event.path, a, b);
    }
    forall before, after
      ensures Matched(route, before + [event] + after) == Matched(route, before) + Matched(route, [event]) + Matched(route, after)
    {
      MatchedSum(route, before + [event], after);
      MatchedSum(route, before, [event]);
    }
  }

  /**
   * Whatever is open, an event a recursive watch reports from inside a route, outside the trees the
   * route ignores, is delivered to the route.
   */
  lemma EventReaches(dispatch: map<WatchKey, seq<Route>>, routes: seq<Route>, watch: WatchKey, route: Route, event: Event)
    requires Dispatches(dispatch, routes) && watch in dispatch && watch.kind.Root?
    requires route in routes && DirectoryRoute(route)
    requires Within(event.path, watch.path) && Within(event.path, route.path)
    requires !IsArtifact(event.path, route.excluded)
    ensures route in dispatch[watch] && Deliver(route, event).Delivered? && Hears(dispatch, watch, route, event)
    ensures Call(route.key, Matched(route, [event]), false) in Calls(dispatch[watch], [event], false)
  {
    Comparable(event.path, watch.path, route.path);
    ServedMeaning(watch, routes, route);
    assert Matched(route, [event]) == [Deliver(route, event).event] + Matched(route, []);
    Called(dispatch[watch], [event], false, route);
  }

  /**
   * Armed or not, a route of any kind whose own watch is open, or covered by an open one, hears of every
   * event inside it that it is to be told of.
   */
  lemma CoveredHears(dispatch: map<WatchKey, seq<Route>>, routes: seq<Route>, route: Route, event: Event) returns (watch: WatchKey)
    requires Dispatches(dispatch, routes) && route in routes && Covered(Candidate(route), dispatch.Keys)
    requires route.path <= event.path && Deliver(route, event).Delivered?
    ensures Hears(dispatch, watch, route, event)
  {
    var own := Candidate(route);
    if own in dispatch {
      watch := own;
    } else {
      watch :| watch in dispatch && watch.kind.Root? && Within(own.path, watch.path);
    }
    ServedMeaning(watch, routes, route);
    assert Matched(route, [event]) == [Deliver(route, event).event] + Matched(route, []);
  }

  // ---- The routes of a solution ------------------------------------------------------------

  /** What one project watches. */
  datatype WatchSet = WatchSet(project: string, macroFiles: seq<Path>, packageFiles: seq<Path>,
                               packageDirectories: seq<Path>, rootDirs: seq<Path>, rojoDirectories: seq<Path>,
                               configs: seq<Path>, artifacts: seq<Path>)

  function Keys(kind: WatchKind, project: string, paths: seq<Path>): seq<WatchKey> {
    if paths == [] then [] else [WatchKey(kind, project, paths[0])] + Keys(kind, project, paths[1..])
  }

  function OutsideArtifacts(paths: seq<Path>, artifacts: seq<Path>, canonical: Path -> Path): seq<Path> {
    if paths == [] then []
    else
      (if IsArtifact(canonical(paths[0]), artifacts) then [] else [paths[0]]) +
      OutsideArtifacts(paths[1..], artifacts, canonical)
  }

  function AddDistinct(paths: seq<Path>, more: seq<Path>, canonical: Path -> Path): seq<Path>
    decreases |more|
  {
    if more == [] then paths
    else
      var next := canonical(more[0]);
      AddDistinct(if next in paths then paths else paths + [next], more[1..], canonical)
  }

  /** `artifact_directories`: every project's generated trees, canonical and distinct. */
  function ArtifactDirectories(sets: seq<WatchSet>, canonical: Path -> Path, soFar: seq<Path>): seq<Path>
    decreases |sets|
  {
    if sets == [] then soFar
    else ArtifactDirectories(sets[1..], canonical, AddDistinct(soFar, sets[0].artifacts, canonical))
  }

  /** `solution_watch_keys` */
  function SolutionKeys(sets: seq<WatchSet>, artifacts: seq<Path>, canonical: Path -> Path): seq<WatchKey> {
    if sets == [] then []
    else
      var s := sets[0];
      Keys(Macro, s.project, s.macroFiles) +
      Keys(PackageFile, s.project, s.packageFiles) +
      Keys(PackageDirectory, s.project, s.packageDirectories) +
      Keys(Root, s.project, s.rootDirs) +
      Keys(Rojo, s.project, OutsideArtifacts(s.rojoDirectories, artifacts, canonical)) +
      Keys(Config, s.project, OutsideArtifacts(s.configs, artifacts, canonical)) +
      SolutionKeys(sets[1..], artifacts, canonical)
  }

  /** `exclusions`: a source root inside a generated tree stays a declared input. */
  function Exclusions(key: WatchKey, artifacts: seq<Path>, canonical: Path -> Path): (r: seq<Path>)
    ensures key.kind.Root? ==> !IsArtifact(canonical(key.path), r)
    ensures forall a | a in artifacts && !(key.kind.Root? && Within(canonical(key.path), a)) :: a in r
    ensures forall a | a in r :: a in artifacts
  {
    if !key.kind.Root? then artifacts
    else if artifacts == [] then []
    else
      (if Within(canonical(key.path), artifacts[0]) then [] else [artifacts[0]]) +
      Exclusions(key, artifacts[1..], canonical)
  }

  function RouteOf(key: WatchKey, artifacts: seq<Path>, canonical: Path -> Path): Route {
    var excluded := if key.kind.Root? || key.kind.Rojo? then Exclusions(key, artifacts, canonical) else [];
    Route(key, canonical(key.path), excluded)
  }

  function RoutesOf(keys: seq<WatchKey>, artifacts: seq<Path>, canonical: Path -> Path): seq<Route> {
    if keys == [] then [] else [RouteOf(keys[0], artifacts, canonical)] + RoutesOf(keys[1..], artifacts, canonical)
  }

  function SolutionRoutes(sets: seq<WatchSet>, canonical: Path -> Path): seq<Route> {
    var artifacts := ArtifactDirectories(sets, canonical, []);
    RoutesOf(SolutionKeys(sets, artifacts, canonical), artifacts, canonical)
  }

  // ---- What the routes are -----------------------------------------------------------------

  /** The tree is generated by some project. */
  ghost predicate Generated(sets: seq<WatchSet>, tree: Path, canonical: Path -> Path) {
    exists s, artifact | s in sets && artifact in s.artifacts :: canonical(artifact) == tree
  }

  /** What of a project's inputs is watched as this kind. */
  function Inputs(s: WatchSet, kind: WatchKind): seq<Path> {
    match kind
    case Root => s.rootDirs
    case Rojo => s.rojoDirectories
    case Config => s.configs
    case PackageFile => s.packageFiles
    case PackageDirectory => s.packageDirectories
    case Macro => s.macroFiles
  }

  /**
   * Some project lists the path among its inputs of this kind; a Rojo directory or a config counts only
   * outside every generated tree.
   */
  ghost predicate Wanted(sets: seq<WatchSet>, key: WatchKey, canonical: Path -> Path) {
    (exists s | s in sets :: s.project == key.project && key.path in Inputs(s, key.kind)) &&
    (key.kind in {Rojo, Config} ==> forall tree | Generated(sets, tree, canonical) :: !(tree <= canonical(key.path)))
  }

  /**
   * There is a route for exactly what the projects list. It leads to the canonical path, and a source
   * root or Rojo directory leaves out the generated trees, but a root none that it lies in.
   */
  ghost predicate RoutesMean(routes: seq<Route>, sets: seq<WatchSet>, canonical: Path -> Path) {
    (forall key :: (exists r | r in routes :: r.key == key) <==> Wanted(sets, key, canonical)) &&
    (forall r | r in routes ::
       r.path == canonical(r.key.path) && (r.key.kind !in {Root, Rojo} ==> r.excluded == []) &&
       (r.key.kind in {Root, Rojo} ==>
          forall tree :: tree in r.excluded <==>
                         Generated(sets, tree, canonical) && !(r.key.kind == Root && tree <= canonical(r.key.path))))
  }

  lemma {:induction false} AddDistinctIn(paths: seq<Path>, more: seq<Path>, canonical: Path -> Path)
    ensures forall p :: p in AddDistinct(paths, more, canonical) <==> p in paths || exists m | m in more :: canonical(m) == p
    decreases |more|
  {
    if more != [] {
      var next := canonical(more[0]);
      AddDistinctIn(if next in paths then paths else paths + [next], more[1..], canonical);
      assert more == [more[0]] + more[1..];
    }
  }

  lemma {:induction false} ArtifactsIn(sets: seq<WatchSet>, canonical: Path -> Path, soFar: seq<Path>)
    ensures forall p :: p in ArtifactDirectories(sets, canonical, soFar) <==> p in soFar || Generated(sets, p, canonical)
    decreases |sets|
  {
    if sets != [] {
      var s, more := sets[0], AddDistinct(soFar, sets[0].artifacts, canonical);
      AddDistinctIn(soFar, s.artifacts, canonical);
      ArtifactsIn(sets[1..], canonical, more);
      assert sets == [s] + sets[1..];
      forall p ensures Generated(sets, p, canonical) <==>
                       (exists m | m in s.artifacts :: canonical(m) == p) || Generated(sets[1..], p, canonical)
      {
        GeneratedFirst(s, sets[1..], p, canonical);
      }
    }
  }

  lemma GeneratedFirst(s: WatchSet, more: seq<WatchSet>, tree: Path, canonical: Path -> Path)
    ensures Generated([s] + more, tree, canonical) <==>
            (exists m | m in s.artifacts :: canonical(m) == tree) || Generated(more, tree, canonical)
  {
    if m :| m in s.artifacts && canonical(m) == tree {
      assert s in [s] + more;
    }
  }

  lemma {:induction false} KeysIn(kind: WatchKind, project: string, paths: seq<Path>)
    ensures forall key :: key in Keys(kind, project, paths) <==> key.kind == kind && key.project == project && key.path in paths
  {
    if paths != [] {
      KeysIn(kind, project, paths[1..]);
      assert paths == [paths[0]] + paths[1..];
    }
  }

  lemma {:induction false} OutsideIn(paths: seq<Path>, artifacts: seq<Path>, canonical: Path -> Path)
    ensures forall p :: p in OutsideArtifacts(paths, artifacts, canonical) <==> p in paths && !IsArtifact(canonical(p), artifacts)
  {
    if paths != [] {
      OutsideIn(paths[1..], artifacts, canonical);
      assert paths == [paths[0]] + paths[1..];
    }
  }

  /** The keys of one project. */
  predicate KeyOf(s: WatchSet, key: WatchKey, artifacts: seq<Path>, canonical: Path -> Path) {
    s.project == key.project && key.path in Inputs(s, key.kind) &&
    (key.kind.Rojo? || key.kind.Config? ==> !IsArtifact(canonical(key.path), artifacts))
  }

  lemma OneProjectKeys(s: WatchSet, rest: seq<WatchKey>, artifacts: seq<Path>, canonical: Path -> Path, key: WatchKey)
    ensures key in Keys(Macro, s.project, s.macroFiles) +
                   Keys(PackageFile, s.project, s.packageFiles) +
                   Keys(PackageDirectory, s.project, s.packageDirectories) +
                   Keys(Root, s.project, s.rootDirs) +
                   Keys(Rojo, s.project, OutsideArtifacts(s.rojoDirectories, artifacts, canonical)) +
                   Keys(Config, s.project, OutsideArtifacts(s.configs, artifacts, canonical)) + rest <==>
            KeyOf(s, key, artifacts, canonical) || key in rest
  {
    KeysIn(Macro, s.project, s.macroFiles);
    KeysIn(PackageFile, s.project, s.packageFiles);
    KeysIn(PackageDirectory, s.project, s.packageDirectories);
    KeysIn(Root, s.project, s.rootDirs);
    KeysIn(Rojo, s.project, OutsideArtifacts(s.rojoDirectories, artifacts, canonical));
    KeysIn(Config, s.project, OutsideArtifacts(s.configs, artifacts, canonical));
    OutsideIn(s.rojoDirectories, artifacts, canonical);
    OutsideIn(s.configs, artifacts, canonical);
  }

  lemma {:induction false} SolutionKeysIn(sets: seq<WatchSet>, artifacts: seq<Path>, canonical: Path -> Path, key: WatchKey)
    ensures key in SolutionKeys(sets, artifacts, canonical) <==> exists s | s in sets :: KeyOf(s, key, artifacts, canonical)
  {
    if sets != [] {
      SolutionKeysIn(sets[1..], artifacts, canonical, key);
      OneProjectKeys(sets[0], SolutionKeys(sets[1..], artifacts, canonical), artifacts, canonical, key);
      assert sets == [sets[0]] + sets[1..];
    }
  }

  lemma {:induction false} RoutesIn(keys: seq<WatchKey>, artifacts: seq<Path>, canonical: Path -> Path)
    ensures forall r :: r in RoutesOf(keys, artifacts, canonical) <==> r.key in keys && r == RouteOf(r.key, artifacts, canonical)
  {
    if keys != [] {
      RoutesIn(keys[1..], artifacts, canonical);
      assert keys == [keys[0]] + keys[1..];
    }
  }

  lemma RouteLeavesOut(key: WatchKey, sets: seq<WatchSet>, artifacts: seq<Path>, canonical: Path -> Path)
    requires forall p :: p in artifacts <==> Generated(sets, p, canonical)
    ensures var r := RouteOf(key, artifacts, canonical);
            key.kind in {Root, Rojo} ==>
              forall tree :: tree in r.excluded <==>
                             Generated(sets, tree, canonical) && !(key.kind == Root && tree <= canonical(key.path))
  {
  }

  lemma WantedIs(sets: seq<WatchSet>, artifacts: seq<Path>, canonical: Path -> Path, key: WatchKey)
    requires forall p :: p in artifacts <==> Generated(sets, p, canonical)
    ensures Wanted(sets, key, canonical) <==> exists s | s in sets :: KeyOf(s, key, artifacts, canonical)
  {
    ArtifactIn(canonical(key.path), artifacts);
  }

  /** The routes of a solution are those its projects' inputs ask for. */
  lemma SolutionRoutesMean(sets: seq<WatchSet>, canonical: Path -> Path)
    ensures RoutesMean(SolutionRoutes(sets, canonical), sets, canonical)
  {
    hide Exclusions, Generated, Wanted, KeyOf, SolutionKeys, RoutesOf, ArtifactDirectories;
    var artifacts := ArtifactDirectories(sets, canonical, []);
    var keys := SolutionKeys(sets, artifacts, canonical);
    ArtifactsIn(sets, canonical, []);
    RoutesIn(keys, artifacts, canonical);
    var routes := SolutionRoutes(sets, canonical);
    forall key ensures (exists r | r in routes :: r.key == key) <==> Wanted(sets, key, canonical) {
      SolutionKeysIn(sets, artifacts, canonical, key);
      WantedIs(sets, artifacts, canonical, key);
      if key in keys {
        assert RouteOf(key, artifacts, canonical) in routes;
      }
    }
    forall r | r in routes ensures r == RouteOf(r.key, artifacts, canonical) {
      RouteLeavesOut(r.key, sets, artifacts, canonical);
    }
    forall r | r in routes && r.key.kind in {Root, Rojo}
      ensures forall tree :: tree in r.excluded <==>
                             Generated(sets, tree, canonical) && !(r.key.kind == Root && tree <= canonical(r.key.path))
    {
      RouteLeavesOut(r.key, sets, artifacts, canonical);
    }
  }

  // ---- Candidates in order -----------------------------------------------------------------

  /** The candidates' order: shorter paths, then by path, then by kind. */
  predicate Precedes(a: WatchKey, b: WatchKey) {
    if TextLength(a.path) != TextLength(b.path) then TextLength(a.path) < TextLength(b.path)
    else if a.path != b.path then TextBefore(PathText(a.path), PathText(b.path))
    else KindRank(a.kind) < KindRank(b.kind)
  }

  lemma PrecedesMeans(a: WatchKey, b: WatchKey)
    requires IsPhysical(a) && IsPhysical(b) && TextLength(a.path) == TextLength(b.path)
    ensures Precedes(a, b) <==>
            if a.path == b.path then (a.kind == Root && b.kind != Root) || (a.kind == Config && b.kind == PackageDirectory)
            else TextBefore(PathText(a.path), PathText(b.path))
  {
  }

  lemma PrecedesTransitive(a: WatchKey, b: WatchKey, c: WatchKey)
    requires Precedes(a, b) && Precedes(b, c)
    ensures Precedes(a, c)
  {
    hide TextLength, PathText, TextBefore;
    if TextBefore(PathText(a.path), PathText(b.path)) && TextBefore(PathText(b.path), PathText(c.path)) {
      BeforeTransitive(PathText(a.path), PathText(b.path), PathText(c.path));
      BeforeTotal(PathText(a.path), PathText(c.path));
    }
  }

  predicate SortedKeys(keys: seq<WatchKey>) {
    forall i, j | 0 <= i < j < |keys| :: !Precedes(keys[j], keys[i])
  }

  lemma {:induction false} InsertKeySorts(key: WatchKey, keys: seq<WatchKey>)
    requires SortedKeys(keys)
    ensures SortedKeys(InsertKey(key, keys))
  {
    hide Precedes;
    if keys == [] || Precedes(key, keys[0]) {
      forall k | k in keys ensures !Precedes(k, key) {
        if Precedes(k, key) {
          PrecedesTransitive(k, key, keys[0]);
          NoneBeforeItself(keys[0]);
        }
      }
      FirstSorts(key, keys);
    } else {
      InsertKeySorts(key, keys[1..]);
      InsertKeyIn(key, keys[1..]);
      FirstSorts(keys[0], InsertKey(key, keys[1..]));
    }
  }

  lemma FirstSorts(first: WatchKey, keys: seq<WatchKey>)
    requires SortedKeys(keys) && forall k | k in keys :: !Precedes(k, first)
    ensures SortedKeys([first] + keys)
  {
  }

  lemma NoneBeforeItself(key: WatchKey)
    ensures !Precedes(key, key)
  {
  }

  function InsertKey(key: WatchKey, keys: seq<WatchKey>): seq<WatchKey> {
    if keys == [] || Precedes(key, keys[0]) then [key] + keys
    else [keys[0]] + InsertKey(key, keys[1..])
  }

  lemma {:induction false} InsertKeyIn(key: WatchKey, keys: seq<WatchKey>)
    ensures forall k :: k in InsertKey(key, keys) <==> k == key || k in keys
  {
    if keys != [] && !Precedes(key, keys[0]) {
      InsertKeyIn(key, keys[1..]);
      assert keys == [keys[0]] + keys[1..];
    }
  }

  lemma {:induction false} InsertKeyOrders(key: WatchKey, keys: seq<WatchKey>)
    requires key !in keys && Distinct(keys) && AncestorsFirst(keys)
    ensures Distinct(InsertKey(key, keys)) && AncestorsFirst(InsertKey(key, keys))
  {
    if keys == [] || Precedes(key, keys[0]) {
      FirstOrders(key, keys);
    } else {
      InsertKeyOrders(key, keys[1..]);
      InsertKeyIn(key, keys[1..]);
      FirstOrders(keys[0], InsertKey(key, keys[1..]));
    }
  }

  lemma FirstOrders(first: WatchKey, keys: seq<WatchKey>)
    requires Distinct(keys) && AncestorsFirst(keys)
    requires forall k | k in keys :: k != first && TextLength(first.path) <= TextLength(k.path)
    ensures Distinct([first] + keys) && AncestorsFirst([first] + keys)
  {
  }

  predicate Distinct(keys: seq<WatchKey>) {
    forall i, j | 0 <= i < j < |keys| :: keys[i] != keys[j]
  }

  /** `ordered` lists the distinct candidates of the routes, ancestors first. */
  ghost predicate Orders(ordered: seq<WatchKey>, routes: seq<Route>) {
    Distinct(ordered) && AncestorsFirst(ordered) &&
    (forall r | r in routes :: Candidate(r) in ordered) &&
    (forall k | k in ordered :: IsPhysical(k) && exists r | r in routes :: Candidate(r) == k)
  }

  method OrderCandidates(routes: seq<Route>) returns (ordered: seq<WatchKey>)
    ensures Orders(ordered, routes) && SortedKeys(ordered)
  {
    ordered := [];
    assert SortedKeys(ordered);
    hide SortedKeys;
    var index := 0;
    while index < |routes|
      invariant 0 <= index <= |routes|
      invariant Distinct(ordered) && AncestorsFirst(ordered) && SortedKeys(ordered)
      invariant forall k :: k in ordered <==> exists i | 0 <= i < index :: Candidate(routes[i]) == k
    {
      var key := Candidate(routes[index]);
      if key !in ordered {
        InsertKeyIn(key, ordered);
        InsertKeyOrders(key, ordered);
        InsertKeySorts(key, ordered);
        ordered := InsertKey(key, ordered);
      }
      index := index + 1;
    }
  }

  // ---- The watches -------------------------------------------------------------------------

  /** Each directory route is served by exactly one recursive watch, which contains it. */
  ghost predicate ServesEachOnce(dispatch: map<WatchKey, seq<Route>>, routes: seq<Route>) {
    forall r | r in routes && DirectoryRoute(r) ::
      exists w | w in dispatch ::
        w.kind.Root? && Within(r.path, w.path) && r in dispatch[w] &&
        forall v | v in dispatch && v.kind.Root? && r in dispatch[v] :: v == w
  }

  /** A watch that must be reopened: a dead route of its own, or a dead watch of its directory. */
  predicate MustReopen(physical: WatchKey, routes: seq<Route>, dead: set<WatchKey>, canonical: Path -> Path) {
    (exists i | 0 <= i < |routes| :: routes[i].key in dead) ||
    (physical.kind.Config? &&
     exists key | key in dead ::
       (key.FileWatch() && canonical(Parent(key.path)) == Parent(physical.path)) ||
       (key.kind.PackageDirectory? && canonical(key.path) == Parent(physical.path)))
  }

  /** `directory`: where the OS watches for a logical watch, and whether below too. */
  function DirectoryOf(key: WatchKey): (Path, bool) {
    if key.kind in {Config, PackageFile, Macro} then (Parent(key.path), false) else (key.path, key.kind != PackageDirectory)
  }

  /** One of its routes ended, or, for a file's watch, some watch of the file's directory alone. */
  ghost predicate Ended(watch: WatchKey, routes: seq<Route>, dead: set<WatchKey>, canonical: Path -> Path) {
    exists key | key in dead ::
      (exists r | r in routes :: r.key == key) ||
      (watch.kind == Config && !DirectoryOf(key).1 && canonical(DirectoryOf(key).0) == Parent(watch.path))
  }

  lemma ReopensEnded(watch: WatchKey, routes: seq<Route>, dead: set<WatchKey>, canonical: Path -> Path)
    ensures MustReopen(watch, routes, dead, canonical) <==> Ended(watch, routes, dead, canonical)
  {
    if i :| 0 <= i < |routes| && routes[i].key in dead {
      assert routes[i] in routes;
    }
  }

  /** The live watches a refresh keeps open while it looks for new ones. */
  ghost function Survivors(dispatch: map<WatchKey, seq<Route>>, dead: set<WatchKey>, canonical: Path -> Path): set<WatchKey> {
    set k | k in dispatch && !Ended(k, dispatch[k], dead, canonical)
  }

  /** A candidate is open, or an open ancestor covers it. */
  predicate Covered(key: WatchKey, open: set<WatchKey>) {
    key in open || Redundant(key, open)
  }

  /** A later candidate neither is nor covers an earlier one. */
  lemma LaterCoversNot(earlier: WatchKey, later: WatchKey)
    requires IsPhysical(earlier) && IsPhysical(later) && earlier != later
    requires TextLength(earlier.path) <= TextLength(later.path)
    ensures !(earlier.kind.Root? && later.kind.Root? && Within(earlier.path, later.path))
  {
    if earlier.kind.Root? && later.kind.Root? && Within(earlier.path, later.path) {
      PrefixLength(earlier.path, later.path);
    }
  }

  lemma {:induction false} KeptOut(ordered: seq<WatchKey>, i: nat, n: nat, held: set<WatchKey>, failing: set<WatchKey>)
    requires i < n <= |ordered| && Distinct(ordered) && AncestorsFirst(ordered)
    requires forall k | k in ordered :: IsPhysical(k)
    requires GivenUp(ordered, i, held, failing)
    ensures !Covered(ordered[i], Chosen(ordered, n, held, failing))
  {
    if n == i + 1 {
      ChosenFrom(ordered, i, held, failing);
      assert Chosen(ordered, n, held, failing) == Chosen(ordered, i, held, failing);
    } else {
      var before, next := Chosen(ordered, n - 1, held, failing), ordered[n - 1];
      KeptOut(ordered, i, n - 1, held, failing);
      LaterCoversNot(ordered[i], next);
      assert Chosen(ordered, n, held, failing) == before || Chosen(ordered, n, held, failing) == before + {next};
    }
  }

  lemma TakenIn(ordered: seq<WatchKey>, i: nat, held: set<WatchKey>, failing: set<WatchKey>)
    requires i < |ordered| && !GivenUp(ordered, i, held, failing)
    ensures Covered(ordered[i], Chosen(ordered, |ordered|, held, failing))
  {
    ChosenGrows(ordered, i, |ordered|, held, failing);
    ChosenGrows(ordered, i + 1, |ordered|, held, failing);
  }

  /** A refresh is armed exactly when every candidate is open or covered. */
  lemma ArmedMeans(ordered: seq<WatchKey>, held: set<WatchKey>, failing: set<WatchKey>)
    requires Distinct(ordered) && AncestorsFirst(ordered) && forall k | k in ordered :: IsPhysical(k)
    ensures AllOpened(ordered, |ordered|, held, failing) <==>
            forall i | 0 <= i < |ordered| :: Covered(ordered[i], Chosen(ordered, |ordered|, held, failing))
  {
    var open := Chosen(ordered, |ordered|, held, failing);
    forall i | 0 <= i < |ordered| ensures !GivenUp(ordered, i, held, failing) <==> Covered(ordered[i], open) {
      if GivenUp(ordered, i, held, failing) {
        KeptOut(ordered, i, |ordered|, held, failing);
      } else {
        TakenIn(ordered, i, held, failing);
      }
    }
  }

  lemma ArmedServes(ordered: seq<WatchKey>, held: set<WatchKey>, failing: set<WatchKey>,
                    routes: seq<Route>, dispatch: map<WatchKey, seq<Route>>)
    requires AncestorsFirst(ordered) && Candidates(ordered, routes)
    requires AllOpened(ordered, |ordered|, held, failing)
    requires dispatch.Keys == Chosen(ordered, |ordered|, held, failing) && Dispatches(dispatch, routes)
    ensures ServesEachOnce(dispatch, routes)
  {
    forall r | r in routes && DirectoryRoute(r)
      ensures exists w | w in dispatch ::
        w.kind.Root? && Within(r.path, w.path) && r in dispatch[w] &&
        forall v | v in dispatch && v.kind.Root? && r in dispatch[v] :: v == w
    {
      var watch := ArmedServesOnce(ordered, held, failing, routes, dispatch, r);
    }
  }

  /**
   * What the open watches are to the routes, when `held` could be kept: each open watch is some
   * route's; each route's is open, covered by an open ancestor, or new and could not be opened; and
   * the solution is armed exactly when none of the last kind is left.
   */
  ghost predicate RoutesCovered(now: seq<Route>, open: set<WatchKey>, held: set<WatchKey>, failing: set<WatchKey>, armed: bool) {
    (forall k | k in open :: exists r | r in now :: Candidate(r) == k) &&
    (forall r | r in now && Candidate(r) in held :: Covered(Candidate(r), open)) &&
    (forall r | r in now :: Covered(Candidate(r), open) || Candidate(r) in failing) &&
    (armed <==> forall r | r in now :: Covered(Candidate(r), open))
  }

  lemma ChosenCovers(ordered: seq<WatchKey>, now: seq<Route>, held: set<WatchKey>, failing: set<WatchKey>, armed: bool)
    requires Orders(ordered, now)
    requires armed == AllOpened(ordered, |ordered|, held, failing)
    ensures RoutesCovered(now, Chosen(ordered, |ordered|, held, failing), held, failing, armed)
  {
    var open := Chosen(ordered, |ordered|, held, failing);
    ChosenFrom(ordered, |ordered|, held, failing);
    ArmedMeans(ordered, held, failing);
    forall r | r in now
      ensures Covered(Candidate(r), open) || (Candidate(r) !in held && Candidate(r) in failing)
      ensures exists i | 0 <= i < |ordered| :: ordered[i] == Candidate(r)
    {
      assert Candidate(r) in ordered;
      var i :| 0 <= i < |ordered| && ordered[i] == Candidate(r);
      if !GivenUp(ordered, i, held, failing) {
        TakenIn(ordered, i, held, failing);
      }
    }
    forall k | k in open ensures exists r | r in now :: Candidate(r) == k {
      assert k in ordered;
    }
    if forall r | r in now :: Covered(Candidate(r), open) {
      forall i | 0 <= i < |ordered| ensures Covered(ordered[i], open) {
        assert ordered[i] in ordered;
      }
    }
  }

  /** The handles of the watches in `keys`. */
  ghost function Handles(watches: map<WatchKey, nat>, keys: set<WatchKey>): set<nat> {
    set k | k in keys && k in watches :: watches[k]
  }

  lemma HandlesOneMore(watches: map<WatchKey, nat>, keys: set<WatchKey>, key: WatchKey)
    ensures Handles(watches, keys + {key}) == Handles(watches, keys) + if key in watches then {watches[key]} else {}
  {
  }

  /** Each open watch has the handle it had, or a new one. */
  ghost predicate Continues(watches: map<WatchKey, nat>, watches0: map<WatchKey, nat>, opens0: nat) {
    forall k | k in watches :: if k in watches0 then watches[k] == watches0[k] else watches[k] >= opens0
  }

  /** Every open watch is physical and dispatches, under a handle of its own that was never closed. */
  ghost predicate WiredUp(watches: map<WatchKey, nat>, dispatch: map<WatchKey, seq<Route>>, opens: nat, closed: set<nat>) {
    watches.Keys == dispatch.Keys &&
    (forall k | k in watches :: IsPhysical(k) && watches[k] < opens && watches[k] !in closed) &&
    (forall a, b | a in watches && b in watches && watches[a] == watches[b] :: a == b) &&
    (forall h | h in closed :: h < opens)
  }

  /** An open watch may serve other routes, and one not open may open under a new handle. */
  lemma WiredArm(watches: map<WatchKey, nat>, dispatch: map<WatchKey, seq<Route>>, opens: nat, closed: set<nat>,
                 physical: WatchKey, served: seq<Route>)
    requires WiredUp(watches, dispatch, opens, closed) && IsPhysical(physical)
    ensures physical in dispatch ==> WiredUp(watches, dispatch[physical := served], opens, closed)
    ensures physical !in dispatch ==> WiredUp(watches[physical := opens], dispatch[physical := served], opens + 1, closed)
  {
  }

  /** Beyond the watches a refresh began with, the wanted ones are open and hand out their routes. */
  ghost predicate Opened(wanted: set<WatchKey>, now: seq<Route>, watches0: map<WatchKey, nat>, opens0: nat,
                         watches: map<WatchKey, nat>, dispatch: map<WatchKey, seq<Route>>) {
    watches.Keys == watches0.Keys + wanted && Continues(watches, watches0, opens0) &&
    forall w | w in wanted :: w in dispatch && dispatch[w] == Served(w, now)
  }

  lemma OpenedMore(wanted: set<WatchKey>, now: seq<Route>, watches0: map<WatchKey, nat>, opens0: nat,
                   watches: map<WatchKey, nat>, dispatch: map<WatchKey, seq<Route>>, next: WatchKey, handle: nat)
    requires Opened(wanted, now, watches0, opens0, watches, dispatch) && handle >= opens0
    ensures var watches' := if next in watches then watches else watches[next := handle];
            Opened(wanted + {next}, now, watches0, opens0, watches', dispatch[next := Served(next, now)])
  {
  }

  /** Closing what is not live, and then what is not kept. */
  lemma HandlesSplit(watches: map<WatchKey, nat>, live: set<WatchKey>, kept: map<WatchKey, nat>, open: set<WatchKey>)
    requires kept == watches - (watches.Keys - live) && live <= watches.Keys
    ensures Handles(watches, watches.Keys - live) + Handles(kept, kept.Keys - open) == Handles(watches, watches.Keys - (live * open))
  {
    var gone := watches.Keys - (live * open);
    assert forall k | k in gone :: (k in watches.Keys - live) || (k in kept.Keys - open && kept[k] == watches[k]);
    assert forall k | k in kept.Keys - open :: k in gone && kept[k] == watches[k];
  }

  ghost predicate Settled(now: seq<Route>, open: set<WatchKey>, dispatch: map<WatchKey, seq<Route>>,
                          held: set<WatchKey>, failing: set<WatchKey>, armed: bool)
  {
    Antichain(open) && RoutesCovered(now, open, held, failing, armed) &&
    Dispatches(dispatch, now) && (armed ==> ServesEachOnce(dispatch, now))
  }

  /** What choosing and serving leave, whichever watches could not be opened. */
  lemma ChosenMeans(ordered: seq<WatchKey>, now: seq<Route>, held: set<WatchKey>, failing: set<WatchKey>,
                    dispatch: map<WatchKey, seq<Route>>, armed: bool)
    requires Orders(ordered, now)
    requires armed == AllOpened(ordered, |ordered|, held, failing)
    requires dispatch.Keys == Chosen(ordered, |ordered|, held, failing) && Dispatches(dispatch, now)
    ensures Settled(now, dispatch.Keys, dispatch, held, failing, armed)
  {
    ChosenAntichain(ordered, |ordered|, held, failing);
    ChosenCovers(ordered, now, held, failing, armed);
    if armed {
      ArmedServes(ordered, held, failing, now, dispatch);
    }
  }

  lemma MinusOneMore<V>(m: map<WatchKey, V>, keys: set<WatchKey>, key: WatchKey)
    ensures m - (keys + {key}) == m - keys - {key}
  {
  }

  /** `SolutionWatches`: what the OS is asked to watch for all routes together. A watch is its handle. */
  class SolutionWatches {
    var watches: map<WatchKey, nat>
    var dispatch: map<WatchKey, seq<Route>>
    var sets: seq<WatchSet>
    /** Whether the last refresh opened all it wanted. */
    var armed: bool
    /** How many watches were ever opened, and the handles of the closed ones. */
    var opens: nat
    var closed: set<nat>
    /** The routes of the last refresh that looked at them. */
    ghost var routes: seq<Route>

    /** Open handles are distinct and not closed, and every watch has its routes. */
    ghost predicate Wired()
      reads `watches, `dispatch, `opens, `closed
    {
      WiredUp(watches, dispatch, opens, closed)
    }

    ghost predicate Valid()
      reads `watches, `dispatch, `opens, `closed, `routes, `armed
    {
      Wired() && Antichain(watches.Keys) && Dispatches(dispatch, routes) &&
      (armed ==> ServesEachOnce(dispatch, routes))
    }

    constructor ()
      ensures Valid() && watches == map[] && !armed
    {
      watches, dispatch, sets, armed, opens, closed, routes := map[], map[], [], false, 0, {}, [];
    }

    method Remove(key: WatchKey)
      requires Wired()
      modifies this
      ensures Wired() && watches == old(watches) - {key} && dispatch == old(dispatch) - {key}
      ensures closed == old(closed) + if key in old(watches) then {old(watches)[key]} else {}
      ensures sets == old(sets) && armed == old(armed) && opens == old(opens) && routes == old(routes)
    {
      if key in watches {
        closed := closed + {watches[key]};
      }
      dispatch := dispatch - {key};
      watches := watches - {key};
    }

    /** What removing `keys` from `before` leaves, and which handles it closes. */
    ghost predicate Without(keys: set<WatchKey>, watches0: map<WatchKey, nat>, dispatch0: map<WatchKey, seq<Route>>,
                            closed0: set<nat>)
      reads `watches, `dispatch, `closed
    {
      watches == watches0 - keys && dispatch == dispatch0 - keys &&
      closed == closed0 + Handles(watches0, keys)
    }

    method RemoveNext(key: WatchKey, ghost done: set<WatchKey>, ghost watches0: map<WatchKey, nat>,
                      ghost dispatch0: map<WatchKey, seq<Route>>, ghost closed0: set<nat>)
      requires Wired() && Without(done, watches0, dispatch0, closed0) && key !in done
      modifies this
      ensures Wired() && Without(done + {key}, watches0, dispatch0, closed0)
      ensures sets == old(sets) && armed == old(armed) && opens == old(opens) && routes == old(routes)
    {
      HandlesOneMore(watches0, done, key);
      MinusOneMore(watches0, done, key);
      MinusOneMore(dispatch0, done, key);
      Remove(key);
    }

    /** Closes the watches in `keys`. */
    method RemoveAll(keys: set<WatchKey>)
      requires Wired()
      modifies this
      ensures Wired() && Without(keys, old(watches), old(dispatch), old(closed))
      ensures sets == old(sets) && armed == old(armed) && opens == old(opens) && routes == old(routes)
    {
      var left := keys;
      ghost var done: set<WatchKey> := {};
      while left != {}
        invariant Wired() && done + left == keys && done !! left
        invariant Without(done, old(watches), old(dispatch), old(closed))
        invariant sets == old(sets) && armed == old(armed) && opens == old(opens) && routes == old(routes)
      {
        var key :| key in left;
        RemoveNext(key, done, old(watches), old(dispatch), old(closed));
        left, done := left - {key}, done + {key};
      }
    }

    /** `close` */
    method Close()
      requires Valid()
      modifies this
      ensures Wired() && watches == map[] && dispatch == map[]
      ensures closed == old(closed) + old(watches).Values
    {
      RemoveAll(watches.Keys + dispatch.Keys);
      assert Handles(old(watches), old(watches).Keys + old(dispatch).Keys) == old(watches).Values;
    }

    /** Keeps, opens or gives up one physical watch, and hands it its routes. */
    method Arm(physical: WatchKey, now: seq<Route>, failing: set<WatchKey>) returns (live: bool)
      requires Wired() && IsPhysical(physical)
      modifies this
      ensures Wired() && live == (physical in old(watches) || physical !in failing)
      ensures watches == if live && physical !in old(watches) then old(watches)[physical := old(opens)] else old(watches)
      ensures dispatch == if live then old(dispatch)[physical := Served(physical, now)] else old(dispatch)
      ensures armed == (old(armed) && live) && opens >= old(opens)
      ensures closed == old(closed) && sets == old(sets) && routes == old(routes)
    {
      WiredArm(watches, dispatch, opens, closed, physical, Served(physical, now));
      if physical !in dispatch {
        if physical in failing {
          // It is not wanted then, so it makes no watch below it redundant.
          armed := false;
          return false;
        }
        watches := watches[physical := opens];
        opens := opens + 1;
      }
      dispatch := dispatch[physical := Served(physical, now)];
      return true;
    }

    /** The state after the first `n` candidates of a refresh that began with `watches0`. */
    ghost predicate Opening(ordered: seq<WatchKey>, n: nat, now: seq<Route>, failing: set<WatchKey>,
                            watches0: map<WatchKey, nat>, opens0: nat)
      requires n <= |ordered|
      reads `watches, `dispatch, `opens, `closed
    {
      var wanted := Chosen(ordered, n, watches0.Keys, failing);
      Wired() && opens >= opens0 && Opened(wanted, now, watches0, opens0, watches, dispatch)
    }

    /** Takes the next candidate. */
    method OpenNext(ordered: seq<WatchKey>, n: nat, now: seq<Route>, failing: set<WatchKey>,
                    ghost watches0: map<WatchKey, nat>, ghost opens0: nat, wanted: set<WatchKey>)
      returns (more: set<WatchKey>)
      requires n < |ordered| && IsPhysical(ordered[n]) && ordered[n] !in wanted
      requires wanted == Chosen(ordered, n, watches0.Keys, failing)
      requires Opening(ordered, n, now, failing, watches0, opens0)
      modifies this
      ensures Opening(ordered, n + 1, now, failing, watches0, opens0)
      ensures more == Chosen(ordered, n + 1, watches0.Keys, failing)
      ensures armed == (old(armed) && !GivenUp(ordered, n, watches0.Keys, failing))
      ensures closed == old(closed) && sets == old(sets) && routes == old(routes)
    {
      if Redundant(ordered[n], wanted) {
        return wanted;
      }
      OpenedMore(wanted, now, watches0, opens0, watches, dispatch, ordered[n], opens);
      var live := Arm(ordered[n], now, failing);
      more := if live then wanted + {ordered[n]} else wanted;
    }

    /** Opens the wanted watches, ancestors first. */
    method OpenWanted(ordered: seq<WatchKey>, now: seq<Route>, failing: set<WatchKey>) returns (wanted: set<WatchKey>)
      requires Wired() && Distinct(ordered) && forall k | k in ordered :: IsPhysical(k)
      modifies this
      ensures wanted == Chosen(ordered, |ordered|, old(watches).Keys, failing)
      ensures Opening(ordered, |ordered|, now, failing, old(watches), old(opens))
      ensures armed == (old(armed) && AllOpened(ordered, |ordered|, old(watches).Keys, failing))
      ensures closed == old(closed) && sets == old(sets) && routes == old(routes)
    {
      wanted := {};
      var index := 0;
      while index < |ordered|
        invariant 0 <= index <= |ordered|
        invariant wanted == Chosen(ordered, index, old(watches).Keys, failing)
        invariant Opening(ordered, index, now, failing, old(watches), old(opens))
        invariant armed == (old(armed) && AllOpened(ordered, index, old(watches).Keys, failing))
        invariant closed == old(closed) && sets == old(sets) && routes == old(routes)
      {
        ChosenFrom(ordered, index, old(watches).Keys, failing);
        wanted := OpenNext(ordered, index, now, failing, old(watches), old(opens), wanted);
        index := index + 1;
      }
    }

    /** Closes the watches a terminal error reached. */
    method RemoveDead(dead: set<WatchKey>, canonical: Path -> Path)
      requires Wired()
      modifies this
      ensures Wired() && Without(old(watches).Keys - Survivors(old(dispatch), dead, canonical), old(watches), old(dispatch), old(closed))
      ensures sets == old(sets) && armed == old(armed) && opens == old(opens) && routes == old(routes)
    {
      forall k | k in dispatch ensures MustReopen(k, dispatch[k], dead, canonical) <==> Ended(k, dispatch[k], dead, canonical) {
        ReopensEnded(k, dispatch[k], dead, canonical);
      }
      RemoveAll(set k | k in dispatch && MustReopen(k, dispatch[k], dead, canonical));
      assert old(watches).Keys - Survivors(old(dispatch), dead, canonical) ==
             set k | k in old(dispatch) && MustReopen(k, old(dispatch)[k], dead, canonical);
    }

    /** Which watches are open after a refresh that had `held0` left to keep, and what they serve. */
    ghost predicate Covers(ordered: seq<WatchKey>, now: seq<Route>, failing: set<WatchKey>, held0: set<WatchKey>)
      reads `watches, `dispatch, `armed
    {
      watches.Keys == Chosen(ordered, |ordered|, held0, failing) && dispatch.Keys == watches.Keys &&
      Dispatches(dispatch, now) && armed == AllOpened(ordered, |ordered|, held0, failing)
    }

    /** Opens what is wanted and closes the rest. */
    method Cover(ordered: seq<WatchKey>, now: seq<Route>, failing: set<WatchKey>)
      requires Wired() && Orders(ordered, now)
      modifies this
      ensures Wired() && Covers(ordered, now, failing, old(watches).Keys) && opens >= old(opens)
      ensures Continues(watches, old(watches), old(opens))
      ensures closed == old(closed) + Handles(old(watches), old(watches).Keys - watches.Keys)
      ensures sets == old(sets) && routes == old(routes)
    {
      hide Chosen, AllOpened;
      armed := true;
      var wanted := OpenWanted(ordered, now, failing);
      ghost var all := watches;
      RemoveAll(watches.Keys - wanted);
      assert watches.Keys == wanted;
      assert all.Keys - wanted == old(watches).Keys - wanted;
      assert Handles(all, all.Keys - wanted) == Handles(old(watches), old(watches).Keys - wanted);
    }

    /** Covers the routes, keeping what is open. */
    method CoverRoutes(now: seq<Route>, failing: set<WatchKey>)
      requires Wired()
      modifies this
      ensures Wired() && Settled(now, watches.Keys, dispatch, old(watches).Keys, failing, armed)
      ensures Continues(watches, old(watches), old(opens)) && opens >= old(opens)
      ensures closed == old(closed) + Handles(old(watches), old(watches).Keys - watches.Keys)
      ensures sets == old(sets) && routes == old(routes)
    {
      var ordered := OrderCandidates(now);
      Cover(ordered, now, failing);
      ChosenMeans(ordered, now, old(watches).Keys, failing, dispatch, armed);
    }

    /**
     * What a refresh that looked at the watches did, from `watches0` with `live` the watches without
     * a terminal error: a live watch that stays open keeps its handle, every other open watch is
     * new, and exactly the handles no longer in use were closed.
     */
    ghost predicate Kept(live: set<WatchKey>, watches0: map<WatchKey, nat>, opens0: nat, closed0: set<nat>)
      reads `watches, `closed
    {
      (forall k | k in watches :: if k in live then k in watches0 && watches[k] == watches0[k] else watches[k] >= opens0) &&
      closed == closed0 + Handles(watches0, watches0.Keys - (live * watches.Keys))
    }

    /** Closes what died, and covers the routes with the rest. */
    method Renew(now: seq<Route>, dead: set<WatchKey>, canonical: Path -> Path, failing: set<WatchKey>)
      requires Wired() && routes == now
      modifies this
      ensures Valid() && routes == now && sets == old(sets)
      ensures var live := Survivors(old(dispatch), dead, canonical);
              RoutesCovered(routes, watches.Keys, live, failing, armed) &&
              Kept(live, old(watches), old(opens), old(closed))
    {
      ghost var live := Survivors(dispatch, dead, canonical);
      RemoveDead(dead, canonical);
      assert watches.Keys == live;
      ghost var kept := watches;
      CoverRoutes(now, failing);
      HandlesSplit(old(watches), live, kept, watches.Keys);
    }

    method Reroute(newSets: seq<WatchSet>, dead: set<WatchKey>, canonical: Path -> Path, failing: set<WatchKey>)
      requires Wired()
      modifies this
      ensures Valid() && sets == newSets && RoutesMean(routes, newSets, canonical)
      ensures var live := Survivors(old(dispatch), dead, canonical);
              RoutesCovered(routes, watches.Keys, live, failing, armed) &&
              Kept(live, old(watches), old(opens), old(closed))
    {
      var now := SolutionRoutes(newSets, canonical);
      SolutionRoutesMean(newSets, canonical);
      hide RoutesMean;
      routes, sets := now, newSets;
      Renew(now, dead, canonical, failing);
    }

    /**
     * `refresh`: brings the physical watches in line with the solution's routes; `dead` are the
     * logical watches that ended in a terminal error, `failing` the watches that cannot be opened.
     */
    method Refresh(newSets: seq<WatchSet>, dead: set<WatchKey>, canonical: Path -> Path, failing: set<WatchKey>)
      requires Valid()
      modifies this
      ensures Valid() && sets == newSets
      ensures dead == {} && old(armed) && newSets == old(sets) ==>
                watches == old(watches) && dispatch == old(dispatch) && closed == old(closed) && armed
      ensures !(dead == {} && old(armed) && newSets == old(sets)) ==>
                var live := Survivors(old(dispatch), dead, canonical);
                RoutesMean(routes, newSets, canonical) && Kept(live, old(watches), old(opens), old(closed)) &&
                RoutesCovered(routes, watches.Keys, live, failing, armed)
    {
      if dead == {} && armed && newSets == sets {
        return;
      }
      Reroute(newSets, dead, canonical, failing);
    }
  }
}
