/**
 * The polling watch of one project (`watch.rs`): snapshots of the project tree, what changed
 * between two, and when a changed snapshot starts a build.
 */
module Polling {

  import opened Common
  import opened Order

  type Path = seq<string>

  datatype FileStamp = FileStamp(present: bool, modTime: Option<int>, size: nat, digest: Option<string>)

  type Stamps = map<Path, FileStamp>

  // ---- What changed ------------------------------------------------------------------------

  predicate Differs(before: Stamps, after: Stamps, path: Path) {
    (path in before) != (path in after) || (path in before && path in after && before[path] != after[path])
  }

  /** `diff_stamps`: the paths added, removed or stamped otherwise, each once, sorted. */
  method DiffStamps(before: Stamps, after: Stamps) returns (changed: seq<Path>)
    ensures forall p :: p in changed <==> Differs(before, after, p)
    ensures forall i, j | 0 <= i < j < |changed| :: changed[i] != changed[j]
    ensures PathsSorted(changed)
    ensures changed == [] <==> before == after
  {
    changed := CollectDiffs(before, after);
    SortPathsKeeps(changed);
    SortPathsSorts(changed);
    changed := SortPaths(changed);
  }

  method CollectDiffs(before: Stamps, after: Stamps) returns (changed: seq<Path>)
    ensures forall p :: p in changed <==> Differs(before, after, p)
    ensures forall i, j | 0 <= i < j < |changed| :: changed[i] != changed[j]
    ensures changed == [] <==> before == after
  {
    changed := [];
    var left := after.Keys + before.Keys;
    while left != {}
      invariant left <= after.Keys + before.Keys
      invariant forall p :: p in changed <==> Differs(before, after, p) && p !in left
      invariant forall i, j | 0 <= i < j < |changed| :: changed[i] != changed[j]
    {
      var path :| path in left;
      if !(path in before && path in after && before[path] == after[path]) {
        changed := changed + [path];
      }
      left := left - {path};
    }
    if changed == [] {
      forall p ensures p in before <==> p in after {
        assert !Differs(before, after, p);
      }
      forall p | p in before ensures before[p] == after[p] {
        assert !Differs(before, after, p);
      }
    } else {
      assert changed[0] in changed;
    }
  }

  // ---- Settling ----------------------------------------------------------------------------

  const QUIET_PERIOD: nat := 50
  const SETTLE_CAP: nat := 500

  /** The `k`th snapshot of a settling that begins with `first` and goes on with number `at`. */
  function Snapshot(first: Stamps, snaps: nat -> Stamps, at: nat, k: nat): Stamps {
    if k == 0 then first else snaps(at + k - 1)
  }

  /** The snapshot after the `k`th shows something else. */
  predicate Moving(first: Stamps, snaps: nat -> Stamps, at: nat, k: nat) {
    Snapshot(first, snaps, at, k + 1) != Snapshot(first, snaps, at, k)
  }

  /** How many snapshots settling takes, `taken` of them taken: up to one that repeats, ten at most. */
  function SettleLength(first: Stamps, snaps: nat -> Stamps, at: nat, taken: nat): (r: nat)
    requires taken < 10
    ensures taken < r <= 10
    decreases 10 - taken
  {
    if taken == 9 || !Moving(first, snaps, at, taken) then taken + 1 else SettleLength(first, snaps, at, taken + 1)
  }

  /** Every snapshot but the last shows something new, and the last does not, unless it is the tenth. */
  lemma {:induction false} SettleMeans(first: Stamps, snaps: nat -> Stamps, at: nat, taken: nat)
    requires taken < 10
    ensures var r := SettleLength(first, snaps, at, taken);
            (forall k | taken <= k < r - 1 :: Moving(first, snaps, at, k)) && (r < 10 ==> !Moving(first, snaps, at, r - 1))
    decreases 10 - taken
  {
    if taken < 9 && Moving(first, snaps, at, taken) {
      SettleMeans(first, snaps, at, taken + 1);
    }
  }

  /**
   * `settle_changes`: snapshots again, from number `at`, until one shows what the one before it did,
   * ten times at most; the settled snapshot, the paths that differ from the baseline, and how many
   * snapshots were taken.
   */
  method SettleChanges(base: Stamps, first: Stamps, snaps: nat -> Stamps, at: nat)
    returns (settled: Stamps, changed: seq<Path>, taken: nat)
    ensures taken == SettleLength(first, snaps, at, 0) && settled == snaps(at + taken - 1)
    ensures forall p :: p in changed <==> Differs(base, settled, p)
    ensures forall i, j | 0 <= i < j < |changed| :: changed[i] != changed[j]
    ensures changed == [] <==> base == settled
  {
    settled, taken := SettleSnapshots(first, snaps, at);
    changed := DiffStamps(base, settled);
  }

  lemma SettleStep(first: Stamps, snaps: nat -> Stamps, at: nat, taken: nat)
    requires taken < 10
    ensures Snapshot(first, snaps, at, taken + 1) == snaps(at + taken)
    ensures var still := snaps(at + taken) == Snapshot(first, snaps, at, taken);
            SettleLength(first, snaps, at, taken) ==
            if taken == 9 || still then taken + 1 else SettleLength(first, snaps, at, taken + 1)
  {
  }

  method Unchanged(before: Stamps, after: Stamps) returns (same: bool)
    ensures same == (before == after)
  {
    var between := DiffStamps(before, after);
    same := between == [];
  }

  /** The loop over the quiet timer. */
  method SettleSnapshots(first: Stamps, snaps: nat -> Stamps, at: nat) returns (settled: Stamps, taken: nat)
    ensures taken == SettleLength(first, snaps, at, 0) && settled == Snapshot(first, snaps, at, taken)
  {
    settled, taken := first, 0;
    var waited, quiet := 0, false;
    assert settled == Snapshot(first, snaps, at, taken);
    hide Snapshot, SettleLength;
    while waited < SETTLE_CAP && !quiet
      invariant taken <= 10 && waited == QUIET_PERIOD * (if quiet then taken - 1 else taken) && (quiet ==> taken >= 1)
      invariant settled == Snapshot(first, snaps, at, taken)
      invariant SettleLength(first, snaps, at, 0) ==
                if quiet || taken == 10 then taken else SettleLength(first, snaps, at, taken)
      decreases SETTLE_CAP - waited, !quiet
    {
      SettleStep(first, snaps, at, taken);
      var next := snaps(at + taken);
      quiet := Unchanged(settled, next);
      settled, taken := next, taken + 1;
      if !quiet {
        waited := waited + QUIET_PERIOD;
      }
    }
  }

  /** The last snapshot of a poll that begins with number `at`. */
  function PollEnd(baseline: Stamps, snaps: nat -> Stamps, at: nat): (r: nat)
    ensures at <= r <= at + 10
  {
    if snaps(at) == baseline then at else at + SettleLength(snaps(at), snaps, at + 1, 0)
  }

  /** The snapshot a poll begins with: the one after the last of the poll before. */
  function PollStart(baseline: Stamps, snaps: nat -> Stamps, poll: nat): nat {
    if poll == 0 then 0 else PollEnd(baseline, snaps, PollStart(baseline, snaps, poll - 1)) + 1
  }

  /** What a poll settles on, all polls before it having settled back on the baseline. */
  function SettledOn(baseline: Stamps, snaps: nat -> Stamps, poll: nat): Stamps {
    snaps(PollEnd(baseline, snaps, PollStart(baseline, snaps, poll)))
  }

  lemma PollNext(baseline: Stamps, snaps: nat -> Stamps, poll: nat, at: nat)
    requires at == PollStart(baseline, snaps, poll)
    ensures SettledOn(baseline, snaps, poll) == snaps(PollEnd(baseline, snaps, at))
    ensures PollStart(baseline, snaps, poll + 1) == PollEnd(baseline, snaps, at) + 1
  {
  }

  /** The first poll that does not settle back on the baseline. */
  ghost predicate FirstChange(baseline: Stamps, snaps: nat -> Stamps, poll: nat) {
    SettledOn(baseline, snaps, poll) != baseline && forall i: nat | i < poll :: SettledOn(baseline, snaps, i) == baseline
  }

  /** One poll: a snapshot, settled if it shows a change; none of it remains if it settles back. */
  method PollOnce(baseline: Stamps, snaps: nat -> Stamps, at: nat) returns (end: nat, settled: Stamps, changed: seq<Path>)
    ensures end == PollEnd(baseline, snaps, at) && settled == snaps(end)
    ensures forall p :: p in changed <==> Differs(baseline, settled, p)
    ensures forall i, j | 0 <= i < j < |changed| :: changed[i] != changed[j]
    ensures changed == [] <==> baseline == settled
  {
    var next := snaps(at);
    changed := DiffStamps(baseline, next);
    if changed == [] {
      return at, next, [];
    }
    var taken;
    settled, changed, taken := SettleChanges(baseline, next, snaps, at + 1);
    end := at + taken;
  }

  /**
   * `await_changes`, given how many polls come before the stop: nothing if each settles back on the
   * baseline, and otherwise the first that does not, with exactly what differs from the baseline.
   */
  method AwaitChanges(baseline: Stamps, snaps: nat -> Stamps, stopsAfter: nat)
    returns (r: Option<(Stamps, seq<Path>)>, ghost poll: nat)
    ensures r.None? ==> forall i: nat | i < stopsAfter :: SettledOn(baseline, snaps, i) == baseline
    ensures r.Some? ==>
              poll < stopsAfter && FirstChange(baseline, snaps, poll) &&
              r.value.0 == SettledOn(baseline, snaps, poll) && r.value.1 != [] &&
              (forall p :: p in r.value.1 <==> Differs(baseline, r.value.0, p)) &&
              forall i, j | 0 <= i < j < |r.value.1| :: r.value.1[i] != r.value.1[j]
  {
    var current := baseline;
    var at, left := 0, stopsAfter;
    poll := 0;
    assert at == PollStart(baseline, snaps, poll);
    hide PollStart, SettledOn, PollEnd, Differs;
    while left > 0
      invariant current == baseline && poll + left == stopsAfter && at == PollStart(baseline, snaps, poll)
      invariant forall i: nat | i < poll :: SettledOn(baseline, snaps, i) == baseline
    {
      PollNext(baseline, snaps, poll, at);
      var end, settled, changed := PollOnce(current, snaps, at);
      if changed != [] {
        return Some((settled, changed)), poll;
      }
      current := settled;
      at, left, poll := end + 1, left - 1, poll + 1;
    }
    return None, poll;
  }

  // ---- Baselines ---------------------------------------------------------------------------

  /** A path as its file system compares it. */
  function Folded(path: Path, fold: string -> string): (r: Path)
    ensures |r| == |path| && forall i | 0 <= i < |path| :: r[i] == fold(path[i])
  {
    seq(|path|, i requires 0 <= i < |path| => fold(path[i]))
  }

  /** `path` is `dir` or below it, by the case rule. */
  predicate Under(path: Path, dir: Path, fold: string -> string) {
    Folded(dir, fold) <= Folded(path, fold)
  }

  predicate UnderAny(path: Path, dirs: set<Path>, fold: string -> string) {
    exists d | d in dirs :: Under(path, d, fold)
  }

  /** `prune_stamps` */
  function Prune(stamps: Stamps, dirs: set<Path>, fold: string -> string): Stamps {
    map p | p in stamps && !UnderAny(p, dirs, fold) :: stamps[p]
  }

  /** It drops what lies at or below a directory, component by component as the file system compares them. */
  lemma PruneMeans(stamps: Stamps, dirs: set<Path>, fold: string -> string, p: Path)
    ensures p in Prune(stamps, dirs, fold) <==>
            p in stamps && !exists d | d in dirs :: |d| <= |p| && forall i | 0 <= i < |d| :: fold(d[i]) == fold(p[i])
    ensures p in Prune(stamps, dirs, fold) ==> Prune(stamps, dirs, fold)[p] == stamps[p]
  {
    forall d | d in dirs ensures Under(p, d, fold) <==> |d| <= |p| && forall i | 0 <= i < |d| :: fold(d[i]) == fold(p[i]) {
      var a, b := Folded(d, fold), Folded(p, fold);
      assert |d| <= |p| ==> (a <= b <==> forall i | 0 <= i < |a| :: a[i] == b[i]);
    }
  }

  /** What the build loop compares with after a build: the snapshot from before it. */
  function NextBaseline(before: Stamps, extra: Stamps, dirs: set<Path>, fold: string -> string): Stamps {
    Prune(extra + before, dirs, fold)
  }

  /** `merge_pre_stamps` */
  function MergePreStamps(post: Stamps, pre: Stamps): Stamps {
    map p | p in post :: if p in pre then pre[p] else post[p]
  }

  /**
   * How the stamps from before a run become the next baseline: a build names the directories to skip
   * and the files now watched besides; a check, the stamps of the files it read.
   */
  datatype Rebase = Built(dirs: set<Path>, extra: Stamps) | Checked(post: Stamps)

  function Rebased(before: Stamps, rebase: Rebase, fold: string -> string): Stamps {
    match rebase
    case Built(dirs, extra) => NextBaseline(before, extra, dirs, fold)
    case Checked(post) => MergePreStamps(post, before)
  }

  /** The stamps taken after the run of what it came to watch. */
  function StampedAfter(rebase: Rebase): Stamps {
    match rebase
    case Built(_, extra) => extra
    case Checked(post) => post
  }

  /** The files the next baseline may speak of: those outside the skipped directories, or those read. */
  predicate Tracked(rebase: Rebase, path: Path, fold: string -> string) {
    match rebase
    case Built(dirs, _) => !UnderAny(path, dirs, fold)
    case Checked(post) => path in post
  }

  /**
   * Whether a path that was changed since before the run is seen to be: its stamp from before is the
   * one compared with, or there is none to compare with, or the change came after the run's stamping.
   */
  predicate Sees(before: Stamps, rebase: Rebase, after: Stamps, path: Path, fold: string -> string) {
    if Tracked(rebase, path, fold) then
      path in before || path !in StampedAfter(rebase) || Differs(StampedAfter(rebase), after, path)
    else path in after
  }

  /** A change is seen exactly then. */
  lemma ChangeSeen(before: Stamps, rebase: Rebase, after: Stamps, path: Path, fold: string -> string)
    requires Differs(before, after, path)
    ensures Differs(Rebased(before, rebase, fold), after, path) <==> Sees(before, rebase, after, path, fold)
  {
  }

  /** What follows a run: its baseline, the snapshots from then on, how many polls come before the stop. */
  datatype Phase = Phase(rebase: Rebase, snaps: nat -> Stamps, stopsAfter: nat)

  /** The poll that ends the wait after a run with a change, if one does. */
  ghost function Ending(before: Stamps, phase: Phase, fold: string -> string): (r: Option<nat>)
    ensures var baseline := Rebased(before, phase.rebase, fold);
            match r
            case None => forall i: nat | i < phase.stopsAfter :: SettledOn(baseline, phase.snaps, i) == baseline
            case Some(poll) => poll < phase.stopsAfter && FirstChange(baseline, phase.snaps, poll)
  {
    FirstExists(Rebased(before, phase.rebase, fold), phase.snaps, phase.stopsAfter);
    if poll: nat :| poll < phase.stopsAfter && FirstChange(Rebased(before, phase.rebase, fold), phase.snaps, poll)
      then Some(poll) else None
  }

  lemma {:induction false} FirstExists(baseline: Stamps, snaps: nat -> Stamps, n: nat)
    ensures (forall i: nat | i < n :: SettledOn(baseline, snaps, i) == baseline) ||
            exists poll: nat | poll < n :: FirstChange(baseline, snaps, poll)
  {
    if n > 0 {
      FirstExists(baseline, snaps, n - 1);
      assert SettledOn(baseline, snaps, n - 1) == baseline ||
             (exists poll: nat | poll < n - 1 :: FirstChange(baseline, snaps, poll)) || FirstChange(baseline, snaps, n - 1);
    }
  }

  /** The snapshot the next run starts from, if there is one: the first settled change. */
  ghost function NextStart(before: Stamps, phase: Phase, fold: string -> string): Option<Stamps> {
    match Ending(before, phase, fold)
    case None => None
    case Some(poll) => Some(SettledOn(Rebased(before, phase.rebase, fold), phase.snaps, poll))
  }

  /** The snapshots the runs of a session start from, over the first `n` phases. */
  ghost function Starts(first: Stamps, phases: seq<Phase>, n: nat, fold: string -> string): (r: seq<Stamps>)
    requires n <= |phases|
    ensures 1 <= |r| <= n + 1
  {
    if n == 0 then [first]
    else
      var before := Starts(first, phases, n - 1, fold);
      if |before| < n then before
      else
        match NextStart(before[n - 1], phases[n - 1], fold)
        case None => before
        case Some(start) => before + [start]
  }

  /** A run names exactly what differs between the baseline from before the last one and its start. */
  ghost predicate Named(changed: Option<seq<Path>>, before: Stamps, phase: Phase, after: Stamps, fold: string -> string) {
    changed.Some? && changed.value != [] &&
    forall p :: p in changed.value <==> Differs(Rebased(before, phase.rebase, fold), after, p)
  }

  ghost predicate NamedAt(builds: seq<Option<seq<Path>>>, starts: seq<Stamps>, phases: seq<Phase>, fold: string -> string, k: nat) {
    k < |builds| == |starts| <= |phases| + 1 &&
    if k == 0 then builds[0].None? else Named(builds[k], starts[k - 1], phases[k - 1], starts[k], fold)
  }

  /** The first run names nothing, and each other what changed since the one before. */
  ghost predicate Session(builds: seq<Option<seq<Path>>>, starts: seq<Stamps>, phases: seq<Phase>, fold: string -> string) {
    |builds| == |starts| && forall k | 0 <= k < |builds| :: NamedAt(builds, starts, phases, fold, k)
  }

  lemma SessionGrows(builds: seq<Option<seq<Path>>>, starts: seq<Stamps>, phases: seq<Phase>, fold: string -> string,
                     changed: Option<seq<Path>>, after: Stamps)
    requires Session(builds, starts, phases, fold) && 0 < |builds| <= |phases|
    requires Named(changed, starts[|builds| - 1], phases[|builds| - 1], after, fold)
    ensures Session(builds + [changed], starts + [after], phases, fold)
  {
    forall k | 0 <= k < |builds| + 1 ensures NamedAt(builds + [changed], starts + [after], phases, fold, k) {
      if k < |builds| {
        assert NamedAt(builds, starts, phases, fold, k);
      }
    }
  }

  /** Once the watch stopped, no later phase begins. */
  lemma {:induction false} StoppedStarts(first: Stamps, phases: seq<Phase>, m: nat, n: nat, fold: string -> string)
    requires m <= n <= |phases| && |Starts(first, phases, m, fold)| <= m
    ensures Starts(first, phases, n, fold) == Starts(first, phases, m, fold)
  {
    hide NextStart;
    if m < n {
      StoppedStarts(first, phases, m, n - 1, fold);
    }
  }

  /** How far the loop is: it ran a build for each of the first `n` phases' starts. */
  ghost predicate Running(builds: seq<Option<seq<Path>>>, starts: seq<Stamps>, n: nat, first: Stamps, phases: seq<Phase>,
                          fold: string -> string) {
    n <= |phases| && |builds| == |starts| == n + 1 && starts == Starts(first, phases, n, fold) && Session(builds, starts, phases, fold)
  }

  lemma RunningOn(builds: seq<Option<seq<Path>>>, starts: seq<Stamps>, n: nat, first: Stamps, phases: seq<Phase>,
                  fold: string -> string, changed: Option<seq<Path>>, start: Stamps)
    requires Running(builds, starts, n, first, phases, fold) && n < |phases|
    requires NextStart(starts[n], phases[n], fold) == if changed.None? then None else Some(start)
    requires changed.Some? ==> Named(changed, starts[n], phases[n], start, fold)
    ensures if changed.None? then Session(builds, Starts(first, phases, |phases|, fold), phases, fold)
            else Running(builds + [changed], starts + [start], n + 1, first, phases, fold)
  {
    hide NextStart, Named, NamedAt;
    StartsNext(first, phases, n, fold);
    if changed.None? {
      StoppedStarts(first, phases, n + 1, |phases|, fold);
    } else {
      SessionGrows(builds, starts, phases, fold, changed, start);
    }
  }

  /** `run_build_watch_loop`: one build, and another for each change that settles. */
  method BuildWatchLoop(first: Stamps, phases: seq<Phase>, fold: string -> string) returns (builds: seq<Option<seq<Path>>>)
    requires forall phase | phase in phases :: phase.rebase.Built?
    ensures Session(builds, Starts(first, phases, |phases|, fold), phases, fold)
  {
    builds := [None];
    var baseline, index := first, 0;
    ghost var starts := [first];
    assert Running(builds, starts, 0, first, phases, fold);
    hide Session, Starts, NextStart, Named;
    while index < |phases|
      invariant Running(builds, starts, index, first, phases, fold) && baseline == starts[index]
    {
      var changed, start := AfterBuild(baseline, phases[index], fold);
      RunningOn(builds, starts, index, first, phases, fold, changed, start);
      if changed.None? {
        return;
      }
      starts := starts + [start];
      baseline, builds, index := start, builds + [changed], index + 1;
    }
  }

  /** `run_check_watch_loop`: one check, and another for each settled change of the files it read. */
  method CheckWatchLoop(phases: seq<Phase>, fold: string -> string) returns (checks: seq<Option<seq<Path>>>)
    requires forall phase | phase in phases :: phase.rebase.Checked?
    ensures Session(checks, Starts(map[], phases, |phases|, fold), phases, fold)
  {
    checks := [None];
    var stamps: Stamps, index := map[], 0;
    ghost var starts := [stamps];
    assert Running(checks, starts, 0, map[], phases, fold);
    hide Session, Starts, NextStart, Named;
    while index < |phases|
      invariant Running(checks, starts, index, map[], phases, fold) && stamps == starts[index]
    {
      var changed, start := AfterCheck(stamps, phases[index], fold);
      RunningOn(checks, starts, index, map[], phases, fold, changed, start);
      if changed.None? {
        return;
      }
      starts := starts + [start];
      stamps, checks, index := start, checks + [changed], index + 1;
    }
  }

  method AfterBuild(before: Stamps, phase: Phase, fold: string -> string) returns (changed: Option<seq<Path>>, start: Stamps)
    requires phase.rebase.Built?
    ensures NextStart(before, phase, fold) == if changed.None? then None else Some(start)
    ensures changed.Some? ==> Named(changed, before, phase, start, fold)
  {
    changed, start := AfterRun(NextBaseline(before, phase.rebase.extra, phase.rebase.dirs, fold), before, phase, fold);
  }

  method AfterCheck(before: Stamps, phase: Phase, ghost fold: string -> string) returns (changed: Option<seq<Path>>, start: Stamps)
    requires phase.rebase.Checked?
    ensures NextStart(before, phase, fold) == if changed.None? then None else Some(start)
    ensures changed.Some? ==> Named(changed, before, phase, start, fold)
  {
    changed, start := AfterRun(MergePreStamps(phase.rebase.post, before), before, phase, fold);
  }

  /** What follows a run: nothing more, or the paths that changed and the snapshot to start from. */
  method AfterRun(baseline: Stamps, ghost before: Stamps, phase: Phase, ghost fold: string -> string)
    returns (changed: Option<seq<Path>>, start: Stamps)
    requires baseline == Rebased(before, phase.rebase, fold)
    ensures NextStart(before, phase, fold) == if changed.None? then None else Some(start)
    ensures changed.Some? ==> Named(changed, before, phase, start, fold)
  {
    var next;
    ghost var poll;
    next, poll := AwaitChanges(baseline, phase.snaps, phase.stopsAfter);
    if next.None? {
      return None, baseline;
    }
    OneFirst(baseline, phase.snaps, poll, Ending(before, phase, fold));
    return Some(next.value.1), next.value.0;
  }

  /** There is but one first change. */
  lemma OneFirst(baseline: Stamps, snaps: nat -> Stamps, poll: nat, other: Option<nat>)
    requires FirstChange(baseline, snaps, poll) && (other.Some? ==> FirstChange(baseline, snaps, other.value))
    ensures other.Some? ==> other.value == poll
  {
    if other.Some? {
      assert !(poll < other.value) && !(other.value < poll);
    }
  }

  lemma StartsNext(first: Stamps, phases: seq<Phase>, n: nat, fold: string -> string)
    requires n < |phases| && |Starts(first, phases, n, fold)| == n + 1
    ensures var before := Starts(first, phases, n, fold);
            Starts(first, phases, n + 1, fold) ==
            match NextStart(before[n], phases[n], fold)
            case None => before
            case Some(start) => before + [start]
  {
  }

  /** A run that ended with a change is followed by one that starts from it. */
  lemma {:induction false} StartFollows(first: Stamps, phases: seq<Phase>, n: nat, k: nat, fold: string -> string)
    requires k < n <= |phases| && k < |Starts(first, phases, n, fold)|
    ensures var starts := Starts(first, phases, n, fold);
            match NextStart(starts[k], phases[k], fold)
            case None => |starts| == k + 1
            case Some(start) => k + 1 < |starts| && starts[k + 1] == start
  {
    hide NextStart, Ending, Rebased;
    if k < n - 1 {
      var before := Starts(first, phases, n - 1, fold);
      if k < |before| {
        StartFollows(first, phases, n - 1, k, fold);
      }
    }
  }

  /**
   * Which edits are not absorbed. One made while a run was under way, and still there on the snapshot
   * a later poll settles on, the polls before having settled back, is named by the next run, which
   * starts from that very snapshot, exactly if the run's stamps let it be seen.
   */
  lemma EditNamed(first: Stamps, phases: seq<Phase>, fold: string -> string, runs: seq<Option<seq<Path>>>, k: nat, poll: nat,
                  path: Path)
    requires k < |phases| && poll < phases[k].stopsAfter
    requires Session(runs, Starts(first, phases, |phases|, fold), phases, fold) && k < |runs|
    requires var before := Starts(first, phases, |phases|, fold)[k];
             var baseline := Rebased(before, phases[k].rebase, fold);
             (forall i: nat | i < poll :: SettledOn(baseline, phases[k].snaps, i) == baseline) &&
             Differs(before, SettledOn(baseline, phases[k].snaps, poll), path)
    ensures var starts := Starts(first, phases, |phases|, fold);
            var settled := SettledOn(Rebased(starts[k], phases[k].rebase, fold), phases[k].snaps, poll);
            k + 1 < |runs| && runs[k + 1].Some? && path in runs[k + 1].value && starts[k + 1] == settled <==>
            Sees(starts[k], phases[k].rebase, settled, path, fold)
  {
    var starts := Starts(first, phases, |phases|, fold);
    var before, phase := starts[k], phases[k];
    var baseline := Rebased(before, phase.rebase, fold);
    var settled := SettledOn(baseline, phase.snaps, poll);
    ChangeSeen(before, phase.rebase, settled, path, fold);
    if k + 1 < |runs| {
      assert NamedAt(runs, starts, phases, fold, k + 1);
    }
    if Sees(before, phase.rebase, settled, path, fold) {
      assert FirstChange(baseline, phase.snaps, poll);
      OneFirst(baseline, phase.snaps, poll, Ending(before, phase, fold));
      StartFollows(first, phases, |phases|, k, fold);
      assert NamedAt(runs, starts, phases, fold, k + 1);
    }
  }

  /**
   * The first check has no stamps from before: whatever was edited while it ran, if the files then
   * stay as it left them no second check starts.
   */
  lemma FirstCheckAbsorbs(phase: Phase, fold: string -> string, before: Stamps, path: Path)
    requires phase.rebase.Checked? && forall n :: phase.snaps(n) == phase.rebase.post
    requires path in phase.rebase.post && Differs(before, phase.rebase.post, path)
    ensures NextStart(map[], phase, fold) == None
    ensures !Sees(map[], phase.rebase, phase.snaps(0), path, fold)
  {
    assert Rebased(map[], phase.rebase, fold) == phase.rebase.post;
    StaysOn(map[], phase, fold);
  }

  /** The same of an extra file that the build is the first to have watched. */
  lemma NewExtraAbsorbs(before: Stamps, phase: Phase, fold: string -> string, path: Path)
    requires phase.rebase.Built? && path in phase.rebase.extra && path !in before
    requires !UnderAny(path, phase.rebase.dirs, fold)
    requires forall n :: phase.snaps(n) == NextBaseline(before, phase.rebase.extra, phase.rebase.dirs, fold)
    ensures Differs(before, phase.snaps(0), path) && NextStart(before, phase, fold) == None
    ensures !Sees(before, phase.rebase, phase.snaps(0), path, fold)
  {
    StaysOn(before, phase, fold);
  }

  lemma StaysOn(before: Stamps, phase: Phase, fold: string -> string)
    requires forall n :: phase.snaps(n) == Rebased(before, phase.rebase, fold)
    ensures NextStart(before, phase, fold) == None
  {
    var baseline := Rebased(before, phase.rebase, fold);
    forall poll: nat ensures SettledOn(baseline, phase.snaps, poll) == baseline {
      assert phase.snaps(PollEnd(baseline, phase.snaps, PollStart(baseline, phase.snaps, poll))) == baseline;
    }
  }

  // ---- The tree ----------------------------------------------------------------------------

  datatype Node = Leaf(stamp: FileStamp) | Dir(entries: seq<Entry>)

  datatype Entry = Entry(name: string, node: Node)

  /** What a walk leaves out by name alone: dependency trees and dot-directories; junk files. */
  datatype Names = Names(pruned: string -> bool, ignored: string -> bool)

  predicate SkipDir(path: Path, dirs: set<Path>, fold: string -> string) {
    exists d | d in dirs :: Folded(d, fold) == Folded(path, fold)
  }

  /** `walk` */
  function Walk(entries: seq<Entry>, path: Path, dirs: set<Path>, names: Names, fold: string -> string): Stamps {
    if entries == [] then map[]
    else
      Walk(entries[1..], path, dirs, names, fold) +
      var item := path + [entries[0].name];
      match entries[0].node
      case Leaf(stamp) => if names.ignored(entries[0].name) then map[] else map[item := stamp]
      case Dir(inner) =>
        if names.pruned(entries[0].name) || SkipDir(item, dirs, fold) then map[] else Walk(inner, item, dirs, names, fold)
  }

  /** A file stands below some entries, along directories not left out by name, and is no junk. */
  ghost predicate Stands(entries: seq<Entry>, rest: Path, names: Names, stamp: FileStamp)
    decreases |rest|
  {
    rest != [] &&
    exists e | e in entries ::
      e.name == rest[0] &&
      match e.node
      case Leaf(s) => |rest| == 1 && s == stamp && !names.ignored(rest[0])
      case Dir(inner) => |rest| > 1 && !names.pruned(rest[0]) && Stands(inner, rest[1..], names, stamp)
  }

  lemma StandsFirst(first: Entry, more: seq<Entry>, rest: Path, names: Names, stamp: FileStamp)
    ensures Stands([first] + more, rest, names, stamp) <==> Stands([first], rest, names, stamp) || Stands(more, rest, names, stamp)
  {
    var all := [first] + more;
    if Stands(all, rest, names, stamp) {
      var e :| e in all && e.name == rest[0] &&
               match e.node
               case Leaf(s) => |rest| == 1 && s == stamp && !names.ignored(rest[0])
               case Dir(inner) => |rest| > 1 && !names.pruned(rest[0]) && Stands(inner, rest[1..], names, stamp);
      assert e in [first] || e in more;
    }
  }

  lemma WalkSplits(first: Entry, more: seq<Entry>, path: Path, names: Names, fold: string -> string)
    ensures Walk([first] + more, path, {}, names, fold) ==
            Walk(more, path, {}, names, fold) + Walk([first], path, {}, names, fold)
  {
    assert ([first] + more)[1..] == more && [first][1..] == [];
  }

  /** A walk that skips no directory lists exactly the files that stand there, with their stamps. */
  lemma {:induction false} WalkLists(entries: seq<Entry>, path: Path, names: Names, fold: string -> string, p: Path)
    ensures var walked := Walk(entries, path, {}, names, fold);
            (p in walked ==> path < p && Stands(entries, p[|path|..], names, walked[p])) &&
            (forall stamp | path < p && Stands(entries, p[|path|..], names, stamp) :: p in walked)
    decreases entries
  {
    if entries == [] {
    } else {
      hide Walk, Stands;
      var first, more := entries[0], entries[1..];
      assert entries == [first] + more;
      WalkLists(more, path, names, fold, p);
      WalkSplits(first, more, path, names, fold);
      var item := path + [first.name];
      if first.node.Dir? {
        WalkLists(first.node.entries, item, names, fold, p);
      }
      FirstLists(first, path, names, fold, p, if item < p then p[|item|..] else []);
      if path < p {
        var rest := p[|path|..];
        forall stamp ensures Stands(entries, rest, names, stamp) <==>
                             Stands([first], rest, names, stamp) || Stands(more, rest, names, stamp)
        {
          StandsFirst(first, more, rest, names, stamp);
        }
      }
    }
  }

  lemma FirstLists(first: Entry, path: Path, names: Names, fold: string -> string, p: Path, below: Path)
    requires path + [first.name] < p ==> below == p[|path| + 1..]
    requires first.node.Dir? ==>
               var walked := Walk(first.node.entries, path + [first.name], {}, names, fold);
               (p in walked ==> path + [first.name] < p && Stands(first.node.entries, below, names, walked[p])) &&
               (forall stamp | path + [first.name] < p && Stands(first.node.entries, below, names, stamp) :: p in walked)
    ensures var walked := Walk([first], path, {}, names, fold);
            (p in walked ==> path < p && Stands([first], p[|path|..], names, walked[p])) &&
            (forall stamp | path < p && Stands([first], p[|path|..], names, stamp) :: p in walked)
  {
    var item := path + [first.name];
    assert [first][1..] == [];
    if path < p {
      var rest := p[|path|..];
      assert rest[0] == first.name <==> item <= p;
      assert item < p ==> rest[1..] == below;
      assert |rest| == 1 && rest[0] == first.name ==> p == item;
      assert first in [first];
    }
  }

  lemma {:induction false} WalkBelow(entries: seq<Entry>, path: Path, dirs: set<Path>, names: Names, fold: string -> string)
    ensures forall p | p in Walk(entries, path, dirs, names, fold) :: |p| > |path| && p[..|path|] == path
  {
    if entries != [] {
      WalkBelow(entries[1..], path, dirs, names, fold);
      var item := path + [entries[0].name];
      if entries[0].node.Dir? {
        WalkBelow(entries[0].node.entries, item, dirs, names, fold);
        forall p | p in Walk(entries[0].node.entries, item, dirs, names, fold) ensures |p| > |path| && p[..|path|] == path {
          assert p[..|path|] == p[..|item|][..|path|] == path;
        }
      }
    }
  }

  /** A directory of `dirs` lies between the walked directory and the file. */
  ghost predicate Cut(p: Path, above: nat, dirs: set<Path>, fold: string -> string) {
    exists d | d in dirs :: above < |d| < |p| && Folded(d, fold) == Folded(p[..|d|], fold)
  }

  /** Skipping directories while walking leaves out exactly the files below them. */
  lemma {:induction false} WalkCuts(entries: seq<Entry>, path: Path, dirs: set<Path>, names: Names, fold: string -> string)
    ensures forall p :: p in Walk(entries, path, dirs, names, fold) <==>
                        p in Walk(entries, path, {}, names, fold) && !Cut(p, |path|, dirs, fold)
    ensures forall p | p in Walk(entries, path, dirs, names, fold) ::
              Walk(entries, path, dirs, names, fold)[p] == Walk(entries, path, {}, names, fold)[p]
  {
    if entries != [] {
      WalkCuts(entries[1..], path, dirs, names, fold);
      var item := path + [entries[0].name];
      if entries[0].node.Dir? && !names.pruned(entries[0].name) {
        var inner := entries[0].node.entries;
        WalkCuts(inner, item, dirs, names, fold);
        WalkBelow(inner, item, {}, names, fold);
        forall p | p in Walk(inner, item, {}, names, fold)
          ensures Cut(p, |path|, dirs, fold) <==> SkipDir(item, dirs, fold) || Cut(p, |item|, dirs, fold)
        {
          CutHere(p, path, item, dirs, fold);
        }
      }
    }
  }

  lemma CutHere(p: Path, path: Path, item: Path, dirs: set<Path>, fold: string -> string)
    requires |item| == |path| + 1 && |p| > |item| && p[..|item|] == item
    ensures Cut(p, |path|, dirs, fold) <==> SkipDir(item, dirs, fold) || Cut(p, |item|, dirs, fold)
  {
    if d :| d in dirs && |path| < |d| < |p| && Folded(d, fold) == Folded(p[..|d|], fold) {
      if |d| == |item| {
        assert Folded(d, fold) == Folded(item, fold);
      }
    }
    if d :| d in dirs && Folded(d, fold) == Folded(item, fold) {
      assert |d| == |Folded(d, fold)| == |item|;
      assert Folded(d, fold) == Folded(p[..|d|], fold);
    }
  }

  /**
   * Pruning a full snapshot gives what walking with the skipped directories gives exactly when every
   * file of it that stands at a skipped path, or has its root in a skipped directory, also lies in a
   * skipped directory below the root.
   */
  lemma PruneIsWalk(entries: seq<Entry>, root: Path, dirs: set<Path>, names: Names, fold: string -> string)
    ensures var full := Walk(entries, root, {}, names, fold);
            Prune(full, dirs, fold) == Walk(entries, root, dirs, names, fold) <==>
            forall p | p in full && (UnderAny(root, dirs, fold) || SkipDir(p, dirs, fold)) :: Cut(p, |root|, dirs, fold)
  {
    var full, walked := Walk(entries, root, {}, names, fold), Walk(entries, root, dirs, names, fold);
    WalkCuts(entries, root, dirs, names, fold);
    WalkBelow(entries, root, {}, names, fold);
    forall p | p in full
      ensures UnderAny(p, dirs, fold) <==> UnderAny(root, dirs, fold) || SkipDir(p, dirs, fold) || Cut(p, |root|, dirs, fold)
    {
      UnderSplits(p, root, dirs, fold);
    }
  }

  /** A plain file `out` where the output directory is to be: walking keeps it, pruning does not. */
  lemma FileAtSkippedPath(root: Path, stamp: FileStamp, names: Names, fold: string -> string)
    requires !names.ignored("out")
    ensures var entries, dirs := [Entry("out", Leaf(stamp))], {root + ["out"]};
            Walk(entries, root, dirs, names, fold) == map[root + ["out"] := stamp] &&
            Prune(Walk(entries, root, {}, names, fold), dirs, fold) == map[]
  {
    var entries := [Entry("out", Leaf(stamp))];
    assert Walk(entries[1..], root, {}, names, fold) == map[] && Walk(entries[1..], root, {root + ["out"]}, names, fold) == map[];
    assert Under(root + ["out"], root + ["out"], fold);
  }

  lemma UnderSplits(p: Path, root: Path, dirs: set<Path>, fold: string -> string)
    requires |p| > |root| && p[..|root|] == root
    ensures UnderAny(p, dirs, fold) <==> UnderAny(root, dirs, fold) || SkipDir(p, dirs, fold) || Cut(p, |root|, dirs, fold)
  {
    assert Folded(root, fold) == Folded(p, fold)[..|root|];
    if d :| d in dirs && Under(p, d, fold) {
      assert Folded(d, fold) == Folded(p, fold)[..|d|] == Folded(p[..|d|], fold);
      if |d| <= |root| {
        assert Folded(d, fold) == Folded(root, fold)[..|d|];
        assert Under(root, d, fold);
      } else if |d| == |p| {
        assert p[..|d|] == p;
        assert SkipDir(p, dirs, fold);
      } else {
        assert Cut(p, |root|, dirs, fold);
      }
    }
    if d :| d in dirs && |root| < |d| < |p| && Folded(d, fold) == Folded(p[..|d|], fold) {
      assert Folded(p[..|d|], fold) == Folded(p, fold)[..|d|];
      assert Under(p, d, fold);
    }
    if d :| d in dirs && Folded(d, fold) == Folded(p, fold) {
      assert Under(p, d, fold);
    }
    if d :| d in dirs && Under(root, d, fold) {
      assert Folded(d, fold) <= Folded(p, fold);
      assert Under(p, d, fold);
    }
  }

  // ---- An untouched tree -------------------------------------------------------------------

  /** `snapshot`: the walk, and the extra files with it. */
  function Watched(entries: seq<Entry>, root: Path, dirs: set<Path>, extra: Stamps, names: Names, fold: string -> string): Stamps {
    Walk(entries, root, dirs, names, fold) + extra
  }

  /**
   * Nothing changes between looking with one set of directories and extra files and looking with
   * another: what the second pass keeps, the first had, and the other way round.
   */
  ghost predicate SameView(entries: seq<Entry>, root: Path, dirs0: set<Path>, extra0: Stamps, dirs: set<Path>, extra: Stamps,
                           names: Names, fold: string -> string) {
    var full := Walk(entries, root, {}, names, fold);
    (forall p | p in extra :: !UnderAny(p, dirs, fold)) &&
    (forall p | p in full && !Cut(p, |root|, dirs, fold) ::
       !UnderAny(p, dirs, fold) && (!Cut(p, |root|, dirs0, fold) || p in extra0 || p in extra)) &&
    (forall p | p in extra0 :: UnderAny(p, dirs, fold) || p in extra || (p in full && !Cut(p, |root|, dirs, fold)))
  }

  /** The extra files are stamped as the walk stamps them, and alike both times. */
  ghost predicate StampedAlike(entries: seq<Entry>, root: Path, extra0: Stamps, extra: Stamps, names: Names, fold: string -> string) {
    var full := Walk(entries, root, {}, names, fold);
    (forall p | p in extra0 && p in extra :: extra0[p] == extra[p]) &&
    (forall p | p in extra0 && p in full :: extra0[p] == full[p]) && (forall p | p in extra && p in full :: extra[p] == full[p])
  }

  /** A file the walk below `root` keeps. */
  ghost predicate Walked(p: Path, full: Stamps, root: Path, dirs: set<Path>, fold: string -> string) {
    p in full && !Cut(p, |root|, dirs, fold)
  }

  lemma WatchedKeys(entries: seq<Entry>, root: Path, dirs: set<Path>, extra: Stamps, names: Names, fold: string -> string)
    ensures var full, now := Walk(entries, root, {}, names, fold), Watched(entries, root, dirs, extra, names, fold);
            forall p :: (p in now <==> p in extra || Walked(p, full, root, dirs, fold)) &&
                        (p in now ==> now[p] == if p in extra then extra[p] else full[p])
  {
    WalkCuts(entries, root, dirs, names, fold);
  }

  lemma BaselineKeys(entries: seq<Entry>, root: Path, dirs0: set<Path>, extra0: Stamps, dirs: set<Path>, extra: Stamps,
                     names: Names, fold: string -> string)
    ensures var full := Walk(entries, root, {}, names, fold);
            var baseline := NextBaseline(Watched(entries, root, dirs0, extra0, names, fold), extra, dirs, fold);
            forall p :: (p in baseline <==>
                         !UnderAny(p, dirs, fold) && (p in extra || p in extra0 || Walked(p, full, root, dirs0, fold))) &&
                        (p in baseline ==> baseline[p] == if p in extra0 then extra0[p]
                                                          else if Walked(p, full, root, dirs0, fold) then full[p] else extra[p])
  {
    WatchedKeys(entries, root, dirs0, extra0, names, fold);
  }

  lemma CutIsUnder(entries: seq<Entry>, root: Path, dirs: set<Path>, names: Names, fold: string -> string)
    ensures forall p | p in Walk(entries, root, {}, names, fold) && Cut(p, |root|, dirs, fold) :: UnderAny(p, dirs, fold)
  {
    WalkBelow(entries, root, {}, names, fold);
    forall p | p in Walk(entries, root, {}, names, fold) && Cut(p, |root|, dirs, fold) ensures UnderAny(p, dirs, fold) {
      UnderSplits(p, root, dirs, fold);
    }
  }

  /** Over an untouched tree the next baseline is what every later snapshot shows exactly in that case. */
  lemma BaselineIsView(entries: seq<Entry>, root: Path, dirs0: set<Path>, extra0: Stamps, dirs: set<Path>, extra: Stamps,
                       names: Names, fold: string -> string)
    requires StampedAlike(entries, root, extra0, extra, names, fold)
    ensures NextBaseline(Watched(entries, root, dirs0, extra0, names, fold), extra, dirs, fold) ==
            Watched(entries, root, dirs, extra, names, fold) <==>
            SameView(entries, root, dirs0, extra0, dirs, extra, names, fold)
  {
    var full := Walk(entries, root, {}, names, fold);
    var baseline := NextBaseline(Watched(entries, root, dirs0, extra0, names, fold), extra, dirs, fold);
    var now := Watched(entries, root, dirs, extra, names, fold);
    BaselineKeys(entries, root, dirs0, extra0, dirs, extra, names, fold);
    WatchedKeys(entries, root, dirs, extra, names, fold);
    CutIsUnder(entries, root, dirs, names, fold);
    hide Walk, NextBaseline, Watched, UnderAny, Cut;
    forall p | p in baseline && p in now ensures baseline[p] == now[p] {
    }
    if baseline == now {
      forall p ensures p in baseline <==> p in now {
      }
    }
    if SameView(entries, root, dirs0, extra0, dirs, extra, names, fold) {
      forall p ensures p in baseline <==> p in now {
      }
    }
  }

  /** A wait over one unchanging snapshot ends without a change exactly when that is the baseline. */
  lemma UnchangingWait(before: Stamps, phase: Phase, fold: string -> string, now: Stamps)
    requires phase.stopsAfter > 0 && forall n :: phase.snaps(n) == now
    ensures NextStart(before, phase, fold) == if Rebased(before, phase.rebase, fold) == now then None else Some(now)
  {
    var baseline := Rebased(before, phase.rebase, fold);
    match Ending(before, phase, fold)
    case None => assert SettledOn(baseline, phase.snaps, 0) == now;
    case Some(poll) => assert SettledOn(baseline, phase.snaps, poll) == now;
  }

  /**
   * An untouched tree starts no build exactly when the directories the build names and the files it
   * has watched give the same view as those from before it.
   */
  lemma UntouchedStartsNone(entries: seq<Entry>, root: Path, dirs0: set<Path>, extra0: Stamps, phase: Phase,
                            names: Names, fold: string -> string)
    requires phase.rebase.Built? && phase.stopsAfter > 0
    requires StampedAlike(entries, root, extra0, phase.rebase.extra, names, fold)
    requires forall n :: phase.snaps(n) == Watched(entries, root, phase.rebase.dirs, phase.rebase.extra, names, fold)
    ensures NextStart(Watched(entries, root, dirs0, extra0, names, fold), phase, fold).None? <==>
            SameView(entries, root, dirs0, extra0, phase.rebase.dirs, phase.rebase.extra, names, fold)
  {
    var dirs, extra := phase.rebase.dirs, phase.rebase.extra;
    BaselineIsView(entries, root, dirs0, extra0, dirs, extra, names, fold);
    UnchangingWait(Watched(entries, root, dirs0, extra0, names, fold), phase, fold, Watched(entries, root, dirs, extra, names, fold));
  }

  /** An extra file in a skipped directory makes every build of an untouched tree start another. */
  lemma ExtraInsideRestarts(entries: seq<Entry>, root: Path, phase: Phase, names: Names, fold: string -> string, path: Path)
    requires phase.rebase.Built? && phase.stopsAfter > 0
    requires path in phase.rebase.extra && UnderAny(path, phase.rebase.dirs, fold)
    requires forall n :: phase.snaps(n) == Watched(entries, root, phase.rebase.dirs, phase.rebase.extra, names, fold)
    ensures var now := Watched(entries, root, phase.rebase.dirs, phase.rebase.extra, names, fold);
            NextStart(now, phase, fold) == Some(now)
  {
    var now := Watched(entries, root, phase.rebase.dirs, phase.rebase.extra, names, fold);
    assert path in now && path !in Rebased(now, phase.rebase, fold);
    UnchangingWait(now, phase, fold, now);
  }
}
