/**
 * The compile gate of a solution watch and the threads around it (`solution_watch.rs`): watch
 * callbacks record events and trigger the gate, one worker runs the cycles, the main thread stops
 * both. Each step below is one section under a mutex; steps of different threads interleave freely.
 */
module SolutionWatch {

  // ---- The gate ----------------------------------------------------------------------------

  datatype GateState = GateState(running: bool, pending: bool, closed: bool)

  /** `CompileGate`: turns triggers into runs, one after the other. */
  class CompileGate {
    var state: GateState

    constructor ()
      ensures state == GateState(false, false, false)
    {
      state := GateState(false, false, false);
    }

    method Trigger()
      modifies this
      ensures state == Triggered(old(state))
    {
      state := state.(pending := true);
    }

    method Close()
      modifies this
      ensures state == Closed(old(state))
    {
      state := state.(closed := true);
    }

    /** The head of `serve`'s loop, once woken: a run to start, or the end. */
    method Next() returns (start: bool)
      requires state.pending || state.closed
      modifies this
      ensures start == old(state).pending
      ensures state == if start then Taken(old(state)) else old(state)
    {
      if !state.pending {
        return false;
      }
      state := state.(pending := false);
      state := state.(running := true);
      return true;
    }

    /** The tail of `serve`'s loop, after the run. */
    method Finish()
      modifies this
      ensures state == Finished(old(state))
    {
      state := state.(running := false);
    }
  }

  function Triggered(gate: GateState): GateState {
    gate.(pending := true)
  }

  function Closed(gate: GateState): GateState {
    gate.(closed := true)
  }

  function Taken(gate: GateState): GateState {
    gate.(pending := false, running := true)
  }

  function Finished(gate: GateState): GateState {
    gate.(running := false)
  }

  // ---- The system --------------------------------------------------------------------------

  /** An event; numbered in the order they are recorded. */
  type EventId = nat

  /** Where the worker thread is; a cycle first starts, then takes the recorded events. */
  datatype Worker =
    | Loading
    | Announced
    | Waiting
    | Started
    | Cycling(batch: set<EventId>)
    | Returned(code: nat)

  /** Where the main thread is. */
  datatype Main = Watching | Stopping | Joining

  /**
   * The shared state, the threads, and what happened so far. `recorded` is the shared event set,
   * `recorders` the callbacks that recorded and have yet to trigger; `issued`, `handled`,
   * `triggers` and `runs` are the history.
   */
  datatype System = System(
    gate: GateState,
    stopped: bool,
    recorded: set<EventId>,
    recorders: nat,
    worker: Worker,
    main: Main,
    issued: nat,
    handled: seq<set<EventId>>,
    triggers: nat,
    runs: nat)

  predicate Init(s: System) {
    s == System(GateState(false, false, false), false, {}, 0, Loading, Watching, 0, [], 0, 0)
  }

  function Ids(from: nat, count: nat): (r: set<EventId>)
    ensures forall e :: e in r <==> from <= e < from + count
  {
    if count == 0 then {} else Ids(from, count - 1) + {from + count - 1}
  }

  datatype Step =
    | Record(count: nat)
    | Trigger
    | LoadFails
    | Announce
    | AnnounceTrigger
    | Start
    | Take
    | Finish
    | Return
    | Stop
    | CloseGate

  /** Whether a step can happen. */
  predicate Enabled(s: System, step: Step) {
    match step
    // A callback records its events, unless the watch stopped or nothing is left after filtering.
    case Record(count) => !s.stopped && count > 0
    // It then triggers the gate, whatever happened in between.
    case Trigger => s.recorders > 0
    case LoadFails => s.worker.Loading?
    // The worker records every project, and triggers the first cycle.
    case Announce => s.worker.Loading?
    case AnnounceTrigger => s.worker.Announced?
    case Start => s.worker.Waiting? && s.gate.pending
    case Take => s.worker.Started?
    case Finish => s.worker.Cycling?
    case Return => s.worker.Waiting? && !s.gate.pending && s.gate.closed
    // The main thread stops the callbacks before it closes the gate.
    case Stop => s.main.Watching?
    case CloseGate => s.main.Stopping?
  }

  function Apply(s: System, step: Step): System
    requires Enabled(s, step)
  {
    match step
    case Record(count) =>
      s.(recorded := s.recorded + Ids(s.issued, count), issued := s.issued + count, recorders := s.recorders + 1)
    case Trigger => s.(gate := Triggered(s.gate), recorders := s.recorders - 1, triggers := s.triggers + 1)
    case LoadFails => s.(worker := Returned(1))
    case Announce => s.(recorded := s.recorded + Ids(s.issued, 1), issued := s.issued + 1, worker := Announced)
    case AnnounceTrigger => s.(gate := Triggered(s.gate), triggers := s.triggers + 1, worker := Waiting)
    case Start => s.(gate := Taken(s.gate), worker := Started, runs := s.runs + 1)
    case Take => s.(worker := Cycling(s.recorded), handled := s.handled + [s.recorded], recorded := {})
    case Finish => s.(gate := Finished(s.gate), worker := Waiting)
    case Return => s.(worker := Returned(0))
    case Stop => s.(stopped := true, main := Stopping)
    case CloseGate => s.(gate := Closed(s.gate), main := Joining)
  }

  /** A run: every state follows from the one before it by some step. */
  ghost predicate Run(states: seq<System>, steps: seq<Step>) {
    |states| == |steps| + 1 && Init(states[0]) && Continues(states, steps)
  }

  ghost predicate Continues(states: seq<System>, steps: seq<Step>) {
    |states| == |steps| + 1 &&
    forall i | 0 <= i < |steps| :: Enabled(states[i], steps[i]) && states[i + 1] == Apply(states[i], steps[i])
  }

  // ---- What every state keeps --------------------------------------------------------------

  /** Someone is bound to look at the recorded events: a trigger is set, or on its way. */
  predicate Expected(s: System) {
    s.gate.pending || s.recorders > 0 || s.worker.Announced? || s.worker.Started?
  }

  /** The batches handled so far. */
  function Handled(batches: seq<set<EventId>>): (r: set<EventId>)
    ensures forall e :: e in r <==> exists i | 0 <= i < |batches| :: e in batches[i]
  {
    if batches == [] then {}
    else
      assert batches == batches[..|batches| - 1] + [batches[|batches| - 1]];
      Handled(batches[..|batches| - 1]) + batches[|batches| - 1]
  }

  ghost predicate Disjoint(batches: seq<set<EventId>>) {
    forall i, j | 0 <= i < j < |batches| :: batches[i] !! batches[j]
  }

  /** Every event issued is recorded or in one batch. */
  ghost predicate Partitioned(recorded: set<EventId>, handled: seq<set<EventId>>, issued: nat) {
    recorded + Handled(handled) == Ids(0, issued) && recorded !! Handled(handled) && Disjoint(handled)
  }

  ghost predicate Invariant(s: System) {
    // No event is lost.
    (s.recorded != {} ==> Expected(s)) &&
    // Every event so far is recorded still or in one batch, and in no two.
    Partitioned(s.recorded, s.handled, s.issued) &&
    // One run at a time, each begun by a trigger of its own.
    s.gate.running == (s.worker.Started? || s.worker.Cycling?) &&
    s.runs + (if s.gate.pending then 1 else 0) <= s.triggers &&
    s.runs == |s.handled| + (if s.worker.Started? then 1 else 0) &&
    (s.worker.Cycling? ==> s.handled != [] && s.handled[|s.handled| - 1] == s.worker.batch) &&
    // Callbacks stop recording before the gate closes.
    (s.gate.closed <==> s.main.Joining?) && (s.stopped <==> !s.main.Watching?) &&
    (s.worker == Returned(0) ==> s.gate.closed)
  }

  lemma HandledOneMore(batches: seq<set<EventId>>, batch: set<EventId>)
    ensures Handled(batches + [batch]) == Handled(batches) + batch
  {
    assert (batches + [batch])[..|batches|] == batches;
  }

  lemma TakeKeeps(s: System)
    requires Invariant(s) && s.worker.Started?
    ensures Invariant(Apply(s, Take))
  {
    BatchTaken(s.recorded, s.handled, s.issued);
  }

  lemma BatchTaken(recorded: set<EventId>, handled: seq<set<EventId>>, issued: nat)
    requires Partitioned(recorded, handled, issued)
    ensures Partitioned({}, handled + [recorded], issued)
  {
    HandledOneMore(handled, recorded);
    forall i | 0 <= i < |handled| ensures handled[i] !! recorded {
      assert handled[i] <= Handled(handled);
    }
  }

  lemma RecordKeeps(s: System, count: nat)
    requires Invariant(s)
    ensures Partitioned(s.recorded + Ids(s.issued, count), s.handled, s.issued + count)
  {
  }

  lemma StepKeeps(s: System, step: Step)
    requires Invariant(s) && Enabled(s, step)
    ensures Invariant(Apply(s, step))
  {
    match step
    case Take => TakeKeeps(s);
    case Record(count) => RecordKeeps(s, count);
    case Announce => RecordKeeps(s, 1);
    case _ =>
  }

  /** In every run, whatever the interleaving, every state keeps the invariant. */
  lemma {:induction false} RunKeeps(states: seq<System>, steps: seq<Step>, n: nat)
    requires Run(states, steps) && n < |states|
    ensures Invariant(states[n])
  {
    if n > 0 {
      RunKeeps(states, steps, n - 1);
      StepKeeps(states[n - 1], steps[n - 1]);
    } else {
      assert Handled([]) == {};
    }
  }

  /** Nothing pending, nobody about to trigger, no cycle begun: every event was handled, once. */
  lemma QuietMeansHandled(states: seq<System>, steps: seq<Step>, n: nat)
    requires Run(states, steps) && n < |states| && !Expected(states[n])
    ensures states[n].recorded == {} && Handled(states[n].handled) == Ids(0, states[n].issued)
    ensures Disjoint(states[n].handled)
  {
    RunKeeps(states, steps, n);
  }

  /** `serve` returns only when closed with nothing pending; what is unhandled then is a late callback's. */
  lemma ReturnMeansClosed(states: seq<System>, steps: seq<Step>, n: nat)
    requires Run(states, steps) && n < |steps| && steps[n].Return?
    ensures states[n].gate.closed && !states[n].gate.pending && !states[n].gate.running && states[n].stopped
    ensures states[n].recorded != {} ==> states[n].recorders > 0
  {
    RunKeeps(states, steps, n);
  }

  /** The code says whether the projects could be loaded. */
  lemma {:induction false} CodeMeans(states: seq<System>, steps: seq<Step>, n: nat)
    requires Run(states, steps) && n < |states|
    ensures states[n].worker == Returned(1) <==> exists m | 0 <= m < n :: steps[m].LoadFails?
    ensures states[n].worker == Returned(0) <==> exists m | 0 <= m < n :: steps[m].Return?
    ensures states[n].worker.Returned? ==> states[n].worker.code <= 1
  {
    if n > 0 {
      CodeMeans(states, steps, n - 1);
    }
  }

  /** Runs never outnumber triggers, and one that is pending is still to come. */
  lemma RunsNeedTriggers(states: seq<System>, steps: seq<Step>, n: nat)
    requires Run(states, steps) && n < |states|
    ensures states[n].runs <= states[n].triggers && (states[n].gate.pending ==> states[n].runs < states[n].triggers)
  {
    RunKeeps(states, steps, n);
  }

  /** However many triggers came before, without another one at most one more run starts. */
  lemma {:induction false} TriggersCoalesce(states: seq<System>, steps: seq<Step>)
    requires Continues(states, steps) && forall step | step in steps :: !step.Trigger? && !step.AnnounceTrigger?
    ensures var last := states[|states| - 1];
            last.runs + (if last.gate.pending then 1 else 0) == states[0].runs + (if states[0].gate.pending then 1 else 0)
  {
    if steps != [] {
      var n := |steps| - 1;
      forall step | step in steps[..n] ensures !step.Trigger? && !step.AnnounceTrigger? {
        assert step in steps;
      }
      TriggersCoalesce(states[..n + 1], steps[..n]);
      assert steps[n] in steps;
    }
  }

  // ---- Every recorded event is handled while the worker serves --------------------------------

  predicate Own(step: Step) {
    step.Trigger? || step.AnnounceTrigger? || step.Start? || step.Take? || step.Finish?
  }

  /** The threads' next steps bring the gate to pending, and nothing recorded is taken before a cycle. */
  lemma ReachPending(s: System) returns (steps: seq<Step>, states: seq<System>)
    requires Invariant(s) && (s.worker.Announced? || s.worker.Waiting? || s.worker.Cycling?) && s.recorded != {}
    ensures Continues(states, steps) && states[0] == s && |steps| <= 1 && forall step | step in steps :: Own(step)
    ensures var last := states[|states| - 1];
            last.gate.pending && (last.worker.Waiting? || last.worker.Cycling?) &&
            last.recorded == s.recorded && last.handled == s.handled
  {
    steps, states := [], [s];
    if s.worker.Announced? {
      steps, states := Then(steps, states, AnnounceTrigger);
    } else if !s.gate.pending {
      steps, states := Then(steps, states, Trigger);
    }
  }

  /** And from there to the start of a cycle. */
  lemma ReachStart(s: System) returns (steps: seq<Step>, states: seq<System>)
    requires s.gate.pending && (s.worker.Waiting? || s.worker.Cycling?)
    ensures Continues(states, steps) && states[0] == s && |steps| <= 2 && forall step | step in steps :: Own(step)
    ensures var last := states[|states| - 1];
            last.worker.Started? && last.recorded == s.recorded && last.handled == s.handled
  {
    steps, states := [], [s];
    if s.worker.Cycling? {
      steps, states := Then(steps, states, Finish);
    }
    steps, states := Then(steps, states, Start);
  }

  lemma Join(steps: seq<Step>, states: seq<System>, moreSteps: seq<Step>, moreStates: seq<System>)
    requires Continues(states, steps) && Continues(moreStates, moreSteps) && moreStates[0] == states[|states| - 1]
    ensures Continues(states + moreStates[1..], steps + moreSteps)
    ensures (states + moreStates[1..])[|states| + |moreStates| - 2] == moreStates[|moreStates| - 1]
  {
    var allSteps, all := steps + moreSteps, states + moreStates[1..];
    forall i | 0 <= i < |allSteps| ensures Enabled(all[i], allSteps[i]) && all[i + 1] == Apply(all[i], allSteps[i]) {
      if i >= |steps| {
        assert all[i] == moreStates[i - |steps|] && all[i + 1] == moreStates[i + 1 - |steps|];
      }
    }
  }

  /**
   * From any reachable state whose worker still serves, the threads' own next steps bring every
   * recorded event into a batch.
   */
  lemma EventsReachACycle(s: System) returns (steps: seq<Step>, states: seq<System>)
    requires Invariant(s) && !s.worker.Returned? && !s.worker.Loading? && s.recorded != {}
    ensures Continues(states, steps) && states[0] == s && |steps| <= 4 && forall step | step in steps :: Own(step)
    ensures var last := states[|states| - 1]; last.recorded == {} && last.worker == Cycling(s.recorded)
  {
    steps, states := [], [s];
    if !s.worker.Started? {
      steps, states := ReachPending(s);
      var more, moreStates := ReachStart(states[|states| - 1]);
      Join(steps, states, more, moreStates);
      steps, states := steps + more, states + moreStates[1..];
    }
    steps, states := Then(steps, states, Take);
  }

  lemma Then(steps: seq<Step>, states: seq<System>, step: Step) returns (steps': seq<Step>, states': seq<System>)
    requires Continues(states, steps) && Enabled(states[|states| - 1], step)
    ensures Continues(states', steps') && steps' == steps + [step]
    ensures states' == states + [Apply(states[|states| - 1], step)]
  {
    steps', states' := steps + [step], states + [Apply(states[|states| - 1], step)];
  }

  /** Events recorded since a state stay recorded until a cycle takes all of them. */
  lemma EventKept(s: System, step: Step, event: EventId)
    requires Invariant(s) && Enabled(s, step) && event < s.issued
    ensures var t := Apply(s, step);
            (event in s.recorded && !step.Take? ==> event in t.recorded) &&
            (event in s.recorded && step.Take? ==> t.worker == Cycling(s.recorded) && event in t.worker.batch) &&
            (event in Handled(s.handled) ==> event in Handled(t.handled) && event !in t.recorded)
  {
    StepKeeps(s, step);
    if step.Take? {
      HandledOneMore(s.handled, s.recorded);
    }
  }
}
