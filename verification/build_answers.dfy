/**
 * Which code the server of the build API answers a request with, told from what happened in the run:
 * the requests before it, how its build ended, and what ended the session.
 */
module BuildAnswers {

  import opened Common
  import opened BuildServer

  // ---- What happened -----------------------------------------------------------------------

  predicate Unwritten(step: Step) {
    step == Reply(false) || (step.Respond? && !step.written)
  }

  ghost predicate WriteFailed(steps: seq<Step>, k: nat)
    requires k <= |steps|
  {
    exists i | 0 <= i < k :: Unwritten(steps[i])
  }

  /** What ends a session in an error: a message that is none, an answer nobody waits for, a failed write found out. */
  ghost predicate FailsAt(states: seq<Server>, steps: seq<Step>, j: nat)
    requires j < |steps| < |states|
  {
    steps[j] == Read(Malformed) ||
    (steps[j].Read? && steps[j].message.Answer? && steps[j].message.callback !in states[j].callbacks) ||
    (steps[j].Check? && WriteFailed(steps, j))
  }

  ghost predicate EndedByError(states: seq<Server>, steps: seq<Step>, k: nat)
    requires k <= |steps| < |states|
  {
    exists j | 0 <= j < k :: FailsAt(states, steps, j)
  }

  predicate IsActive(s: Server, n: nat) {
    s.active.Some? && s.active.value.n == n
  }

  /** A build was active when request `n` was read. */
  predicate BusyAt(s: Server, step: Step, n: nat) {
    step.Read? && step.message.Ask? && |s.requests| == n && s.active.Some?
  }

  ghost predicate BusyWhenRead(states: seq<Server>, steps: seq<Step>, k: nat, n: nat)
    requires k <= |steps| < |states|
  {
    exists j | 0 <= j < k :: BusyAt(states[j], steps[j], n)
  }

  predicate UnspawnedAt(s: Server, step: Step, n: nat) {
    step.SpawnFails? && s.reader == Counted(n)
  }

  /** No thread could be started for build `n`. */
  ghost predicate Unspawned(states: seq<Server>, steps: seq<Step>, k: nat, n: nat)
    requires k <= |steps| < |states|
  {
    exists j | 0 <= j < k :: UnspawnedAt(states[j], steps[j], n)
  }

  /** The build function returned this for build `n`. */
  ghost predicate FinishedAs(steps: seq<Step>, k: nat, n: nat, outcome: Outcome)
    requires k <= |steps|
  {
    exists j | 0 <= j < k :: steps[j] == Finish(n, outcome)
  }

  /** The session ended in an error while build `n` was active. */
  ghost predicate StoppedByError(states: seq<Server>, steps: seq<Step>, k: nat, n: nat)
    requires k <= |steps| < |states|
  {
    exists j | 0 <= j < k :: steps[j].StopBuild? && EndedByError(states, steps, j) && IsActive(states[j], n)
  }

  predicate TellsToStop(s: Server, step: Step, n: nat) {
    (step.StopBuild? || (step.Read? && step.message.Ask? && step.message.request.kind.Shutdown?)) && IsActive(s, n)
  }

  /** A shutdown was read or the session ended while build `n` was active. */
  ghost predicate ToldToStop(states: seq<Server>, steps: seq<Step>, k: nat, n: nat)
    requires k <= |steps| < |states|
  {
    exists j | 0 <= j < k :: TellsToStop(states[j], steps[j], n)
  }

  /** One of the first `n` requests initialized the session. */
  ghost predicate InitializedBy(requests: seq<Request>, n: nat)
    requires n <= |requests|
  {
    exists m | 0 <= m < n :: requests[m].kind == Initialize && requests[m].refusal == None
  }

  predicate RefusedAs(refusal: Option<Refusal>, code: Code) {
    (refusal == Some(BadParams) && code == InvalidRequest) ||
    (refusal == Some(WrongProtocol) && code == ProtocolMismatch) ||
    (refusal == Some(WrongVersion) && code == VersionMismatch)
  }

  /** What becomes of request `n`, as far as its answer depends on it. */
  datatype Past = Past(busy: bool, unspawned: bool, succeeded: bool, failed: bool, cancelled: bool, stopped: bool, told: bool)

  const NOTHING := Past(false, false, false, false, false, false, false)

  /** The code that answers request `n`. */
  ghost predicate Right(requests: seq<Request>, n: nat, past: Past, code: Code)
    requires n < |requests|
  {
    var request := requests[n];
    match request.kind
    case Unknown => code == MethodNotFound
    case Shutdown => code == Result
    case Initialize =>
      if InitializedBy(requests, n) then code == AlreadyInitialized
      else if request.refusal == None then code == Result
      else RefusedAs(request.refusal, code)
    case Build =>
      if !InitializedBy(requests, n) then code == NotInitialized
      else if request.refusal != None then RefusedAs(request.refusal, code)
      else if past.busy then code == BuildInProgress
      else if past.unspawned then code == BuildFailed
      else
        (past.succeeded || past.failed || past.cancelled) &&
        (past.succeeded ==> code == Result) &&
        (past.failed ==> code == BuildFailed) &&
        (past.cancelled ==> code == if past.stopped then BuildFailed else BuildCancelled)
  }

  ghost function PastOf(states: seq<Server>, steps: seq<Step>, k: nat, n: nat): Past
    requires k <= |steps| < |states|
  {
    Past(BusyWhenRead(states, steps, k, n), Unspawned(states, steps, k, n),
         FinishedAs(steps, k, n, Succeeded), FinishedAs(steps, k, n, Failed), FinishedAs(steps, k, n, Cancelled),
         StoppedByError(states, steps, k, n), ToldToStop(states, steps, k, n))
  }

  // ---- What every state keeps --------------------------------------------------------------

  /** A step, and what it makes of a request's past. */
  function Next(s: Server, step: Step, n: nat, past: Past): Past {
    Past(past.busy || BusyAt(s, step, n), past.unspawned || UnspawnedAt(s, step, n),
         past.succeeded || step == Finish(n, Succeeded), past.failed || step == Finish(n, Failed),
         past.cancelled || step == Finish(n, Cancelled),
         past.stopped || (step.StopBuild? && s.reader == Ending(true) && IsActive(s, n)),
         past.told || TellsToStop(s, step, n))
  }

  /** A build that is to run: it came initialized, in order, and with no other active. */
  ghost predicate Admitted(requests: seq<Request>, n: nat, past: Past) {
    n < |requests| && requests[n].kind.Build? && requests[n].refusal.None? && InitializedBy(requests, n) && !past.busy
  }

  predicate Unfinished(past: Past) {
    !past.succeeded && !past.failed && !past.cancelled
  }

  /** The build returned just this. */
  predicate Returned(past: Past, outcome: Outcome) {
    past.succeeded == outcome.Succeeded? && past.failed == outcome.Failed? && past.cancelled == outcome.Cancelled?
  }

  ghost predicate ThreadFits(requests: seq<Request>, thread: Thread, n: nat, past: Past) {
    Admitted(requests, n, past) && !past.unspawned &&
    thread.cancelled == past.told && thread.caused == past.stopped &&
    match thread.phase
    case Building => Unfinished(past)
    case Built(outcome) => Returned(past, outcome)
    case Cleared(outcome) => Returned(past, outcome)
    case Responded => true
  }

  ghost predicate ReaderFits(requests: seq<Request>, reader: Reader, pasts: nat -> Past) {
    match reader
    case Replying(n, code) => n < |requests| && Right(requests, n, pasts(n), code)
    case Accepted(n) => Begins(requests, n, pasts(n))
    case Counted(n) => Begins(requests, n, pasts(n))
    case Uncounting(n) => Admitted(requests, n, pasts(n)) && Unfinished(pasts(n)) && pasts(n).unspawned
    case _ => true
  }

  /** A build without a thread yet. */
  ghost predicate Begins(requests: seq<Request>, n: nat, past: Past) {
    Admitted(requests, n, past) && !past.unspawned && Unfinished(past) && !past.stopped && !past.told
  }

  ghost predicate AnswersFit(requests: seq<Request>, responses: seq<Response>, pasts: nat -> Past) {
    forall i | 0 <= i < |responses| ::
      responses[i].request < |requests| && Right(requests, responses[i].request, pasts(responses[i].request), responses[i].code)
  }

  ghost predicate Judged(s: Server, pasts: nat -> Past) {
    (s.initialized <==> InitializedBy(s.requests, |s.requests|)) &&
    ReaderFits(s.requests, s.reader, pasts) &&
    (forall n | n in s.threads :: ThreadFits(s.requests, s.threads[n], n, pasts(n))) &&
    AnswersFit(s.requests, s.responses, pasts) &&
    (forall n: nat | n >= |s.requests| :: pasts(n) == NOTHING) &&
    (forall n: nat | n < |s.requests| && !Unfinished(pasts(n)) :: Admitted(s.requests, n, pasts(n)) && !pasts(n).unspawned)
  }

  function Nexts(s: Server, step: Step, pasts: nat -> Past): nat -> Past {
    (n: nat) => Next(s, step, n, pasts(n))
  }

  // ---- Every step keeps it -----------------------------------------------------------------

  lemma InitializedMore(requests: seq<Request>, request: Request, n: nat)
    requires n <= |requests|
    ensures InitializedBy(requests + [request], n) <==> InitializedBy(requests, n)
    ensures InitializedBy(requests + [request], |requests| + 1) <==>
            InitializedBy(requests, |requests|) || (request.kind == Initialize && request.refusal == None)
  {
    var more := requests + [request];
    if m :| 0 <= m < n && requests[m].kind == Initialize && requests[m].refusal == None {
      assert more[m] == requests[m];
    }
    if InitializedBy(requests, |requests|) {
      var m :| 0 <= m < |requests| && requests[m].kind == Initialize && requests[m].refusal == None;
      assert more[m] == requests[m];
    }
    assert more[|requests|] == request;
  }

  lemma AnswersLonger(requests: seq<Request>, request: Request, responses: seq<Response>, pasts: nat -> Past)
    requires AnswersFit(requests, responses, pasts)
    ensures AnswersFit(requests + [request], responses, pasts)
  {
    forall i | 0 <= i < |responses| ensures Right(requests + [request], responses[i].request, pasts(responses[i].request), responses[i].code) {
      InitializedMore(requests, request, responses[i].request);
    }
  }

  /** What the arrival of a request leaves of the rest. */
  lemma Arrived(s: Server, request: Request, pasts: nat -> Past)
    requires Judged(s, pasts)
    ensures var more := s.requests + [request];
            AnswersFit(more, s.responses, pasts) &&
            (forall n | n in s.threads :: ThreadFits(more, s.threads[n], n, pasts(n))) &&
            forall n: nat | n < |s.requests| && !Unfinished(pasts(n)) :: Admitted(more, n, pasts(n)) && !pasts(n).unspawned
  {
    AnswersLonger(s.requests, request, s.responses, pasts);
    forall n: nat | n < |s.requests| && Admitted(s.requests, n, pasts(n)) ensures Admitted(s.requests + [request], n, pasts(n)) {
      InitializedMore(s.requests, request, n);
    }
  }

  /** Of the server's invariant: which requests are in whose hands, and that those are unanswered. */
  ghost predicate Handled(s: Server) {
    (InHand(s.reader).Some? ==> InHand(s.reader).value < |s.requests| && InHand(s.reader).value !in s.threads) &&
    (forall n | n in s.threads :: n < |s.requests|) &&
    (forall i | 0 <= i < |s.responses| ::
       s.responses[i].request < |s.requests| && !Owed(InHand(s.reader), s.threads, s.responses[i].request)) &&
    OneBuild(s.requests, Starting(s.reader), s.active, s.threads)
  }

  lemma InvariantHandles(s: Server)
    requires Invariant(s)
    ensures Handled(s)
  {
    forall i | 0 <= i < |s.responses|
      ensures s.responses[i].request < |s.requests| && !Owed(InHand(s.reader), s.threads, s.responses[i].request)
    {
      assert IsTo(s.requests, s.responses[i]);
    }
  }

  /** How a request that is refused, or is no build, is answered. */
  lemma RefusedRightly(s: Server, request: Request, past: Past)
    requires s.initialized <==> InitializedBy(s.requests, |s.requests|)
    requires past.busy == s.active.Some?
    ensures var more := s.requests + [request];
            (Refused(s, request).Some? ==> Right(more, |s.requests|, past, Refused(s, request).value)) &&
            (Refused(s, request).None? && request.kind.Initialize? ==> Right(more, |s.requests|, past, Result)) &&
            (Refused(s, request).None? && request.kind.Build? ==> Admitted(more, |s.requests|, past))
  {
    InitializedMore(s.requests, request, |s.requests|);
  }

  /** What is already there is judged as before, a request that comes in aside. */
  ghost predicate RestJudged(t: Server, pasts: nat -> Past) {
    (forall n | n in t.threads :: ThreadFits(t.requests, t.threads[n], n, pasts(n))) &&
    AnswersFit(t.requests, t.responses, pasts) &&
    (forall n: nat | n >= |t.requests| :: pasts(n) == NOTHING) &&
    (forall n: nat | n < |t.requests| && !Unfinished(pasts(n)) :: Admitted(t.requests, n, pasts(n)) && !pasts(n).unspawned)
  }

  /** A shutdown tells the active build to stop; otherwise a request leaves the threads alone. */
  lemma ReceivedThreads(s: Server, request: Request)
    ensures var t := Received(s, request);
            t.requests == s.requests + [request] && t.responses == s.responses && t.threads.Keys == s.threads.Keys &&
            forall n | n in s.threads ::
              t.threads[n] == s.threads[n].(cancelled := s.threads[n].cancelled || (request.kind.Shutdown? && IsActive(s, n)))
  {
  }

  lemma ThreadsAfterAsk(s: Server, request: Request, pasts: nat -> Past, n: nat)
    requires n in s.threads && ThreadFits(s.requests + [request], s.threads[n], n, pasts(n)) && n < |s.requests|
    ensures var t := Received(s, request);
            n in t.threads && ThreadFits(t.requests, t.threads[n], n, Nexts(s, Read(Ask(request)), pasts)(n))
  {
    ReceivedThreads(s, request);
    hide Received, ThreadFits;
    var past := pasts(n);
    var told := request.kind.Shutdown? && IsActive(s, n);
    assert Nexts(s, Read(Ask(request)), pasts)(n) == past.(told := past.told || told);
    ToldFits(s.requests + [request], s.threads[n], n, past, told);
  }

  /** Only the request that came in, and at a shutdown the active build, have a new past. */
  lemma AskRest(s: Server, request: Request, pasts: nat -> Past)
    requires Handled(s) && Judged(s, pasts) && s.reader.Reading?
    ensures RestJudged(Received(s, request), Nexts(s, Read(Ask(request)), pasts))
  {
    Arrived(s, request, pasts);
    AnswersAfterAsk(s, request, pasts);
    ReceivedThreads(s, request);
    hide InitializedBy, Right, Admitted, Received, AnswersFit, ThreadFits;
    var more := s.requests + [request];
    var t, nexts := Received(s, request), Nexts(s, Read(Ask(request)), pasts);
    forall n | n in t.threads ensures ThreadFits(t.requests, t.threads[n], n, nexts(n)) {
      ThreadsAfterAsk(s, request, pasts, n);
    }
    forall n: nat | n < |more| && !Unfinished(nexts(n)) ensures Admitted(more, n, nexts(n)) && !nexts(n).unspawned {
      assert pasts(|s.requests|) == NOTHING;
      AdmittedStays(more, n, pasts(n), nexts(n));
    }
  }

  lemma AnswersAfterAsk(s: Server, request: Request, pasts: nat -> Past)
    requires Handled(s) && s.reader.Reading? && AnswersFit(s.requests + [request], s.responses, pasts)
    ensures AnswersFit(s.requests + [request], s.responses, Nexts(s, Read(Ask(request)), pasts))
  {
    hide AnswersFit;
    var nexts := Nexts(s, Read(Ask(request)), pasts);
    forall i | 0 <= i < |s.responses| ensures nexts(s.responses[i].request) == pasts(s.responses[i].request) {
      assert !IsActive(s, s.responses[i].request);
    }
    AnswersStay(s.requests + [request], s.responses, pasts, nexts);
  }

  lemma ToldFits(requests: seq<Request>, thread: Thread, n: nat, past: Past, told: bool)
    requires ThreadFits(requests, thread, n, past)
    ensures ThreadFits(requests, thread.(cancelled := thread.cancelled || told), n, past.(told := past.told || told))
  {
  }

  lemma AdmittedStays(requests: seq<Request>, n: nat, past: Past, next: Past)
    requires Admitted(requests, n, past) && next.busy == past.busy
    ensures Admitted(requests, n, next)
  {
  }

  lemma AnswersStay(requests: seq<Request>, responses: seq<Response>, pasts: nat -> Past, nexts: nat -> Past)
    requires AnswersFit(requests, responses, pasts)
    requires forall i | 0 <= i < |responses| :: nexts(responses[i].request) == pasts(responses[i].request)
    ensures AnswersFit(requests, responses, nexts)
  {
  }

  lemma AskJudges(s: Server, request: Request, pasts: nat -> Past)
    requires Handled(s) && WellFormed(s) && Judged(s, pasts) && s.reader.Reading?
    ensures Judged(Apply(s, Read(Ask(request))), Nexts(s, Read(Ask(request)), pasts))
  {
    var step, n := Read(Ask(request)), |s.requests|;
    var nexts := Nexts(s, step, pasts);
    AskRest(s, request, pasts);
    RefusedRightly(s, request, nexts(n));
    InitializedMore(s.requests, request, n);
    hide InitializedBy, Right, RestJudged;
    assert pasts(n) == NOTHING;
    AskReader(s, request, nexts);
  }

  lemma AskReader(s: Server, request: Request, nexts: nat -> Past)
    requires s.reader.Reading? && WellFormed(s)
    requires var more, n := s.requests + [request], |s.requests|;
             (s.initialized <==> InitializedBy(s.requests, n)) &&
             (InitializedBy(more, n + 1) <==> InitializedBy(s.requests, n) || (request.kind == Initialize && request.refusal == None)) &&
             (Refused(s, request).Some? ==> Right(more, n, nexts(n), Refused(s, request).value)) &&
             (Refused(s, request).None? && request.kind.Initialize? ==> Right(more, n, nexts(n), Result)) &&
             (Refused(s, request).None? && request.kind.Build? ==> Admitted(more, n, nexts(n))) &&
             !nexts(n).unspawned && Unfinished(nexts(n)) && !nexts(n).stopped && !nexts(n).told
    ensures var t := Received(s, request);
            (t.initialized <==> InitializedBy(t.requests, |t.requests|)) && ReaderFits(t.requests, t.reader, nexts)
  {
    hide InitializedBy, Right, Admitted;
  }

  predicate Quiet(step: Step) {
    step.Count? || step.Check? || step.BuildsDone? || step.Drained? || step.StartCall? || step.Register? || step.GiveUp? ||
    step.Uncount? || (step.Read? && !step.message.Ask?)
  }

  /** A step that changes nobody's past, and neither the requests nor the threads nor the answers. */
  lemma QuietJudges(s: Server, step: Step, pasts: nat -> Past)
    requires Handled(s) && WellFormed(s) && Judged(s, pasts) && Enabled(s, step) && Quiet(step)
    ensures Judged(Apply(s, step), Nexts(s, step, pasts))
  {
    hide InitializedBy, Admitted, Handled, AnswersFit, ThreadFits;
    var nexts := Nexts(s, step, pasts);
    forall n: nat ensures nexts(n) == pasts(n) {
    }
    SamePasts(s, pasts, nexts);
    hide Judged;
    QuietReader(s, step, nexts);
  }

  lemma SamePasts(s: Server, pasts: nat -> Past, nexts: nat -> Past)
    requires Judged(s, pasts) && forall n: nat :: nexts(n) == pasts(n)
    ensures Judged(s, nexts)
  {
    hide InitializedBy, Admitted, Right;
  }

  lemma QuietReader(s: Server, step: Step, pasts: nat -> Past)
    requires WellFormed(s) && Judged(s, pasts) && Enabled(s, step) && Quiet(step)
    ensures Judged(Apply(s, step), pasts)
  {
    hide InitializedBy, AnswersFit, ThreadFits, Right, Admitted, Unfinished;
    if step.Uncount? {
      UnspawnedRightly(s.requests, s.reader.n, pasts(s.reader.n));
    }
  }

  lemma UnspawnedRightly(requests: seq<Request>, n: nat, past: Past)
    requires Admitted(requests, n, past) && past.unspawned
    ensures Right(requests, n, past, BuildFailed)
  {
  }

  /** No answered request has a new past. */
  ghost predicate AnsweredStay(responses: seq<Response>, pasts: nat -> Past, nexts: nat -> Past) {
    forall i | 0 <= i < |responses| :: nexts(responses[i].request) == pasts(responses[i].request)
  }

  /**
   * A step that takes no request: what is left to show is that the reader and the threads are judged,
   * and that no request that is answered, or not read yet, has a new past.
   */
  lemma StepJudged(s: Server, t: Server, pasts: nat -> Past, nexts: nat -> Past)
    requires Judged(s, pasts) && t.requests == s.requests && t.initialized == s.initialized && t.responses == s.responses
    requires AnsweredStay(s.responses, pasts, nexts)
    requires ReaderFits(t.requests, t.reader, nexts)
    requires forall n | n in t.threads :: ThreadFits(t.requests, t.threads[n], n, nexts(n))
    requires forall n: nat | n >= |s.requests| :: nexts(n) == pasts(n)
    requires forall n: nat | n < |s.requests| && !Unfinished(nexts(n)) :: Admitted(s.requests, n, nexts(n)) && !nexts(n).unspawned
    ensures Judged(t, nexts)
  {
    hide InitializedBy, Right, Admitted, ThreadFits;
    AnswersStay(s.requests, s.responses, pasts, nexts);
  }

  lemma OneMoreAnswer(requests: seq<Request>, responses: seq<Response>, response: Response, pasts: nat -> Past)
    requires AnswersFit(requests, responses, pasts)
    requires response.request < |requests| && Right(requests, response.request, pasts(response.request), response.code)
    ensures AnswersFit(requests, responses + [response], pasts)
  {
    hide Right;
  }

  lemma ReplyJudges(s: Server, written: bool, pasts: nat -> Past)
    requires Invariant(s) && WellFormed(s) && Judged(s, pasts) && Enabled(s, Reply(written))
    ensures Judged(Apply(s, Reply(written)), Nexts(s, Reply(written), pasts))
  {
    var nexts := Nexts(s, Reply(written), pasts);
    var n := s.reader.n;
    var code := if s.reader.Replying? then s.reader.code else Result;
    assert Right(s.requests, n, pasts(n), code);
    hide Invariant, InitializedBy, Right, Admitted, ThreadFits, AnswersFit;
    OneMoreAnswer(s.requests, s.responses, Response(n, s.requests[n].id, code), pasts);
    assert Judged(Apply(s, Reply(written)), pasts);
    SamePasts(Apply(s, Reply(written)), pasts, nexts);
  }

  lemma SpawnJudges(s: Server, pasts: nat -> Past)
    requires Handled(s) && WellFormed(s) && Judged(s, pasts) && Enabled(s, Spawn)
    ensures Judged(Apply(s, Spawn), Nexts(s, Spawn, pasts))
  {
    hide Handled, InitializedBy, Right, Admitted, AnswersFit;
    var nexts := Nexts(s, Spawn, pasts);
    assert ThreadFits(s.requests, Thread(s.requests[s.reader.n].id, Building, false, false), s.reader.n, pasts(s.reader.n));
    hide ThreadFits;
    assert Judged(Apply(s, Spawn), pasts);
    SamePasts(Apply(s, Spawn), pasts, nexts);
  }

  lemma SpawnFailsJudges(s: Server, pasts: nat -> Past)
    requires Handled(s) && WellFormed(s) && Judged(s, pasts) && Enabled(s, SpawnFails)
    ensures Judged(Apply(s, SpawnFails), Nexts(s, SpawnFails, pasts))
  {
    hide InitializedBy, Right, AnswersFit, ThreadFits;
    var n, nexts := s.reader.n, Nexts(s, SpawnFails, pasts);
    forall m: nat | m != n ensures nexts(m) == pasts(m) {
    }
    assert nexts(n) == pasts(n).(unspawned := true);
    StepJudged(s, Apply(s, SpawnFails), pasts, nexts);
  }

  lemma FinishJudges(s: Server, n: nat, outcome: Outcome, pasts: nat -> Past)
    requires Handled(s) && WellFormed(s) && Judged(s, pasts) && Enabled(s, Finish(n, outcome))
    ensures Judged(Apply(s, Finish(n, outcome)), Nexts(s, Finish(n, outcome), pasts))
  {
    var step := Finish(n, outcome);
    var t, nexts := Apply(s, step), Nexts(s, step, pasts);
    FinishFits(s.requests, s.threads[n], n, pasts(n), nexts(n), outcome);
    hide InitializedBy, Right, AnswersFit, ThreadFits, OneBuild;
    forall m: nat | m != n ensures nexts(m) == pasts(m) {
    }
    ReaderStays(s.requests, s.reader, n, pasts, nexts);
    StepJudged(s, t, pasts, nexts);
  }

  lemma FinishFits(requests: seq<Request>, thread: Thread, n: nat, past: Past, next: Past, outcome: Outcome)
    requires ThreadFits(requests, thread, n, past) && thread.phase.Building?
    requires next == past.(succeeded := past.succeeded || outcome.Succeeded?, failed := past.failed || outcome.Failed?,
                           cancelled := past.cancelled || outcome.Cancelled?)
    ensures ThreadFits(requests, thread.(phase := Built(outcome)), n, next)
    ensures Admitted(requests, n, next) && !next.unspawned
  {
    hide InitializedBy;
  }

  /** What happens to a request the reader does not have leaves the reader's. */
  lemma ReaderStays(requests: seq<Request>, reader: Reader, n: nat, pasts: nat -> Past, nexts: nat -> Past)
    requires ReaderFits(requests, reader, pasts) && InHand(reader) != Some(n)
    requires forall m: nat | m != n :: nexts(m) == pasts(m)
    ensures ReaderFits(requests, reader, nexts)
  {
    hide InitializedBy, Right, Admitted;
  }

  lemma StopBuildJudges(s: Server, pasts: nat -> Past)
    requires Handled(s) && WellFormed(s) && Judged(s, pasts) && Enabled(s, StopBuild)
    ensures Judged(Apply(s, StopBuild), Nexts(s, StopBuild, pasts))
  {
    hide InitializedBy, Right, AnswersFit, Admitted;
    var t, nexts := Apply(s, StopBuild), Nexts(s, StopBuild, pasts);
    forall n: nat | !IsActive(s, n) ensures nexts(n) == pasts(n) {
    }
    forall n | n in t.threads ensures ThreadFits(t.requests, t.threads[n], n, nexts(n)) {
      StopFits(s.requests, s.threads[n], n, pasts(n), IsActive(s, n), s.reader.failed);
    }
    forall n: nat | n < |s.requests| && !Unfinished(nexts(n)) ensures Admitted(s.requests, n, nexts(n)) && !nexts(n).unspawned {
      AdmittedStays(s.requests, n, pasts(n), nexts(n));
    }
    hide ThreadFits;
    StepJudged(s, t, pasts, nexts);
  }

  lemma StopFits(requests: seq<Request>, thread: Thread, n: nat, past: Past, active: bool, failed: bool)
    requires ThreadFits(requests, thread, n, past)
    ensures ThreadFits(requests, if active then thread.(cancelled := true, caused := thread.caused || failed) else thread, n,
                       past.(stopped := past.stopped || (active && failed), told := past.told || active))
  {
    hide InitializedBy;
  }

  lemma ClearJudges(s: Server, n: nat, pasts: nat -> Past)
    requires Handled(s) && WellFormed(s) && Judged(s, pasts) && Enabled(s, Clear(n))
    ensures Judged(Apply(s, Clear(n)), Nexts(s, Clear(n), pasts))
  {
    hide Handled, InitializedBy, Right, Admitted, AnswersFit;
    var t := Apply(s, Clear(n));
    assert ThreadFits(s.requests, t.threads[n], n, pasts(n)) by {
      assert ThreadFits(s.requests, s.threads[n], n, pasts(n));
    }
    hide ThreadFits;
    assert Judged(t, pasts);
    SamePasts(t, pasts, Nexts(s, Clear(n), pasts));
  }

  /** A build that returned is answered rightly. */
  lemma BuildCodeIsRight(requests: seq<Request>, thread: Thread, n: nat, past: Past)
    requires ThreadFits(requests, thread, n, past) && thread.phase.Cleared?
    ensures Right(requests, n, past, BuildCode(thread, thread.phase.outcome))
    ensures ThreadFits(requests, thread.(phase := Responded), n, past)
  {
    hide InitializedBy;
  }

  lemma RespondJudges(s: Server, n: nat, written: bool, pasts: nat -> Past)
    requires Handled(s) && WellFormed(s) && Judged(s, pasts) && Enabled(s, Respond(n, written))
    ensures Judged(Apply(s, Respond(n, written)), Nexts(s, Respond(n, written), pasts))
  {
    hide Handled, InitializedBy, Right, Admitted, AnswersFit, ThreadFits;
    var thread := s.threads[n];
    var t := Apply(s, Respond(n, written));
    BuildCodeIsRight(s.requests, thread, n, pasts(n));
    OneMoreAnswer(s.requests, s.responses, Response(n, s.requests[n].id, BuildCode(thread, thread.phase.outcome)), pasts);
    assert Judged(t, pasts);
    SamePasts(t, pasts, Nexts(s, Respond(n, written), pasts));
  }

  lemma LeaveJudges(s: Server, n: nat, pasts: nat -> Past)
    requires WellFormed(s) && Judged(s, pasts) && Enabled(s, Leave(n))
    ensures Judged(Apply(s, Leave(n)), Nexts(s, Leave(n), pasts))
  {
    hide InitializedBy, Right, Admitted, AnswersFit, ThreadFits;
    assert Judged(Apply(s, Leave(n)), pasts);
    SamePasts(Apply(s, Leave(n)), pasts, Nexts(s, Leave(n), pasts));
  }

  lemma StepJudges(s: Server, step: Step, pasts: nat -> Past)
    requires Invariant(s) && WellFormed(s) && Enabled(s, step) && Judged(s, pasts)
    ensures Judged(Apply(s, step), Nexts(s, step, pasts))
  {
    InvariantHandles(s);
    hide Invariant, WellFormed, Handled, Judged, Enabled;
    match step
    case Read(Ask(request)) => AskJudges(s, request, pasts);
    case Reply(written) => ReplyJudges(s, written, pasts);
    case Spawn => SpawnJudges(s, pasts);
    case SpawnFails => SpawnFailsJudges(s, pasts);
    case StopBuild => StopBuildJudges(s, pasts);
    case Finish(n, outcome) => FinishJudges(s, n, outcome, pasts);
    case Clear(n) => ClearJudges(s, n, pasts);
    case Respond(n, written) => RespondJudges(s, n, written, pasts);
    case Leave(n) => LeaveJudges(s, n, pasts);
    case _ => QuietJudges(s, step, pasts);
  }

  // ---- Whole runs --------------------------------------------------------------------------

  ghost predicate FailuresShow(s: Server, writeFailed: bool, ended: bool) {
    (s.writeError <==> writeFailed) && (ended ==> Over(s.reader)) && (s.reader.Ending? ==> (s.reader.failed <==> ended))
  }

  lemma FailuresNext(states: seq<Server>, steps: seq<Step>, k: nat)
    requires k < |steps| < |states|
    ensures WriteFailed(steps, k + 1) <==> WriteFailed(steps, k) || Unwritten(steps[k])
    ensures EndedByError(states, steps, k + 1) <==> EndedByError(states, steps, k) || FailsAt(states, steps, k)
  {
  }

  lemma FailureShows(s: Server, step: Step, failed: bool, ended: bool, fails: bool)
    requires WellFormed(s) && Enabled(s, step) && FailuresShow(s, failed, ended)
    requires fails <==> step == Read(Malformed) ||
                        (step.Read? && step.message.Answer? && step.message.callback !in s.callbacks) || (step.Check? && failed)
    ensures FailuresShow(Apply(s, step), failed || Unwritten(step), ended || fails)
  {
  }

  /** Reader and error flag show whether a write failed and whether the session ended in an error. */
  lemma {:induction false} RunShowsFailures(states: seq<Server>, steps: seq<Step>, k: nat)
    requires Run(states, steps) && k < |states|
    ensures FailuresShow(states[k], WriteFailed(steps, k), EndedByError(states, steps, k))
  {
    if k > 0 {
      RunShowsFailures(states, steps, k - 1);
      FailuresNext(states, steps, k - 1);
      FailureShows(states[k - 1], steps[k - 1], WriteFailed(steps, k - 1), EndedByError(states, steps, k - 1),
                   FailsAt(states, steps, k - 1));
    }
  }

  lemma FinishedNext(steps: seq<Step>, k: nat, n: nat, outcome: Outcome)
    requires k < |steps|
    ensures FinishedAs(steps, k + 1, n, outcome) <==> FinishedAs(steps, k, n, outcome) || steps[k] == Finish(n, outcome)
  {
  }

  lemma PastNext(states: seq<Server>, steps: seq<Step>, k: nat, n: nat)
    requires Run(states, steps) && k < |steps|
    ensures PastOf(states, steps, k + 1, n) == Next(states[k], steps[k], n, PastOf(states, steps, k, n))
  {
    hide FinishedAs, EndedByError, WriteFailed;
    RunShowsFailures(states, steps, k);
    FinishedNext(steps, k, n, Succeeded);
    FinishedNext(steps, k, n, Failed);
    FinishedNext(steps, k, n, Cancelled);
    hide Run;
    assert steps[k].StopBuild? ==> (EndedByError(states, steps, k) <==> states[k].reader == Ending(true));
  }

  ghost function PastsOf(states: seq<Server>, steps: seq<Step>, k: nat): nat -> Past
    requires k <= |steps| < |states|
  {
    (n: nat) => PastOf(states, steps, k, n)
  }

  lemma InitJudged(states: seq<Server>, steps: seq<Step>)
    requires |steps| < |states| && Init(states[0])
    ensures Judged(states[0], PastsOf(states, steps, 0))
  {
    forall n: nat ensures PastsOf(states, steps, 0)(n) == NOTHING {
    }
  }

  lemma {:induction false} RunJudges(states: seq<Server>, steps: seq<Step>, k: nat)
    requires Run(states, steps) && k < |states|
    ensures Judged(states[k], PastsOf(states, steps, k))
  {
    hide Judged, Invariant, PastOf;
    if k == 0 {
      InitJudged(states, steps);
    } else {
      RunJudges(states, steps, k - 1);
      RunKeeps(states, steps, k - 1);
      var s, step := states[k - 1], steps[k - 1];
      StepJudges(s, step, PastsOf(states, steps, k - 1));
      forall n: nat ensures PastsOf(states, steps, k)(n) == Nexts(s, step, PastsOf(states, steps, k - 1))(n) {
        PastNext(states, steps, k - 1, n);
      }
      SamePasts(states[k], Nexts(s, step, PastsOf(states, steps, k - 1)), PastsOf(states, steps, k));
    }
  }

  /** What the code of the answer to request `n` says. */
  ghost predicate Rightly(states: seq<Server>, steps: seq<Step>, k: nat, n: nat, code: Code)
    requires k <= |steps| < |states| && n < |states[k].requests|
  {
    var requests := states[k].requests;
    var request := requests[n];
    match request.kind
    case Unknown => code == MethodNotFound
    case Shutdown => code == Result
    case Initialize =>
      if InitializedBy(requests, n) then code == AlreadyInitialized
      else if request.refusal == None then code == Result
      else RefusedAs(request.refusal, code)
    case Build =>
      if !InitializedBy(requests, n) then code == NotInitialized
      else if request.refusal != None then RefusedAs(request.refusal, code)
      else if BusyWhenRead(states, steps, k, n) then code == BuildInProgress
      else if Unspawned(states, steps, k, n) then code == BuildFailed
      else
        (FinishedAs(steps, k, n, Succeeded) && code == Result) ||
        (FinishedAs(steps, k, n, Failed) && code == BuildFailed) ||
        (FinishedAs(steps, k, n, Cancelled) && code == if StoppedByError(states, steps, k, n) then BuildFailed else BuildCancelled)
  }

  /** Every answer, in every run, carries the code that what happened to its request calls for. */
  lemma CodesMean(states: seq<Server>, steps: seq<Step>, k: nat, i: nat)
    requires Run(states, steps) && k < |states| && i < |states[k].responses|
    ensures var response := states[k].responses[i];
            response.request < |states[k].requests| && Rightly(states, steps, k, response.request, response.code)
  {
    RunJudges(states, steps, k);
    var n := states[k].responses[i].request;
    assert Right(states[k].requests, n, PastOf(states, steps, k, n), states[k].responses[i].code);
    hide InitializedBy, BusyWhenRead, Unspawned, FinishedAs, StoppedByError, Judged;
  }

  /** Once its build function has returned, a build is answered accordingly, whatever else goes on. */
  lemma FinishAnswered(states: seq<Server>, steps: seq<Step>, j: nat, n: nat, outcome: Outcome, k: nat, i: nat)
    requires Run(states, steps) && j < k < |states| && steps[j] == Finish(n, outcome)
    requires i < |states[k].responses| && states[k].responses[i].request == n
    ensures states[k].responses[i].code ==
            match outcome
            case Succeeded => Result
            case Failed => BuildFailed
            case Cancelled => if StoppedByError(states, steps, k, n) then BuildFailed else BuildCancelled
  {
    RunJudges(states, steps, k);
    var past := PastOf(states, steps, k, n);
    assert FinishedAs(steps, k, n, outcome);
    assert !Unfinished(past);
    assert Right(states[k].requests, n, past, states[k].responses[i].code);
    hide InitializedBy, BusyWhenRead, Unspawned, FinishedAs, StoppedByError, Judged;
  }

  /** A build is told to stop exactly if a shutdown or the end of the session found it active. */
  lemma StopReachesBuild(states: seq<Server>, steps: seq<Step>, k: nat, n: nat)
    requires Run(states, steps) && k < |states| && n in states[k].threads
    ensures states[k].threads[n].cancelled <==> ToldToStop(states, steps, k, n)
  {
    RunJudges(states, steps, k);
    assert ThreadFits(states[k].requests, states[k].threads[n], n, PastOf(states, steps, k, n));
  }

  /** When the reader has dealt with a message it goes on, unless a write has failed by then; that ends the session. */
  lemma CheckFindsFailure(states: seq<Server>, steps: seq<Step>, k: nat)
    requires Run(states, steps) && k < |steps| && steps[k].Check?
    ensures states[k + 1].reader == if WriteFailed(steps, k) then Ending(true) else Reading
  {
    RunShowsFailures(states, steps, k);
  }
}
