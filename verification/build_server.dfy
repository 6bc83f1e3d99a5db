/**
 * The server of the build API (`buildapi.rs`): one reader thread, one thread for each build, and
 * the transformer calls builds make back into the client. A step is one section under a mutex, or
 * one thread's work between two of them; steps of different threads interleave freely.
 */
module BuildServer {

  import opened Common

  datatype Code =
    | Result
    | MethodNotFound
    | AlreadyInitialized
    | NotInitialized
    | InvalidRequest
    | ProtocolMismatch
    | VersionMismatch
    | BuildInProgress
    | BuildCancelled
    | BuildFailed

  datatype Method = Initialize | Build | Shutdown | Unknown

  /** Why a request's parameters are refused. */
  datatype Refusal = BadParams | WrongProtocol | WrongVersion

  /** A request's id and method, and how its parameters are refused, if they are. */
  datatype Request = Request(id: int, kind: Method, refusal: Option<Refusal>)

  /** A message of the client: a request, or the answer to a callback. */
  datatype Message =
    | Ask(request: Request)
    | Answer(callback: nat, payload: string)
    | Malformed
    | EndOfInput

  /** A response to the request that arrived as number `request`. */
  datatype Response = Response(request: nat, id: int, code: Code)

  /** Where the reader is; `n` numbers the request it works on. */
  datatype Reader =
    | Reading
    | Replying(n: nat, code: Code)
    | Accepted(n: nat)
    | Counted(n: nat)
    | Uncounting(n: nat)
    | Checking
    | ShuttingDown(n: nat)
    | ReplyingShutdown(n: nat)
    | Ending(failed: bool)
    | Draining
    | Ended

  datatype Outcome = Succeeded | Cancelled | Failed

  /** Where a build thread is; a thread that is done leaves the map. */
  datatype Phase = Building | Built(outcome: Outcome) | Cleared(outcome: Outcome) | Responded

  datatype Thread = Thread(id: int, phase: Phase, cancelled: bool, caused: bool)

  /** The active build: the id it is known by, and the thread that shares its cancellation. */
  datatype Active = Active(id: int, n: nat)

  /** A transformer call: its callback id, whether it registered, and what its channel received. */
  datatype Call = Call(id: nat, registered: bool, answers: seq<string>)

  datatype Server = Server(
    initialized: bool,
    active: Option<Active>,
    builds: int,
    threads: map<nat, Thread>,
    reader: Reader,
    writeError: bool,
    requests: seq<Request>,
    responses: seq<Response>,
    nextCallback: nat,
    calls: seq<Call>,
    callbacks: map<nat, nat>)

  predicate Init(s: Server) {
    s == Server(false, None, 0, map[], Reading, false, [], [], 0, [], map[])
  }

  datatype Step =
    | Read(message: Message)
    | Reply(written: bool)
    | Count
    | Spawn
    | SpawnFails
    | Uncount
    | Check
    | BuildsDone
    | StopBuild
    | Drained
    | Finish(n: nat, outcome: Outcome)
    | Clear(n: nat)
    | Respond(n: nat, written: bool)
    | Leave(n: nat)
    | StartCall
    | Register(call: nat)
    | GiveUp(call: nat)

  /** A thread whose build function has not returned, or has not been cleared yet. */
  predicate Busy(thread: Thread) {
    thread.phase.Building? || thread.phase.Built?
  }

  predicate Enabled(s: Server, step: Step) {
    match step
    case Read(message) => s.reader.Reading?
    case Reply(_) => s.reader.Replying? || s.reader.ReplyingShutdown?
    case Count => s.reader.Accepted?
    case Spawn => s.reader.Counted?
    case SpawnFails => s.reader.Counted?
    case Uncount => s.reader.Uncounting?
    case Check => s.reader.Checking?
    case BuildsDone => s.reader.ShuttingDown? && s.builds == 0
    case StopBuild => s.reader.Ending?
    case Drained => s.reader.Draining? && s.builds == 0
    case Finish(n, outcome) => n in s.threads && s.threads[n].phase.Building?
    case Clear(n) => n in s.threads && s.threads[n].phase.Built?
    case Respond(n, _) => n in s.threads && s.threads[n].phase.Cleared?
    case Leave(n) => n in s.threads && s.threads[n].phase.Responded?
    case StartCall => true
    case Register(call) => call < |s.calls| && !s.calls[call].registered
    case GiveUp(call) => call < |s.calls| && s.calls[call].id in s.callbacks
  }

  /** The request the reader works on. */
  function InHand(reader: Reader): Option<nat> {
    match reader
    case Replying(n, _) => Some(n)
    case Accepted(n) => Some(n)
    case Counted(n) => Some(n)
    case Uncounting(n) => Some(n)
    case ShuttingDown(n) => Some(n)
    case ReplyingShutdown(n) => Some(n)
    case _ => None
  }

  /** Requests and calls referred to have arrived. */
  predicate WellFormed(s: Server) {
    (InHand(s.reader).Some? ==> InHand(s.reader).value < |s.requests|) &&
    (forall n | n in s.threads :: n < |s.requests|) &&
    (forall id | id in s.callbacks :: s.callbacks[id] < |s.calls|)
  }

  /** `respond` */
  function Log(s: Server, n: nat, code: Code, written: bool): Server
    requires n < |s.requests|
  {
    s.(responses := s.responses + [Response(n, s.requests[n].id, code)], writeError := s.writeError || !written)
  }

  /** `stop_active_build` */
  function Stopped(s: Server, caused: bool): Server {
    if s.active.None? || s.active.value.n !in s.threads then s
    else
      var n := s.active.value.n;
      var thread := s.threads[n];
      s.(threads := s.threads[n := thread.(cancelled := true, caused := thread.caused || caused)])
  }

  function RefusalCode(refusal: Option<Refusal>): Option<Code> {
    match refusal
    case None => None
    case Some(BadParams) => Some(InvalidRequest)
    case Some(WrongProtocol) => Some(ProtocolMismatch)
    case Some(WrongVersion) => Some(VersionMismatch)
  }

  /** How a request is refused on arrival, if it is. */
  function Refused(s: Server, request: Request): Option<Code> {
    match request.kind
    case Initialize => if s.initialized then Some(AlreadyInitialized) else RefusalCode(request.refusal)
    case Build =>
      if !s.initialized then Some(NotInitialized)
      else if request.refusal.Some? then RefusalCode(request.refusal)
      else if s.active.Some? then Some(BuildInProgress)
      else None
    case Shutdown => None
    case Unknown => Some(MethodNotFound)
  }

  /** The reader takes a request. */
  function Received(s: Server, request: Request): Server {
    var n, refused := |s.requests|, Refused(s, request);
    var t := s.(requests := s.requests + [request]);
    if refused.Some? then t.(reader := Replying(n, refused.value))
    else if request.kind.Initialize? then t.(reader := Replying(n, Result), initialized := true)
    else if request.kind.Build? then t.(reader := Accepted(n), active := Some(Active(request.id, n)))
    else Stopped(t.(reader := ShuttingDown(n)), false)
  }

  /** `complete_callback`: the answer goes to the call registered under the id. */
  function Completed(s: Server, callback: nat, payload: string): Server
    requires WellFormed(s)
  {
    if callback !in s.callbacks then s.(reader := Ending(true))
    else
      var call := s.calls[s.callbacks[callback]];
      s.(callbacks := s.callbacks - {callback},
         calls := s.calls[s.callbacks[callback] := call.(answers := call.answers + [payload])])
  }

  function BuildCode(thread: Thread, outcome: Outcome): Code {
    match outcome
    case Succeeded => Result
    case Failed => BuildFailed
    case Cancelled => if thread.caused then BuildFailed else BuildCancelled
  }

  function Apply(s: Server, step: Step): Server
    requires WellFormed(s) && Enabled(s, step)
  {
    match step
    case Read(message) =>
      (match message
       case Ask(request) => Received(s, request)
       case Answer(callback, payload) => Completed(s, callback, payload)
       case Malformed => s.(reader := Ending(true))
       case EndOfInput => s.(reader := Ending(false)))
    case Reply(written) =>
      if s.reader.Replying? then Log(s, s.reader.n, s.reader.code, written).(reader := Checking)
      else Log(s, s.reader.n, Result, written).(reader := Ending(false))
    case Count => s.(builds := s.builds + 1, reader := Counted(s.reader.n))
    case Spawn =>
      s.(threads := s.threads[s.reader.n := Thread(s.requests[s.reader.n].id, Building, false, false)], reader := Checking)
    case SpawnFails => s.(active := None, reader := Uncounting(s.reader.n))
    case Uncount => s.(builds := s.builds - 1, reader := Replying(s.reader.n, BuildFailed))
    case Check => s.(reader := if s.writeError then Ending(true) else Reading)
    case BuildsDone => s.(reader := ReplyingShutdown(s.reader.n))
    case StopBuild => Stopped(s, s.reader.failed).(reader := Draining)
    case Drained => s.(reader := Ended)
    case Finish(n, outcome) => s.(threads := s.threads[n := s.threads[n].(phase := Built(outcome))])
    case Clear(n) =>
      var thread := s.threads[n];
      s.(threads := s.threads[n := thread.(phase := Cleared(thread.phase.outcome))],
         active := if s.active.Some? && s.active.value.id == thread.id then None else s.active)
    case Respond(n, written) =>
      var thread := s.threads[n];
      Log(s, n, BuildCode(thread, thread.phase.outcome), written).(threads := s.threads[n := thread.(phase := Responded)])
    case Leave(n) => s.(threads := s.threads - {n}, builds := s.builds - 1)
    case StartCall =>
      s.(nextCallback := s.nextCallback + 1, calls := s.calls + [Call(s.nextCallback + 1, false, [])])
    case Register(call) =>
      s.(callbacks := s.callbacks[s.calls[call].id := call], calls := s.calls[call := s.calls[call].(registered := true)])
    case GiveUp(call) => s.(callbacks := s.callbacks - {s.calls[call].id})
  }

  // ---- What every state keeps --------------------------------------------------------------

  /** The build being started: accepted, and without a thread yet. */
  function Starting(reader: Reader): Option<nat> {
    match reader
    case Accepted(n) => Some(n)
    case Counted(n) => Some(n)
    case _ => None
  }

  /** One build at a time: the active build is the one being started or the one not cleared yet. */
  predicate OneBuild(requests: seq<Request>, starting: Option<nat>, active: Option<Active>, threads: map<nat, Thread>) {
    (starting.Some? ==>
       starting.value < |requests| && active == Some(Active(requests[starting.value].id, starting.value)) &&
       starting.value !in threads) &&
    (forall n | n in threads && Busy(threads[n]) :: active == Some(Active(threads[n].id, n))) &&
    (active.Some? ==>
       starting == Some(active.value.n) || (active.value.n in threads && Busy(threads[active.value.n])))
  }

  /** The build count is the number of build threads that have not left. */
  predicate CountsBuilds(builds: int, threads: map<nat, Thread>, reader: Reader) {
    builds == |threads| + (if reader.Counted? || reader.Uncounting? then 1 else 0)
  }

  /** Some thread is bound to respond to the request. */
  predicate Owed(inHand: Option<nat>, threads: map<nat, Thread>, n: nat) {
    inHand == Some(n) || (n in threads && !threads[n].phase.Responded?)
  }

  ghost predicate Answered(responses: seq<Response>, n: nat) {
    exists i | 0 <= i < |responses| :: responses[i].request == n
  }

  /** A response is to a request that arrived, under its id. */
  predicate IsTo(requests: seq<Request>, response: Response) {
    response.request < |requests| && response.id == requests[response.request].id
  }

  /** Each request is owed a response, by one thread, or has exactly one. */
  ghost predicate RespondsOnce(requests: seq<Request>, responses: seq<Response>, inHand: Option<nat>, threads: map<nat, Thread>) {
    (inHand.Some? ==> inHand.value < |requests|) &&
    (forall n | n in threads :: n < |requests| && threads[n].id == requests[n].id && inHand != Some(n)) &&
    (forall n: nat :: n < |requests| ==> (Owed(inHand, threads, n) <==> !Answered(responses, n))) &&
    (forall i | 0 <= i < |responses| :: IsTo(requests, responses[i])) &&
    (forall i, j | 0 <= i < j < |responses| :: responses[i].request != responses[j].request)
  }

  /** Calls have ids of their own, and an id is registered to the call that made it. */
  predicate OwnCallbacks(calls: seq<Call>, callbacks: map<nat, nat>, nextCallback: nat) {
    (forall c | 0 <= c < |calls| :: calls[c].id <= nextCallback && |calls[c].answers| <= 1) &&
    (forall c, d | 0 <= c < d < |calls| :: calls[c].id != calls[d].id) &&
    (forall c | 0 <= c < |calls| && !calls[c].registered :: calls[c].answers == [] && calls[c].id !in callbacks) &&
    (forall id | id in callbacks ::
       callbacks[id] < |calls| && calls[callbacks[id]].id == id && calls[callbacks[id]].answers == [])
  }

  predicate ToShutdown(requests: seq<Request>, response: Response) {
    response.request < |requests| && requests[response.request].kind.Shutdown?
  }

  predicate Over(reader: Reader) {
    reader.Ending? || reader.Draining? || reader.Ended?
  }

  predicate Shutting(reader: Reader) {
    reader.ShuttingDown? || reader.ReplyingShutdown?
  }

  /** A shutdown is answered when every build thread has left, and ends the session; so does any other end. */
  predicate ShutdownLast(requests: seq<Request>, responses: seq<Response>, reader: Reader, threads: map<nat, Thread>) {
    (InHand(reader).Some? ==>
       InHand(reader).value < |requests| && (requests[InHand(reader).value].kind.Shutdown? <==> Shutting(reader))) &&
    (forall n | n in threads :: n < |requests| && !requests[n].kind.Shutdown?) &&
    (reader.ReplyingShutdown? || reader.Ended? ==> threads == map[]) &&
    (forall i | 0 <= i < |responses| && ToShutdown(requests, responses[i]) ::
       i == |responses| - 1 && Over(reader) && threads == map[])
  }

  ghost predicate Invariant(s: Server) {
    OneBuild(s.requests, Starting(s.reader), s.active, s.threads) &&
    CountsBuilds(s.builds, s.threads, s.reader) &&
    RespondsOnce(s.requests, s.responses, InHand(s.reader), s.threads) &&
    OwnCallbacks(s.calls, s.callbacks, s.nextCallback) &&
    ShutdownLast(s.requests, s.responses, s.reader, s.threads)
  }

  /** So every reachable state is well formed, as a step asks. */
  lemma InvariantWellFormed(s: Server)
    requires Invariant(s)
    ensures WellFormed(s)
  {
  }

  lemma InitHolds(s: Server)
    requires Init(s)
    ensures Invariant(s)
  {
  }

  // ---- One response to each request --------------------------------------------------------

  lemma OneMoreAnswered(responses: seq<Response>, response: Response)
    ensures forall n: nat :: Answered(responses + [response], n) <==> Answered(responses, n) || n == response.request
  {
    var more := responses + [response];
    assert more[|responses|].request == response.request;
    forall n: nat | Answered(responses, n) ensures Answered(more, n) {
      var i :| 0 <= i < |responses| && responses[i].request == n;
      assert more[i].request == n;
    }
  }

  lemma AskedOwed(requests: seq<Request>, request: Request, responses: seq<Response>, threads: map<nat, Thread>)
    requires RespondsOnce(requests, responses, None, threads)
    ensures RespondsOnce(requests + [request], responses, Some(|requests|), threads)
  {
    forall i | 0 <= i < |responses| ensures IsTo(requests + [request], responses[i]) {
      assert IsTo(requests, responses[i]);
    }
    forall i | 0 <= i < |responses| ensures responses[i].request != |requests| {
      assert IsTo(requests, responses[i]);
    }
  }

  lemma Replied(requests: seq<Request>, responses: seq<Response>, n: nat, code: Code, threads: map<nat, Thread>)
    requires RespondsOnce(requests, responses, Some(n), threads)
    ensures RespondsOnce(requests, responses + [Response(n, requests[n].id, code)], None, threads)
  {
    var response := Response(n, requests[n].id, code);
    OneMoreAnswered(responses, response);
    assert !Answered(responses, n);
    forall m: nat | m < |requests| ensures Owed(None, threads, m) <==> !Answered(responses + [response], m) {
      assert Owed(Some(n), threads, m) <==> !Answered(responses, m);
    }
  }

  lemma Handed(requests: seq<Request>, responses: seq<Response>, n: nat, threads: map<nat, Thread>, thread: Thread)
    requires RespondsOnce(requests, responses, Some(n), threads)
    requires thread.id == requests[n].id && !thread.phase.Responded?
    ensures RespondsOnce(requests, responses, None, threads[n := thread])
  {
    forall m: nat | m < |requests| ensures Owed(None, threads[n := thread], m) <==> !Answered(responses, m) {
      assert Owed(Some(n), threads, m) <==> !Answered(responses, m);
    }
  }

  lemma Moved(requests: seq<Request>, responses: seq<Response>, inHand: Option<nat>, threads: map<nat, Thread>,
              n: nat, thread: Thread)
    requires RespondsOnce(requests, responses, inHand, threads)
    requires n in threads && thread.id == threads[n].id && thread.phase.Responded? == threads[n].phase.Responded?
    ensures RespondsOnce(requests, responses, inHand, threads[n := thread])
  {
    forall m: nat | m < |requests| ensures Owed(inHand, threads[n := thread], m) <==> !Answered(responses, m) {
      assert Owed(inHand, threads, m) <==> !Answered(responses, m);
    }
  }

  lemma ThreadResponded(requests: seq<Request>, responses: seq<Response>, inHand: Option<nat>, threads: map<nat, Thread>,
                        n: nat, code: Code)
    requires RespondsOnce(requests, responses, inHand, threads) && n in threads && !threads[n].phase.Responded?
    ensures RespondsOnce(requests, responses + [Response(n, requests[n].id, code)], inHand,
                         threads[n := threads[n].(phase := Responded)])
  {
    var response, after := Response(n, requests[n].id, code), threads[n := threads[n].(phase := Responded)];
    OneMoreAnswered(responses, response);
    assert Owed(inHand, threads, n);
    forall m: nat | m < |requests| ensures Owed(inHand, after, m) <==> !Answered(responses + [response], m) {
      assert Owed(inHand, threads, m) <==> !Answered(responses, m);
    }
  }

  lemma Left(requests: seq<Request>, responses: seq<Response>, inHand: Option<nat>, threads: map<nat, Thread>, n: nat)
    requires RespondsOnce(requests, responses, inHand, threads) && n in threads && threads[n].phase.Responded?
    ensures RespondsOnce(requests, responses, inHand, threads - {n})
  {
    forall m: nat | m < |requests| ensures Owed(inHand, threads - {n}, m) <==> !Answered(responses, m) {
      assert Owed(inHand, threads, m) <==> !Answered(responses, m);
    }
  }

  // ---- Counting ----------------------------------------------------------------------------

  lemma MoreThreads(threads: map<nat, Thread>, n: nat, thread: Thread)
    ensures |threads[n := thread]| == |threads| + if n in threads then 0 else 1
  {
    assert threads[n := thread].Keys == threads.Keys + {n};
    assert |threads[n := thread].Keys| == |threads[n := thread]| && |threads.Keys| == |threads|;
  }

  lemma FewerThreads(threads: map<nat, Thread>, n: nat)
    requires n in threads
    ensures |threads - {n}| == |threads| - 1
  {
    assert (threads - {n}).Keys == threads.Keys - {n};
    assert |(threads - {n}).Keys| == |threads - {n}| && |threads.Keys| == |threads|;
  }

  lemma StoppedKeeps(s: Server, caused: bool)
    requires Invariant(s)
    ensures Invariant(Stopped(s, caused))
  {
    hide RespondsOnce;
    if s.active.Some? && s.active.value.n in s.threads {
      var n := s.active.value.n;
      var thread := s.threads[n].(cancelled := true, caused := s.threads[n].caused || caused);
      MoreThreads(s.threads, n, thread);
      Moved(s.requests, s.responses, InHand(s.reader), s.threads, n, thread);
    }
  }

  /** A request arrives, and leaves the active build alone. */
  lemma ArriveKeeps(s: Server, request: Request, reader: Reader, initialized: bool)
    requires Invariant(s) && s.reader.Reading? && InHand(reader) == Some(|s.requests|)
    requires if request.kind.Shutdown? then reader.ShuttingDown? else reader.Replying?
    ensures Invariant(s.(requests := s.requests + [request], reader := reader, initialized := initialized))
  {
    AskedOwed(s.requests, request, s.responses, s.threads);
  }

  lemma AcceptKeeps(s: Server, request: Request)
    requires Invariant(s) && s.reader.Reading? && s.active.None? && request.kind.Build?
    ensures Invariant(s.(requests := s.requests + [request], reader := Accepted(|s.requests|),
                         active := Some(Active(request.id, |s.requests|))))
  {
    AskedOwed(s.requests, request, s.responses, s.threads);
  }

  lemma AskShutdownKeeps(s: Server, request: Request)
    requires Invariant(s) && s.reader.Reading? && request.kind.Shutdown?
    ensures Invariant(Received(s, request))
  {
    var t := s.(requests := s.requests + [request], reader := ShuttingDown(|s.requests|));
    ArriveKeeps(s, request, t.reader, s.initialized);
    StoppedKeeps(t, false);
    assert Received(s, request) == Stopped(t, false);
  }

  lemma AskReplyKeeps(s: Server, request: Request)
    requires Invariant(s) && s.reader.Reading? && !request.kind.Shutdown? && Received(s, request).reader.Replying?
    ensures Invariant(Received(s, request))
  {
    var t := Received(s, request);
    ArriveKeeps(s, request, t.reader, t.initialized);
    assert t == s.(requests := s.requests + [request], reader := t.reader, initialized := t.initialized);
  }

  lemma AskKeeps(s: Server, request: Request)
    requires Invariant(s) && WellFormed(s) && Enabled(s, Read(Ask(request)))
    ensures Invariant(Apply(s, Read(Ask(request))))
  {
    if request.kind.Shutdown? {
      AskShutdownKeeps(s, request);
    } else if Received(s, request).reader.Accepted? {
      AcceptKeeps(s, request);
    } else {
      AskReplyKeeps(s, request);
    }
  }

  lemma AnsweredCall(calls: seq<Call>, callbacks: map<nat, nat>, nextCallback: nat, callback: nat, payload: string)
    requires OwnCallbacks(calls, callbacks, nextCallback) && callback in callbacks
    ensures var c := callbacks[callback];
            OwnCallbacks(calls[c := calls[c].(answers := calls[c].answers + [payload])], callbacks - {callback}, nextCallback)
  {
  }

  lemma AnswerKeeps(s: Server, callback: nat, payload: string)
    requires Invariant(s) && WellFormed(s) && Enabled(s, Read(Answer(callback, payload)))
    ensures Invariant(Apply(s, Read(Answer(callback, payload))))
  {
    if callback in s.callbacks {
      AnsweredCall(s.calls, s.callbacks, s.nextCallback, callback, payload);
    }
  }

  lemma EndKeeps(s: Server, message: Message)
    requires Invariant(s) && WellFormed(s) && Enabled(s, Read(message))
    requires message.Malformed? || message.EndOfInput?
    ensures Invariant(Apply(s, Read(message)))
  {
  }

  lemma ReplyKeeps(s: Server, written: bool)
    requires Invariant(s) && WellFormed(s) && s.reader.Replying?
    ensures Invariant(Apply(s, Reply(written)))
  {
    Replied(s.requests, s.responses, s.reader.n, s.reader.code, s.threads);
  }

  lemma ShutdownReplyKeeps(s: Server, written: bool)
    requires Invariant(s) && WellFormed(s) && s.reader.ReplyingShutdown?
    ensures Invariant(Apply(s, Reply(written)))
  {
    Replied(s.requests, s.responses, s.reader.n, Result, s.threads);
  }

  lemma CountKeeps(s: Server)
    requires Invariant(s) && WellFormed(s) && Enabled(s, Count)
    ensures Invariant(Apply(s, Count))
  {
  }

  lemma SpawnKeeps(s: Server)
    requires Invariant(s) && WellFormed(s) && Enabled(s, Spawn)
    ensures Invariant(Apply(s, Spawn))
  {
    var thread := Thread(s.requests[s.reader.n].id, Building, false, false);
    MoreThreads(s.threads, s.reader.n, thread);
    Handed(s.requests, s.responses, s.reader.n, s.threads, thread);
  }

  lemma SpawnFailsKeeps(s: Server)
    requires Invariant(s) && WellFormed(s) && Enabled(s, SpawnFails)
    ensures Invariant(Apply(s, SpawnFails))
  {
  }

  lemma UncountKeeps(s: Server)
    requires Invariant(s) && WellFormed(s) && Enabled(s, Uncount)
    ensures Invariant(Apply(s, Uncount))
  {
  }

  lemma CheckKeeps(s: Server)
    requires Invariant(s) && WellFormed(s) && Enabled(s, Check)
    ensures Invariant(Apply(s, Check))
  {
  }

  lemma BuildsDoneKeeps(s: Server)
    requires Invariant(s) && WellFormed(s) && Enabled(s, BuildsDone)
    ensures Invariant(Apply(s, BuildsDone))
  {
  }

  lemma StopBuildKeeps(s: Server)
    requires Invariant(s) && WellFormed(s) && Enabled(s, StopBuild)
    ensures Invariant(Apply(s, StopBuild))
  {
    var t := s.(reader := Draining);
    assert Invariant(t);
    StoppedKeeps(t, s.reader.failed);
    assert Apply(s, StopBuild) == Stopped(t, s.reader.failed);
  }

  lemma DrainedKeeps(s: Server)
    requires Invariant(s) && WellFormed(s) && Enabled(s, Drained)
    ensures Invariant(Apply(s, Drained))
  {
  }

  lemma FinishKeeps(s: Server, n: nat, outcome: Outcome)
    requires Invariant(s) && WellFormed(s) && Enabled(s, Finish(n, outcome))
    ensures Invariant(Apply(s, Finish(n, outcome)))
  {
    var thread := s.threads[n].(phase := Built(outcome));
    MoreThreads(s.threads, n, thread);
    Moved(s.requests, s.responses, InHand(s.reader), s.threads, n, thread);
  }

  lemma ClearKeeps(s: Server, n: nat)
    requires Invariant(s) && WellFormed(s) && Enabled(s, Clear(n))
    ensures Invariant(Apply(s, Clear(n)))
  {
    var thread := s.threads[n].(phase := Cleared(s.threads[n].phase.outcome));
    MoreThreads(s.threads, n, thread);
    Moved(s.requests, s.responses, InHand(s.reader), s.threads, n, thread);
  }

  /** A build that is answered leaves the shutdown, if there is one, to come. */
  lemma ShutdownStaysLast(requests: seq<Request>, responses: seq<Response>, reader: Reader, threads: map<nat, Thread>, n: nat,
                          response: Response)
    requires ShutdownLast(requests, responses, reader, threads) && n in threads && response.request == n
    ensures ShutdownLast(requests, responses + [response], reader, threads[n := threads[n].(phase := Responded)])
  {
  }

  lemma RespondKeeps(s: Server, n: nat, written: bool)
    requires Invariant(s) && WellFormed(s) && Enabled(s, Respond(n, written))
    ensures Invariant(Apply(s, Respond(n, written)))
  {
    var response := Response(n, s.requests[n].id, BuildCode(s.threads[n], s.threads[n].phase.outcome));
    ShutdownStaysLast(s.requests, s.responses, s.reader, s.threads, n, response);
    hide RespondsOnce, ShutdownLast;
    MoreThreads(s.threads, n, s.threads[n].(phase := Responded));
    ThreadResponded(s.requests, s.responses, InHand(s.reader), s.threads, n, BuildCode(s.threads[n], s.threads[n].phase.outcome));
  }

  lemma LeaveKeeps(s: Server, n: nat)
    requires Invariant(s) && WellFormed(s) && Enabled(s, Leave(n))
    ensures Invariant(Apply(s, Leave(n)))
  {
    FewerThreads(s.threads, n);
    Left(s.requests, s.responses, InHand(s.reader), s.threads, n);
  }

  lemma StartCallKeeps(s: Server)
    requires Invariant(s) && WellFormed(s) && Enabled(s, StartCall)
    ensures Invariant(Apply(s, StartCall))
  {
  }

  lemma RegisterKeeps(s: Server, call: nat)
    requires Invariant(s) && WellFormed(s) && Enabled(s, Register(call))
    ensures Invariant(Apply(s, Register(call)))
  {
  }

  lemma GiveUpKeeps(s: Server, call: nat)
    requires Invariant(s) && WellFormed(s) && Enabled(s, GiveUp(call))
    ensures Invariant(Apply(s, GiveUp(call)))
  {
  }
  /** Every step keeps the invariant. */
  lemma StepKeeps(s: Server, step: Step)
    requires Invariant(s) && WellFormed(s) && Enabled(s, step)
    ensures Invariant(Apply(s, step))
  {
    match step
    case Read(Ask(request)) => AskKeeps(s, request);
    case Read(Answer(callback, payload)) => AnswerKeeps(s, callback, payload);
    case Read(message) => EndKeeps(s, message);
    case Reply(written) => if s.reader.Replying? { ReplyKeeps(s, written); } else { ShutdownReplyKeeps(s, written); }
    case Count => CountKeeps(s);
    case Spawn => SpawnKeeps(s);
    case SpawnFails => SpawnFailsKeeps(s);
    case Uncount => UncountKeeps(s);
    case Check => CheckKeeps(s);
    case BuildsDone => BuildsDoneKeeps(s);
    case StopBuild => StopBuildKeeps(s);
    case Drained => DrainedKeeps(s);
    case Finish(n, outcome) => FinishKeeps(s, n, outcome);
    case Clear(n) => ClearKeeps(s, n);
    case Respond(n, written) => RespondKeeps(s, n, written);
    case Leave(n) => LeaveKeeps(s, n);
    case StartCall => StartCallKeeps(s);
    case Register(call) => RegisterKeeps(s, call);
    case GiveUp(call) => GiveUpKeeps(s, call);
  }

  // ---- Whole runs --------------------------------------------------------------------------

  ghost predicate Run(states: seq<Server>, steps: seq<Step>) {
    |states| == |steps| + 1 && Init(states[0]) &&
    forall i | 0 <= i < |steps| ::
      WellFormed(states[i]) && Enabled(states[i], steps[i]) && states[i + 1] == Apply(states[i], steps[i])
  }

  lemma {:induction false} RunKeeps(states: seq<Server>, steps: seq<Step>, k: nat)
    requires Run(states, steps) && k < |states|
    ensures Invariant(states[k])
  {
    if k > 0 {
      RunKeeps(states, steps, k - 1);
      StepKeeps(states[k - 1], steps[k - 1]);
    } else {
      InitHolds(states[0]);
    }
  }

  /** A run goes on with any step that is enabled: the well-formedness a step asks for always holds. */
  lemma RunGoesOn(states: seq<Server>, steps: seq<Step>, step: Step)
    requires Run(states, steps) && Enabled(states[|steps|], step)
    ensures WellFormed(states[|steps|]) && Run(states + [Apply(states[|steps|], step)], steps + [step])
  {
    RunKeeps(states, steps, |steps|);
    InvariantWellFormed(states[|steps|]);
    var longer, more := states + [Apply(states[|steps|], step)], steps + [step];
    forall i | 0 <= i < |more|
      ensures WellFormed(longer[i]) && Enabled(longer[i], more[i]) && longer[i + 1] == Apply(longer[i], more[i])
    {
      if i < |steps| {
        assert WellFormed(states[i]) && Enabled(states[i], steps[i]) && states[i + 1] == Apply(states[i], steps[i]);
      }
    }
  }

  /** Whatever the client sends, two builds are never running at once. */
  lemma OneBuildAtATime(states: seq<Server>, steps: seq<Step>, k: nat, a: nat, b: nat)
    requires Run(states, steps) && k < |states| && a in states[k].threads && b in states[k].threads
    requires states[k].threads[a].phase.Building? && states[k].threads[b].phase.Building?
    ensures a == b
  {
    RunKeeps(states, steps, k);
  }

  /**
   * Every request is answered once, under its own id, and when the session is over all of them are.
   */
  lemma EveryRequestAnsweredOnce(states: seq<Server>, steps: seq<Step>, k: nat, n: nat)
    requires Run(states, steps) && k < |states| && n < |states[k].requests|
    ensures var s := states[k];
            (forall i, j | 0 <= i < |s.responses| && 0 <= j < |s.responses| &&
                           s.responses[i].request == n && s.responses[j].request == n :: i == j) &&
            (forall i | 0 <= i < |s.responses| && s.responses[i].request == n :: s.responses[i].id == s.requests[n].id) &&
            (s.reader.Ended? ==> Answered(s.responses, n))
  {
    RunKeeps(states, steps, k);
    var s := states[k];
    forall i | 0 <= i < |s.responses| && s.responses[i].request == n ensures s.responses[i].id == s.requests[n].id {
      assert IsTo(s.requests, s.responses[i]);
    }
    assert Owed(InHand(s.reader), s.threads, n) <==> !Answered(s.responses, n);
  }

  /** The reader ends only when every build thread has left. */
  lemma EndsAfterBuilds(states: seq<Server>, steps: seq<Step>, k: nat)
    requires Run(states, steps) && k < |steps| && steps[k].Drained?
    ensures states[k].threads == map[]
  {
    RunKeeps(states, steps, k);
  }

  /** Nothing is answered after a shutdown, and every build was answered before it. */
  lemma ShutdownAnsweredLast(states: seq<Server>, steps: seq<Step>, k: nat, i: nat)
    requires Run(states, steps) && k < |states| && i < |states[k].responses|
    requires ToShutdown(states[k].requests, states[k].responses[i])
    ensures i == |states[k].responses| - 1 && states[k].threads == map[]
    ensures forall n: nat :: n < |states[k].requests| ==> Answered(states[k].responses, n)
  {
    RunKeeps(states, steps, k);
    var s := states[k];
    forall n: nat | n < |s.requests| ensures Answered(s.responses, n) {
      assert Owed(InHand(s.reader), s.threads, n) <==> !Answered(s.responses, n);
    }
  }

  /** An answer reaches the call that made its callback id, which is answered at most once. */
  lemma AnswerReachesItsCall(states: seq<Server>, steps: seq<Step>, k: nat, callback: nat, payload: string)
    requires Run(states, steps) && k < |steps| && steps[k] == Read(Answer(callback, payload))
    ensures var before, after := states[k], states[k + 1];
            if callback !in before.callbacks then after.calls == before.calls && after.reader == Ending(true)
            else
              var c := before.callbacks[callback];
              c < |before.calls| && before.calls[c].id == callback && before.calls[c].answers == [] &&
              after.calls == before.calls[c := before.calls[c].(answers := [payload])] &&
              (forall d | 0 <= d < |before.calls| && before.calls[d].id == callback :: d == c) &&
              callback !in after.callbacks
  {
    RunKeeps(states, steps, k);
    assert [] + [payload] == [payload];
  }

  // ---- An ending session ends ----------------------------------------------------------------

  /** Steps one after the other. */
  ghost predicate Possible(s: Server, steps: seq<Step>)
    decreases |steps|
  {
    steps == [] || (WellFormed(s) && Enabled(s, steps[0]) && Possible(Apply(s, steps[0]), steps[1..]))
  }

  ghost function After(s: Server, steps: seq<Step>): Server
    requires Possible(s, steps)
    decreases |steps|
  {
    if steps == [] then s else After(Apply(s, steps[0]), steps[1..])
  }

  /** A step of the build threads, once their build functions return, or of the reader without a message. */
  predicate Own(step: Step) {
    step.Reply? || step.BuildsDone? || step.StopBuild? || step.Drained? ||
    step.Finish? || step.Clear? || step.Respond? || step.Leave?
  }

  lemma {:induction false} Chained(s: Server, a: seq<Step>, b: seq<Step>)
    requires Possible(s, a) && Possible(After(s, a), b)
    ensures Possible(s, a + b) && After(s, a + b) == After(After(s, a), b)
    decreases |a|
  {
    if a == [] {
      assert a + b == b;
    } else {
      assert (a + b)[0] == a[0] && (a + b)[1..] == a[1..] + b;
      Chained(Apply(s, a[0]), a[1..], b);
    }
  }

  lemma Begun(s: Server, step: Step, rest: seq<Step>)
    requires WellFormed(s) && Enabled(s, step) && Possible(Apply(s, step), rest)
    ensures Possible(s, [step] + rest) && After(s, [step] + rest) == After(Apply(s, step), rest)
  {
    assert ([step] + rest)[1..] == rest;
  }

  /** The steps a build thread has still to take. */
  function Work(phase: Phase): nat {
    match phase
    case Building => 3
    case Built(_) => 2
    case Cleared(_) => 1
    case Responded => 0
  }

  function NextOf(thread: Thread, n: nat): Step {
    match thread.phase
    case Building => Finish(n, Succeeded)
    case Built(_) => Clear(n)
    case Cleared(_) => Respond(n, true)
    case Responded => Leave(n)
  }

  lemma {:induction false} ThreadLeaves(s: Server, n: nat) returns (steps: seq<Step>)
    requires Invariant(s) && n in s.threads
    ensures Possible(s, steps) && forall step | step in steps :: Own(step)
    ensures var t := After(s, steps); Invariant(t) && t.threads == s.threads - {n} && t.reader == s.reader
    decreases Work(s.threads[n].phase)
  {
    hide Invariant, WellFormed;
    InvariantWellFormed(s);
    var step := NextOf(s.threads[n], n);
    StepKeeps(s, step);
    var t, rest := Apply(s, step), [];
    if !s.threads[n].phase.Responded? {
      rest := ThreadLeaves(t, n);
      assert t.threads - {n} == s.threads - {n};
    }
    Begun(s, step, rest);
    steps := [step] + rest;
  }

  lemma {:induction false} AllLeave(s: Server) returns (steps: seq<Step>)
    requires Invariant(s)
    ensures Possible(s, steps) && forall step | step in steps :: Own(step)
    ensures var t := After(s, steps); Invariant(t) && t.threads == map[] && t.reader == s.reader
    decreases |s.threads|
  {
    steps := [];
    if s.threads != map[] {
      var n :| n in s.threads;
      var first := ThreadLeaves(s, n);
      FewerThreads(s.threads, n);
      var second := AllLeave(After(s, first));
      Chained(s, first, second);
      steps := first + second;
    }
  }

  /** How far the reader is from its end. */
  function ToEnd(reader: Reader): nat {
    match reader
    case ShuttingDown(_) => 4
    case ReplyingShutdown(_) => 3
    case Ending(_) => 2
    case Draining => 1
    case _ => 0
  }

  /** Once no build thread is left, the reader takes its next step. */
  lemma {:induction false} EndsFrom(s: Server) returns (steps: seq<Step>)
    requires Invariant(s) && (Shutting(s.reader) || Over(s.reader))
    ensures Possible(s, steps) && forall step | step in steps :: Own(step)
    ensures Invariant(After(s, steps)) && After(s, steps).reader.Ended?
    decreases ToEnd(s.reader)
  {
    if s.reader.Ended? {
      return [];
    }
    var first := AllLeave(s);
    var t := After(s, first);
    assert t.builds == 0;
    InvariantWellFormed(t);
    var step := match t.reader
      case ShuttingDown(_) => BuildsDone
      case ReplyingShutdown(_) => Reply(true)
      case Ending(_) => StopBuild
      case _ => Drained;
    hide Invariant, WellFormed;
    StepKeeps(t, step);
    var rest := EndsFrom(Apply(t, step));
    Begun(t, step, rest);
    Chained(s, first, [step] + rest);
    steps := first + ([step] + rest);
  }

  /**
   * From every state of every run in which the session is shutting down or over, once the build
   * functions return, the server's own steps end it with every request answered.
   */
  lemma SessionEnds(states: seq<Server>, run: seq<Step>, k: nat) returns (steps: seq<Step>)
    requires Run(states, run) && k < |states| && (Shutting(states[k].reader) || Over(states[k].reader))
    ensures Possible(states[k], steps) && forall step | step in steps :: Own(step)
    ensures var t := After(states[k], steps);
            t.reader.Ended? && t.threads == map[] && forall n: nat :: n < |t.requests| ==> Answered(t.responses, n)
  {
    RunKeeps(states, run, k);
    steps := EndsFrom(states[k]);
    var t := After(states[k], steps);
    forall n: nat | n < |t.requests| ensures Answered(t.responses, n) {
      assert Owed(InHand(t.reader), t.threads, n) <==> !Answered(t.responses, n);
    }
  }
}
