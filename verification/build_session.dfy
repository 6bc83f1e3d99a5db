/**
 * The client of the build API (`BuildSession` in `api.js`), and the client composed with the server
 * over the two pipes between them.
 */
module BuildSession {

  import opened Common
  import S = BuildServer

  // ---- The client --------------------------------------------------------------------------

  /** How a request's promise settled: with the server's answer, or with an error of the client's. */
  datatype Ending = Responded(code: S.Code) | Rejected(error: string)

  datatype Settlement = Settlement(id: nat, ending: Ending)

  /** The session's fields, the requests written so far and the promises settled so far. */
  datatype Client = Client(nextID: nat, pending: seq<nat>, terminalError: Option<string>,
                           sent: seq<S.Request>, settled: seq<Settlement>)

  function Without(ids: seq<nat>, id: nat): (r: seq<nat>)
    ensures forall i :: i in r <==> i in ids && i != id
  {
    if ids == [] then [] else (if ids[0] == id then [] else [ids[0]]) + Without(ids[1..], id)
  }

  function RejectAll(ids: seq<nat>, error: string): (r: seq<Settlement>)
    ensures |r| == |ids| && forall i | 0 <= i < |ids| :: r[i] == Settlement(ids[i], Rejected(error))
  {
    seq(|ids|, i requires 0 <= i < |ids| => Settlement(ids[i], Rejected(error)))
  }

  /** `#request`: none once the session is terminal; a failed write rejects on the spot. */
  function Requested(c: Client, kind: S.Method, refusal: Option<S.Refusal>, written: bool): Client {
    if c.terminalError.Some? then c
    else if written then
      c.(nextID := c.nextID + 1, pending := c.pending + [c.nextID],
         sent := c.sent + [S.Request(c.nextID, kind, refusal)])
    else
      c.(nextID := c.nextID + 1, settled := c.settled + [Settlement(c.nextID, Rejected("SERVER_EXITED"))])
  }

  /** `#fail` */
  function Failed(c: Client, error: string): Client {
    if c.terminalError.Some? then c
    else c.(terminalError := Some(error), pending := [], settled := c.settled + RejectAll(c.pending, error))
  }

  /** `#receive`, given a response. */
  function Received(c: Client, id: int, code: S.Code): Client {
    if c.terminalError.Some? then c
    else if id < 0 || id !in c.pending then Failed(c, "PROTOCOL_ERROR")
    else c.(pending := Without(c.pending, id), settled := c.settled + [Settlement(id, Responded(code))])
  }

  /** `#abortSession` up to the child's exit, and after it. */
  function AbortBegun(c: Client): Client {
    if c.terminalError.Some? then c else c.(terminalError := Some("SESSION_TERMINAL"))
  }

  function AbortDone(c: Client): Client {
    c.(pending := [], settled := c.settled + RejectAll(c.pending, "BUILD_CANCELLED"))
  }

  class Session {
    var nextID: nat
    var pending: seq<nat>
    var terminalError: Option<string>
    var sent: seq<S.Request>
    var settled: seq<Settlement>

    function State(): Client
      reads this
    {
      Client(nextID, pending, terminalError, sent, settled)
    }

    ghost predicate Valid()
      reads this
    {
      Tidy(State())
    }

    constructor ()
      ensures Valid() && State() == Client(1, [], None, [], [])
    {
      nextID, pending, terminalError, sent, settled := 1, [], None, [], [];
    }

    method Request(kind: S.Method, refusal: Option<S.Refusal>, written: bool) returns (id: Option<nat>)
      requires Valid()
      modifies this
      ensures Valid() && State() == Requested(old(State()), kind, refusal, written)
      ensures id == if old(terminalError).Some? then None else Some(old(nextID))
      ensures old(terminalError).Some? ==> State() == old(State())
      ensures old(terminalError).None? ==>
                terminalError.None? && nextID == old(nextID) + 1 &&
                pending == old(pending) + (if written then [old(nextID)] else []) &&
                sent == old(sent) + (if written then [S.Request(old(nextID), kind, refusal)] else []) &&
                settled == old(settled) + if written then [] else [Settlement(old(nextID), Rejected("SERVER_EXITED"))]
    {
      RequestedTidy(State(), kind, refusal, written);
      if terminalError.Some? {
        return None;
      }
      id := Some(nextID);
      pending := pending + [nextID];
      if written {
        sent := sent + [S.Request(nextID, kind, refusal)];
      } else {
        WithoutLast(old(pending), nextID);
        pending := Without(pending, nextID);
        settled := settled + [Settlement(nextID, Rejected("SERVER_EXITED"))];
      }
      nextID := nextID + 1;
    }

    /** Settles every pending promise with the error. */
    method Settle(error: string)
      modifies `pending, `settled
      ensures pending == [] && settled == old(settled) + RejectAll(old(pending), error)
    {
      var index := 0;
      while index < |pending|
        invariant 0 <= index <= |pending| && pending == old(pending)
        invariant settled == old(settled) + RejectAll(pending, error)[..index]
      {
        settled := settled + [Settlement(pending[index], Rejected(error))];
        index := index + 1;
      }
      pending := [];
    }

    method Fail(error: string)
      requires Valid()
      modifies this
      ensures Valid() && State() == Failed(old(State()), error)
      ensures old(terminalError).Some? ==> State() == old(State())
      ensures old(terminalError).None? ==>
                terminalError == Some(error) && pending == [] && settled == old(settled) + RejectAll(old(pending), error) &&
                nextID == old(nextID) && sent == old(sent)
    {
      FailedTidy(State(), error);
      if terminalError.Some? {
        return;
      }
      terminalError := Some(error);
      Settle(error);
    }

    method Receive(id: int, code: S.Code)
      requires Valid()
      modifies this
      ensures Valid() && State() == Received(old(State()), id, code)
      ensures old(terminalError).Some? ==> State() == old(State())
      ensures old(terminalError).None? && id in old(pending) ==>
                terminalError.None? && settled == old(settled) + [Settlement(id, Responded(code))] &&
                forall i: int :: i in pending <==> i in old(pending) && i != id
      ensures old(terminalError).None? && id !in old(pending) ==>
                terminalError == Some("PROTOCOL_ERROR") && pending == [] &&
                settled == old(settled) + RejectAll(old(pending), "PROTOCOL_ERROR")
      ensures nextID == old(nextID) && sent == old(sent)
    {
      ReceivedTidy(State(), id, code);
      if terminalError.Some? {
        return;
      }
      if id < 0 || id !in pending {
        Fail("PROTOCOL_ERROR");
        return;
      }
      pending := Without(pending, id);
      settled := settled + [Settlement(id, Responded(code))];
    }

    method BeginAbort()
      requires Valid()
      modifies this
      ensures Valid() && State() == AbortBegun(old(State()))
      ensures terminalError == (if old(terminalError).Some? then old(terminalError) else Some("SESSION_TERMINAL"))
      ensures pending == old(pending) && settled == old(settled) && sent == old(sent) && nextID == old(nextID)
    {
      AbortedTidy(State());
      if terminalError.None? {
        terminalError := Some("SESSION_TERMINAL");
      }
    }

    method FinishAbort()
      requires Valid()
      modifies this
      ensures Valid() && State() == AbortDone(old(State()))
      ensures pending == [] && settled == old(settled) + RejectAll(old(pending), "BUILD_CANCELLED")
      ensures terminalError == old(terminalError) && sent == old(sent) && nextID == old(nextID)
    {
      AbortedTidy(State());
      Settle("BUILD_CANCELLED");
    }
  }

  lemma {:induction false} WithoutLast(ids: seq<nat>, id: nat)
    requires id !in ids
    ensures Without(ids + [id], id) == ids
  {
    if ids == [] {
      assert Without([id], id) == Without([id][1..], id);
    } else {
      assert (ids + [id])[1..] == ids[1..] + [id];
      WithoutLast(ids[1..], id);
    }
  }

  // ---- What the client keeps ---------------------------------------------------------------

  predicate Distinct(ids: seq<nat>) {
    forall i, j | 0 <= i < j < |ids| :: ids[i] != ids[j]
  }

  predicate OncePerId(settled: seq<Settlement>) {
    forall i, j | 0 <= i < j < |settled| :: settled[i].id != settled[j].id
  }

  ghost predicate Settles(settled: seq<Settlement>, id: nat) {
    exists i | 0 <= i < |settled| :: settled[i].id == id
  }

  /** Ids are used once, in order; each is pending or settled, and settles once. */
  ghost predicate Tidy(c: Client) {
    c.nextID >= 1 && Distinct(c.pending) && OncePerId(c.settled) &&
    (forall i, j | 0 <= i < j < |c.sent| :: c.sent[i].id < c.sent[j].id) &&
    (forall r | r in c.sent :: 1 <= r.id < c.nextID) &&
    (forall id: nat :: 1 <= id < c.nextID <==> id in c.pending || Settles(c.settled, id)) &&
    (forall id: nat :: id in c.pending ==> !Settles(c.settled, id))
  }

  lemma OneMoreSettled(settled: seq<Settlement>, id: nat, ending: Ending)
    ensures forall n: nat :: Settles(settled + [Settlement(id, ending)], n) <==> Settles(settled, n) || n == id
    ensures OncePerId(settled) && !Settles(settled, id) ==> OncePerId(settled + [Settlement(id, ending)])
  {
    var more := settled + [Settlement(id, ending)];
    assert more[|settled|].id == id;
    forall n: nat | Settles(settled, n) ensures Settles(more, n) {
      var i :| 0 <= i < |settled| && settled[i].id == n;
      assert more[i].id == n;
    }
  }

  lemma {:induction false} AllSettled(settled: seq<Settlement>, ids: seq<nat>, error: string)
    ensures forall n: nat :: Settles(settled + RejectAll(ids, error), n) <==> Settles(settled, n) || n in ids
    ensures OncePerId(settled) && Distinct(ids) && (forall n: nat :: n in ids ==> !Settles(settled, n)) ==>
              OncePerId(settled + RejectAll(ids, error))
    decreases |ids|
  {
    if ids == [] {
      assert settled + RejectAll(ids, error) == settled;
    } else {
      var front, last := ids[..|ids| - 1], ids[|ids| - 1];
      AllSettled(settled, front, error);
      OneMoreSettled(settled + RejectAll(front, error), last, Rejected(error));
      assert settled + RejectAll(ids, error) == settled + RejectAll(front, error) + [Settlement(last, Rejected(error))];
      assert ids == front + [last];
    }
  }

  lemma {:induction false} WithoutDistinct(ids: seq<nat>, id: nat)
    requires Distinct(ids)
    ensures Distinct(Without(ids, id))
  {
    if ids != [] {
      assert ids == [ids[0]] + ids[1..];
      WithoutDistinct(ids[1..], id);
      assert ids[0] !in ids[1..];
    }
  }

  lemma RequestedTidy(c: Client, kind: S.Method, refusal: Option<S.Refusal>, written: bool)
    requires Tidy(c)
    ensures Tidy(Requested(c, kind, refusal, written))
  {
    assert c.nextID !in c.pending && !Settles(c.settled, c.nextID);
    OneMoreSettled(c.settled, c.nextID, Rejected("SERVER_EXITED"));
  }

  lemma RejectedTidy(c: Client, d: Client, error: string)
    requires Tidy(c) && d == c.(terminalError := d.terminalError, pending := [], settled := c.settled + RejectAll(c.pending, error))
    ensures Tidy(d)
  {
    AllSettled(c.settled, c.pending, error);
  }

  lemma FailedTidy(c: Client, error: string)
    requires Tidy(c)
    ensures Tidy(Failed(c, error))
  {
    if c.terminalError.None? {
      RejectedTidy(c, Failed(c, error), error);
    }
  }

  lemma ReceivedTidy(c: Client, id: int, code: S.Code)
    requires Tidy(c)
    ensures Tidy(Received(c, id, code))
  {
    if c.terminalError.None? {
      if id >= 0 && id in c.pending {
        OneMoreSettled(c.settled, id, Responded(code));
        WithoutDistinct(c.pending, id);
      } else {
        FailedTidy(c, "PROTOCOL_ERROR");
      }
    }
  }

  lemma AbortedTidy(c: Client)
    requires Tidy(c)
    ensures Tidy(AbortBegun(c)) && Tidy(AbortDone(c))
  {
    RejectedTidy(c, AbortDone(c), "BUILD_CANCELLED");
  }

  // ---- Both ends ---------------------------------------------------------------------------

  /**
   * The session: the client, the id its queued operation waits for, whether the handshake is done,
   * and the two pipes.
   */
  datatype World = World(
    client: Client,
    waiting: Option<nat>,
    connected: bool,
    disposed: bool,
    toServer: seq<S.Message>,
    server: S.Server,
    toClient: seq<S.Response>)

  ghost predicate InitWorld(w: World) {
    S.Init(w.server) && w == World(Client(1, [], None, [], []), None, false, false, [], w.server, [])
  }

  /** The queue runs one operation at a time, so the next one finds the last one settled. */
  predicate Idle(w: World) {
    w.waiting.None? || w.waiting.value !in w.client.pending
  }

  datatype Step =
    | Connect(refusal: Option<S.Refusal>, written: bool)
    | Build(refusal: Option<S.Refusal>, written: bool)
    | Dispose(written: bool)
    | Receive
    | AnswerCallback(callback: nat, payload: string)
    | Fail(error: string)
    | BeginAbort
    | FinishAbort
    | CloseInput
    | Serve(step: S.Step)

  predicate Enabled(w: World, step: Step) {
    match step
    case Connect(_, _) => Idle(w) && w.waiting.None?
    case Build(_, _) => Idle(w) && w.connected && !w.disposed
    case Dispose(_) => Idle(w) && w.waiting.Some? && !w.disposed
    case Receive => w.toClient != []
    case AnswerCallback(_, _) => w.client.terminalError.None?
    case Fail(_) => true
    case BeginAbort => true
    case FinishAbort => w.client.terminalError.Some?
    case CloseInput => w.disposed || w.client.terminalError.Some?
    case Serve(serverStep) =>
      S.WellFormed(w.server) && S.Enabled(w.server, serverStep) &&
      (serverStep.Read? ==> w.toServer != [] && serverStep.message == w.toServer[0])
  }

  /** What the client wrote since it had written `before`. */
  function WrittenSince(before: seq<S.Request>, after: seq<S.Request>): seq<S.Message> {
    if |before| < |after| then [S.Ask(after[|after| - 1])] else []
  }

  /** The queue's next operation makes a request: the pipe gets what that writes. */
  function Sent(w: World, kind: S.Method, refusal: Option<S.Refusal>, written: bool): World {
    var c := Requested(w.client, kind, refusal, written);
    w.(client := c, waiting := if c.nextID > w.client.nextID then Some(w.client.nextID) else w.waiting,
       toServer := w.toServer + WrittenSince(w.client.sent, c.sent))
  }

  predicate Written(step: S.Step) {
    match step
    case Reply(written) => written
    case Respond(_, written) => written
    case _ => true
  }

  function Apply(w: World, step: Step): World
    requires Enabled(w, step)
  {
    match step
    case Connect(refusal, written) => Sent(w, S.Initialize, refusal, written)
    case Build(refusal, written) => Sent(w, S.Build, refusal, written)
    case Dispose(written) => Sent(w, S.Shutdown, None, written).(disposed := true)
    case Receive =>
      var response := w.toClient[0];
      var c := Received(w.client, response.id, response.code);
      w.(client := c, toClient := w.toClient[1..],
         connected := w.connected || (c.terminalError.None? && response.code.Result?))
    case AnswerCallback(callback, payload) => w.(toServer := w.toServer + [S.Answer(callback, payload)])
    case Fail(error) => w.(client := Failed(w.client, error))
    case BeginAbort => w.(client := AbortBegun(w.client))
    case FinishAbort => w.(client := AbortDone(w.client))
    case CloseInput => w.(toServer := w.toServer + [S.EndOfInput])
    case Serve(serverStep) =>
      var t := S.Apply(w.server, serverStep);
      w.(server := t,
         toServer := if serverStep.Read? then w.toServer[1..] else w.toServer,
         toClient := if Written(serverStep) && |t.responses| > |w.server.responses| then
                       w.toClient + [t.responses[|t.responses| - 1]]
                     else w.toClient)
  }

  ghost predicate Run(worlds: seq<World>, steps: seq<Step>) {
    |worlds| == |steps| + 1 && InitWorld(worlds[0]) &&
    forall i | 0 <= i < |steps| :: Enabled(worlds[i], steps[i]) && worlds[i + 1] == Apply(worlds[i], steps[i])
  }

  // ---- One request under way ---------------------------------------------------------------

  /** The requests in the pipe. */
  function Asks(messages: seq<S.Message>): seq<S.Request> {
    if messages == [] then []
    else (if messages[0].Ask? then [messages[0].request] else []) + Asks(messages[1..])
  }

  lemma {:induction false} AsksOfSum(a: seq<S.Message>, b: seq<S.Message>)
    ensures Asks(a + b) == Asks(a) + Asks(b)
  {
    if a == [] {
      assert a + b == b;
    } else {
      var own := if a[0].Ask? then [a[0].request] else [];
      AsksOfSum(a[1..], b);
      assert Asks(a + b) == own + Asks(a[1..] + b) by {
        assert (a + b)[1..] == a[1..] + b;
      }
    }
  }

  /** The server owes nobody a response. */
  ghost predicate Free(s: S.Server) {
    forall n: nat :: !S.Owed(S.InHand(s.reader), s.threads, n)
  }

  /** The one response the server owes is to the request with this id. */
  ghost predicate OwesOnly(s: S.Server, id: nat) {
    exists n: nat | n < |s.requests| && s.requests[n].id == id ::
      S.Owed(S.InHand(s.reader), s.threads, n) && forall m: nat :: S.Owed(S.InHand(s.reader), s.threads, m) ==> m == n
  }

  /** Where the request with this id is: in the pipe, at the server, or answered in the other pipe. */
  ghost predicate Upstream(w: World, id: nat) {
    |Asks(w.toServer)| == 1 && Asks(w.toServer)[0].id == id && Free(w.server) && w.toClient == []
  }

  ghost predicate AtServer(w: World, id: nat) {
    Asks(w.toServer) == [] && OwesOnly(w.server, id) && w.toClient == []
  }

  ghost predicate Downstream(w: World, id: nat) {
    Asks(w.toServer) == [] && Free(w.server) && |w.toClient| == 1 && w.toClient[0].id == id
  }

  ghost predicate Quiet(w: World) {
    Asks(w.toServer) == [] && Free(w.server) && w.toClient == []
  }

  /** No response, present or to come, refuses a build because another is active. */
  predicate NeverRefusesBuild(w: World) {
    (w.server.reader.Replying? ==> !w.server.reader.code.BuildInProgress?) &&
    (forall r | r in w.server.responses :: !r.code.BuildInProgress?) &&
    (forall r | r in w.toClient :: !r.code.BuildInProgress?)
  }

  /** At most one request is under way: the one the queue waits for. */
  ghost predicate OneUnderWay(w: World) {
    Quiet(w) ||
    (w.waiting.Some? &&
     (Upstream(w, w.waiting.value) || AtServer(w, w.waiting.value) || Downstream(w, w.waiting.value)) &&
     (w.client.terminalError.None? ==> w.waiting.value in w.client.pending))
  }

  /** Only what the queue waits for is pending. */
  predicate WaitsForPending(w: World) {
    w.client.terminalError.None? ==> forall id | id in w.client.pending :: w.waiting == Some(id)
  }

  ghost predicate Invariant(w: World) {
    S.Invariant(w.server) && Tidy(w.client) && OneUnderWay(w) && NeverRefusesBuild(w) && WaitsForPending(w)
  }

  // ---- Every step keeps it -----------------------------------------------------------------

  /** A server step that neither takes a request nor answers one. */
  predicate Inner(step: S.Step) {
    !step.Reply? && !step.Respond? && !(step.Read? && step.message.Ask?)
  }

  ghost predicate SameOwed(s: S.Server, t: S.Server) {
    forall n: nat :: S.Owed(S.InHand(t.reader), t.threads, n) <==> S.Owed(S.InHand(s.reader), s.threads, n)
  }

  lemma StoppedOwes(s: S.Server, caused: bool)
    ensures var t := S.Stopped(s, caused);
            SameOwed(s, t) && t.requests == s.requests && t.responses == s.responses && t.reader == s.reader
  {
  }

  /** A step of the reader that hands nothing over keeps what it holds. */
  lemma ReaderHolds(s: S.Server, step: S.Step)
    requires S.WellFormed(s) && S.Enabled(s, step) && Inner(step)
    requires !step.Spawn? && !step.StopBuild? && !step.Finish? && !step.Clear? && !step.Leave?
    ensures var t := S.Apply(s, step); S.InHand(t.reader) == S.InHand(s.reader) && t.threads == s.threads
  {
  }

  lemma ThreadHolds(s: S.Server, step: S.Step)
    requires S.WellFormed(s) && S.Enabled(s, step) && (step.Spawn? || step.Finish? || step.Clear? || step.Leave?)
    ensures SameOwed(s, S.Apply(s, step))
  {
  }

  lemma InnerOwes(s: S.Server, step: S.Step)
    requires S.WellFormed(s) && S.Enabled(s, step) && Inner(step)
    ensures SameOwed(s, S.Apply(s, step))
  {
    if step.StopBuild? {
      StoppedOwes(s, s.reader.failed);
    } else if step.Spawn? || step.Finish? || step.Clear? || step.Leave? {
      ThreadHolds(s, step);
    } else {
      ReaderHolds(s, step);
    }
  }

  lemma InnerAnswersNone(s: S.Server, step: S.Step)
    requires S.WellFormed(s) && S.Enabled(s, step) && Inner(step)
    ensures var t := S.Apply(s, step);
            t.requests == s.requests && t.responses == s.responses &&
            (t.reader.Replying? && t.reader.code.BuildInProgress? ==> t.reader == s.reader)
  {
    if step.StopBuild? {
      StoppedOwes(s, s.reader.failed);
    }
  }

  lemma OwesSame(s: S.Server, t: S.Server, id: nat)
    requires SameOwed(s, t) && t.requests == s.requests
    ensures Free(s) <==> Free(t)
    ensures OwesOnly(s, id) <==> OwesOnly(t, id)
  {
  }

  lemma InnerKeeps(w: World, step: S.Step)
    requires Invariant(w) && Enabled(w, Serve(step)) && Inner(step)
    ensures Invariant(Apply(w, Serve(step)))
  {
    hide S.Invariant, Tidy, S.Apply, S.Enabled, S.WellFormed;
    S.StepKeeps(w.server, step);
    InnerOwes(w.server, step);
    InnerAnswersNone(w.server, step);
    var v := Apply(w, Serve(step));
    assert Asks(v.toServer) == Asks(w.toServer);
    if w.waiting.Some? {
      OwesSame(w.server, v.server, w.waiting.value);
    }
    OwesSame(w.server, v.server, 0);
  }

  /** A server that owes nothing has no active build. */
  lemma FreeIsInactive(s: S.Server)
    requires S.Invariant(s) && Free(s)
    ensures s.active.None?
  {
    assert s.active.Some? ==> S.Owed(S.InHand(s.reader), s.threads, s.active.value.n);
  }

  /** Taking a request, a free server owes just that one, and refuses no build for another. */
  lemma TakenOwes(s: S.Server, request: S.Request, id: nat)
    requires S.Invariant(s) && s.reader.Reading? && Free(s) && request.id == id
    ensures var t := S.Received(s, request);
            OwesOnly(t, id) && t.responses == s.responses &&
            !(t.reader.Replying? && t.reader.code.BuildInProgress?)
  {
    FreeIsInactive(s);
    var t, n := S.Received(s, request), |s.requests|;
    assert t.requests[n] == request;
    if request.kind.Shutdown? {
      assert t.threads == s.threads;
    }
    forall m: nat ensures S.Owed(S.InHand(t.reader), t.threads, m) <==> m == n {
      assert !S.Owed(S.InHand(s.reader), s.threads, m);
    }
  }

  lemma TakeKeeps(w: World, request: S.Request)
    requires Invariant(w) && Enabled(w, Serve(S.Read(S.Ask(request))))
    ensures Invariant(Apply(w, Serve(S.Read(S.Ask(request)))))
  {
    S.StepKeeps(w.server, S.Read(S.Ask(request)));
    assert Asks(w.toServer) == [request] + Asks(w.toServer[1..]);
    TakenOwes(w.server, request, w.waiting.value);
  }

  /** The step that answers, with the request it answers and the code. */
  lemma AnsweringOwes(s: S.Server, step: S.Step, id: nat) returns (code: S.Code)
    requires S.Invariant(s) && S.WellFormed(s) && S.Enabled(s, step) && (step.Reply? || step.Respond?)
    requires OwesOnly(s, id) && !(s.reader.Replying? && s.reader.code.BuildInProgress?)
    ensures var t := S.Apply(s, step);
            Free(t) && |t.responses| == |s.responses| + 1 && t.responses[..|s.responses|] == s.responses &&
            t.responses[|s.responses|].id == id && t.responses[|s.responses|].code == code && !code.BuildInProgress? &&
            !t.reader.Replying?
  {
    var n := if step.Reply? then s.reader.n else step.n;
    assert S.Owed(S.InHand(s.reader), s.threads, n);
    assert s.requests[n].id == id;
    if s.reader.Replying? {
      assert S.Owed(S.InHand(s.reader), s.threads, s.reader.n);
    }
    var t := S.Apply(s, step);
    code := t.responses[|s.responses|].code;
    forall m: nat ensures !S.Owed(S.InHand(t.reader), t.threads, m) {
      assert S.Owed(S.InHand(s.reader), s.threads, m) ==> m == n;
    }
  }

  /** A response to the request that is at the server goes down the pipe, or is lost with it. */
  lemma Delivered(w: World, t: S.Server, written: bool, id: nat)
    requires AtServer(w, id) && NeverRefusesBuild(w) && Free(t) && !t.reader.Replying?
    requires |t.responses| == |w.server.responses| + 1 && t.responses[..|w.server.responses|] == w.server.responses
    requires var last := t.responses[|t.responses| - 1]; last.id == id && !last.code.BuildInProgress?
    ensures var v := w.(server := t, toClient := if written then w.toClient + [t.responses[|t.responses| - 1]] else w.toClient);
            (if written then Downstream(v, id) else Quiet(v)) && NeverRefusesBuild(v)
  {
    assert t.responses == w.server.responses + [t.responses[|t.responses| - 1]];
  }

  /** What a server owes is what the queue waits for. */
  lemma OwingIsAwaited(w: World, n: nat)
    requires OneUnderWay(w) && S.Owed(S.InHand(w.server.reader), w.server.threads, n)
    ensures w.waiting.Some? && AtServer(w, w.waiting.value)
    ensures w.client.terminalError.None? ==> w.waiting.value in w.client.pending
  {
  }

  lemma AnswerKeeps(w: World, step: S.Step)
    requires Invariant(w) && Enabled(w, Serve(step)) && (step.Reply? || step.Respond?)
    ensures Invariant(Apply(w, Serve(step)))
  {
    hide S.Invariant, Tidy;
    S.StepKeeps(w.server, step);
    OwingIsAwaited(w, if step.Reply? then w.server.reader.n else step.n);
    var code := AnsweringOwes(w.server, step, w.waiting.value);
    Delivered(w, S.Apply(w.server, step), Written(step), w.waiting.value);
  }

  lemma SentKeeps(w: World, kind: S.Method, refusal: Option<S.Refusal>, written: bool)
    requires Invariant(w) && Idle(w)
    ensures Invariant(Sent(w, kind, refusal, written))
  {
    hide S.Invariant, Tidy;
    var v := Sent(w, kind, refusal, written);
    if w.client.terminalError.Some? {
      assert v.toServer == w.toServer;
      assert v == w;
    } else {
      RequestedTidy(w.client, kind, refusal, written);
      var more := WrittenSince(w.client.sent, v.client.sent);
      assert more == if written then [S.Ask(S.Request(w.client.nextID, kind, refusal))] else [];
      AsksOfSum(w.toServer, more);
      assert Quiet(w);
    }
  }

  lemma DisposeKeeps(w: World, written: bool)
    requires Invariant(w) && Idle(w)
    ensures Invariant(Sent(w, S.Shutdown, None, written).(disposed := true))
  {
    SentKeeps(w, S.Shutdown, None, written);
  }

  lemma ReceiveKeeps(w: World)
    requires Invariant(w) && Enabled(w, Receive)
    ensures Invariant(Apply(w, Receive))
    ensures w.client.terminalError.None? ==> w.toClient[0].id >= 0 && w.toClient[0].id in w.client.pending
  {
    ReceivedTidy(w.client, w.toClient[0].id, w.toClient[0].code);
  }

  lemma PipeKeeps(w: World, message: S.Message)
    requires Invariant(w) && !message.Ask?
    ensures Invariant(w.(toServer := w.toServer + [message]))
  {
    AsksOfSum(w.toServer, [message]);
    assert Asks([message]) == [];
  }

  lemma EndedKeeps(w: World, c: Client)
    requires Invariant(w) && Tidy(c) && c.terminalError.Some?
    ensures Invariant(w.(client := c))
  {
  }

  lemma ServeKeeps(w: World, step: S.Step)
    requires Invariant(w) && Enabled(w, Serve(step))
    ensures Invariant(Apply(w, Serve(step)))
  {
    if Inner(step) {
      InnerKeeps(w, step);
    } else if step.Read? {
      TakeKeeps(w, step.message.request);
    } else {
      AnswerKeeps(w, step);
    }
  }

  lemma EndingKeeps(w: World, step: Step)
    requires Invariant(w) && Enabled(w, step) && (step.Fail? || step.BeginAbort? || step.FinishAbort?)
    ensures Invariant(Apply(w, step))
  {
    match step
    case Fail(error) => FailedTidy(w.client, error); EndedKeeps(w, Failed(w.client, error));
    case BeginAbort => AbortedTidy(w.client); EndedKeeps(w, AbortBegun(w.client));
    case FinishAbort => AbortedTidy(w.client); EndedKeeps(w, AbortDone(w.client));
  }

  lemma StepKeeps(w: World, step: Step)
    requires Invariant(w) && Enabled(w, step)
    ensures Invariant(Apply(w, step))
  {
    hide Invariant;
    match step
    case Connect(refusal, written) => SentKeeps(w, S.Initialize, refusal, written);
    case Build(refusal, written) => SentKeeps(w, S.Build, refusal, written);
    case Dispose(written) => DisposeKeeps(w, written);
    case Receive => ReceiveKeeps(w);
    case AnswerCallback(callback, payload) => PipeKeeps(w, S.Answer(callback, payload));
    case CloseInput => PipeKeeps(w, S.EndOfInput);
    case Serve(serverStep) => ServeKeeps(w, serverStep);
    case _ => EndingKeeps(w, step);
  }

  lemma {:induction false} RunKeeps(worlds: seq<World>, steps: seq<Step>, k: nat)
    requires Run(worlds, steps) && k < |worlds|
    ensures Invariant(worlds[k])
  {
    if k > 0 {
      RunKeeps(worlds, steps, k - 1);
      StepKeeps(worlds[k - 1], steps[k - 1]);
    } else {
      S.InitHolds(worlds[0].server);
    }
  }

  // ---- The session's promises --------------------------------------------------------------

  /**
   * This client is never told that a build is in progress, and never finds a response it did not
   * wait for.
   */
  lemma NeverInProgress(worlds: seq<World>, steps: seq<Step>, k: nat)
    requires Run(worlds, steps) && k < |steps| && steps[k].Receive?
    ensures !worlds[k].toClient[0].code.BuildInProgress?
    ensures worlds[k].client.terminalError.None? ==> worlds[k + 1].client.terminalError.None?
  {
    RunKeeps(worlds, steps, k);
    ReceiveKeeps(worlds[k]);
    assert worlds[k].toClient[0] in worlds[k].toClient;
  }

  /** Ids grow with every request; every id given out is pending or has settled, once. */
  lemma SettlesOnce(worlds: seq<World>, steps: seq<Step>, k: nat)
    requires Run(worlds, steps) && k < |worlds|
    ensures Tidy(worlds[k].client)
  {
    RunKeeps(worlds, steps, k);
  }

  /** A step after a terminal error puts no request into the pipe and gives out no id. */
  lemma TerminalStep(w: World, step: Step)
    requires Enabled(w, step) && w.client.terminalError.Some?
    ensures var v := Apply(w, step);
            v.client.terminalError == w.client.terminalError && v.client.sent == w.client.sent &&
            v.client.nextID == w.client.nextID && forall r | r in Asks(v.toServer) :: r in Asks(w.toServer)
  {
    match step
    case Connect(refusal, written) => assert w.toServer + [] == w.toServer;
    case Build(refusal, written) => assert w.toServer + [] == w.toServer;
    case Dispose(written) => assert w.toServer + [] == w.toServer;
    case CloseInput =>
      AsksOfSum(w.toServer, [S.EndOfInput]);
      assert Asks([S.EndOfInput]) == [];
    case _ =>
  }

  /** After a terminal error the error stays and no request is sent, whatever the queue still asks for. */
  lemma {:induction false} TerminalIsQuiet(worlds: seq<World>, steps: seq<Step>, j: nat, k: nat)
    requires Run(worlds, steps) && j <= k < |worlds| && worlds[j].client.terminalError.Some?
    ensures worlds[k].client.terminalError == worlds[j].client.terminalError
    ensures worlds[k].client.sent == worlds[j].client.sent && worlds[k].client.nextID == worlds[j].client.nextID
    ensures forall r | r in Asks(worlds[k].toServer) :: r in Asks(worlds[j].toServer)
  {
    if j < k {
      TerminalIsQuiet(worlds, steps, j, k - 1);
      TerminalStep(worlds[k - 1], steps[k - 1]);
    }
  }

  // ---- The pipe to the client --------------------------------------------------------------

  /** What a step of the server writes: the response it just gave. */
  function Writes(step: Step, responses: seq<S.Response>): seq<S.Response> {
    if step.Serve? && responses != [] && (step.step == S.Reply(true) || (step.step.Respond? && step.step.written)) then
      [responses[|responses| - 1]]
    else []
  }

  /** What a step of the client reads: the first response in the pipe. */
  function Reads(step: Step, pipe: seq<S.Response>): seq<S.Response> {
    if step.Receive? && pipe != [] then [pipe[0]] else []
  }

  /** The responses the server wrote, in order. */
  ghost function Given(worlds: seq<World>, steps: seq<Step>, k: nat): seq<S.Response>
    requires k <= |steps| < |worlds|
  {
    if k == 0 then [] else Given(worlds, steps, k - 1) + Writes(steps[k - 1], worlds[k].server.responses)
  }

  /** The responses the client read, in order. */
  ghost function Taken(worlds: seq<World>, steps: seq<Step>, k: nat): seq<S.Response>
    requires k <= |steps| < |worlds|
  {
    if k == 0 then [] else Taken(worlds, steps, k - 1) + Reads(steps[k - 1], worlds[k - 1].toClient)
  }

  /** No response is lost, doubled or overtaken between the two ends. */
  lemma {:induction false} PipeInOrder(worlds: seq<World>, steps: seq<Step>, k: nat)
    requires Run(worlds, steps) && k < |worlds|
    ensures Given(worlds, steps, k) == Taken(worlds, steps, k) + worlds[k].toClient
  {
    if k == 0 {
    } else {
      hide Apply, Enabled, InitWorld, Writes, Reads;
      PipeInOrder(worlds, steps, k - 1);
      PipeStep(worlds[k - 1], steps[k - 1]);
      assert worlds[k] == Apply(worlds[k - 1], steps[k - 1]);
      PipeSum(Given(worlds, steps, k - 1), Taken(worlds, steps, k - 1), worlds[k - 1].toClient, worlds[k].toClient,
              Writes(steps[k - 1], worlds[k].server.responses), Reads(steps[k - 1], worlds[k - 1].toClient));
    }
  }

  lemma PipeSum(given: seq<S.Response>, taken: seq<S.Response>, before: seq<S.Response>, after: seq<S.Response>,
                written: seq<S.Response>, read: seq<S.Response>)
    requires given == taken + before && read + after == before + written
    ensures given + written == taken + read + after
  {
    assert given + written == taken + (before + written);
    assert taken + read + after == taken + (read + after);
  }

  lemma PipeStep(w: World, step: Step)
    requires Enabled(w, step)
    ensures var v := Apply(w, step); Reads(step, w.toClient) + v.toClient == w.toClient + Writes(step, v.server.responses)
  {
    hide S.Apply, S.Enabled, S.WellFormed, Received, Requested, Failed;
    if step.Serve? {
      RespondsBy(w.server, step.step);
    }
  }

  lemma RespondsBy(s: S.Server, step: S.Step)
    requires S.WellFormed(s) && S.Enabled(s, step)
    ensures |S.Apply(s, step).responses| > |s.responses| <==> step.Reply? || step.Respond?
  {
    if step.Read? && step.message.Ask? {
      ReceivedAdds(s, step.message.request);
    }
    hide S.Received;
  }

  // ---- What a promise is told --------------------------------------------------------------

  /** The server answered the request with this id with this code. */
  ghost predicate AnsweredWith(s: S.Server, id: int, code: S.Code) {
    exists n: nat | n < |s.requests| :: s.requests[n].id == id && S.Response(n, id, code) in s.responses
  }

  /**
   * The server takes the requests as they were sent, and whatever is in the other pipe, or settled a
   * promise, is an answer it gave.
   */
  ghost predicate Faithful(w: World) {
    w.server.requests + Asks(w.toServer) == w.client.sent &&
    (forall r | r in w.toClient :: AnsweredWith(w.server, r.id, r.code)) &&
    (forall x | x in w.client.settled && x.ending.Responded? :: AnsweredWith(w.server, x.id, x.ending.code))
  }

  lemma AnswersStay(s: S.Server, t: S.Server, id: int, code: S.Code)
    requires s.requests <= t.requests && s.responses <= t.responses && AnsweredWith(s, id, code)
    ensures AnsweredWith(t, id, code)
  {
    var n: nat :| n < |s.requests| && s.requests[n].id == id && S.Response(n, id, code) in s.responses;
    assert t.requests[n] == s.requests[n];
  }

  /** What a step of the server adds: the request it takes, and one answer at most. */
  lemma ServerAdds(s: S.Server, step: S.Step)
    requires S.WellFormed(s) && S.Enabled(s, step)
    ensures var t := S.Apply(s, step);
            t.requests == s.requests + (if step.Read? && step.message.Ask? then [step.message.request] else []) &&
            s.responses <= t.responses && |t.responses| <= |s.responses| + 1 &&
            (|t.responses| > |s.responses| ==>
               var last := t.responses[|s.responses|]; last.request < |t.requests| && last.id == t.requests[last.request].id)
  {
    if step.Read? && step.message.Ask? {
      ReceivedAdds(s, step.message.request);
    }
    hide S.Received, S.WellFormed;
  }

  lemma ReceivedAdds(s: S.Server, request: S.Request)
    ensures var t := S.Received(s, request); t.requests == s.requests + [request] && t.responses == s.responses
  {
  }

  lemma ServeFaithful(w: World, step: S.Step)
    requires Faithful(w) && Enabled(w, Serve(step))
    ensures Faithful(Apply(w, Serve(step)))
  {
    hide S.Apply, S.Enabled, S.WellFormed, AnsweredWith, Asks, Faithful;
    ServerAdds(w.server, step);
    ServedAsks(w, step);
    var v := Apply(w, Serve(step));
    AnswersLater(w, v.server);
    if |v.server.responses| > |w.server.responses| {
      LastIsAnswer(v.server);
    }
    ServedFaithful(w, v, if step.Read? && step.message.Ask? then [step.message.request] else []);
  }

  lemma ServedFaithful(w: World, v: World, adds: seq<S.Request>)
    requires Faithful(w) && v.client == w.client
    requires v.server.requests == w.server.requests + adds && Asks(w.toServer) == adds + Asks(v.toServer)
    requires forall r | r in w.toClient :: AnsweredWith(v.server, r.id, r.code)
    requires forall x | x in w.client.settled && x.ending.Responded? :: AnsweredWith(v.server, x.id, x.ending.code)
    requires v.toClient == w.toClient ||
             (v.server.responses != [] &&
              var last := v.server.responses[|v.server.responses| - 1];
              v.toClient == w.toClient + [last] && AnsweredWith(v.server, last.id, last.code))
    ensures Faithful(v)
  {
    hide AnsweredWith, Asks;
    assert w.server.requests + (adds + Asks(v.toServer)) == w.server.requests + adds + Asks(v.toServer);
  }

  lemma AnswersLater(w: World, t: S.Server)
    requires Faithful(w) && w.server.requests <= t.requests && w.server.responses <= t.responses
    ensures forall r | r in w.toClient :: AnsweredWith(t, r.id, r.code)
    ensures forall x | x in w.client.settled && x.ending.Responded? :: AnsweredWith(t, x.id, x.ending.code)
  {
    hide AnsweredWith;
    forall r | r in w.toClient ensures AnsweredWith(t, r.id, r.code) {
      AnswersStay(w.server, t, r.id, r.code);
    }
    forall x | x in w.client.settled && x.ending.Responded? ensures AnsweredWith(t, x.id, x.ending.code) {
      AnswersStay(w.server, t, x.id, x.ending.code);
    }
  }

  lemma ServedAsks(w: World, step: S.Step)
    requires Enabled(w, Serve(step))
    ensures Asks(w.toServer) ==
            (if step.Read? && step.message.Ask? then [step.message.request] else []) +
            Asks(if step.Read? then w.toServer[1..] else w.toServer)
  {
    hide S.Enabled, S.WellFormed;
  }

  lemma LastIsAnswer(s: S.Server)
    requires s.responses != []
    requires var last := s.responses[|s.responses| - 1]; last.request < |s.requests| && last.id == s.requests[last.request].id
    ensures var last := s.responses[|s.responses| - 1]; AnsweredWith(s, last.id, last.code)
  {
    var last := s.responses[|s.responses| - 1];
    assert last == S.Response(last.request, last.id, last.code);
    assert last in s.responses;
  }

  lemma ClientFaithful(w: World, step: Step)
    requires Faithful(w) && Enabled(w, step) && !step.Serve?
    ensures Faithful(Apply(w, step))
  {
    hide AnsweredWith, RejectAll, Without, Asks;
    match step
    case Connect(refusal, written) => SentFaithful(w, S.Initialize, refusal, written);
    case Build(refusal, written) => SentFaithful(w, S.Build, refusal, written);
    case Dispose(written) => SentFaithful(w, S.Shutdown, None, written);
    case Receive =>
      assert w.toClient[0] in w.toClient;
      RejectsOnly(w.client.pending, "PROTOCOL_ERROR");
    case AnswerCallback(callback, payload) => NotAsked(w.toServer, S.Answer(callback, payload));
    case Fail(error) => RejectsOnly(w.client.pending, error);
    case BeginAbort =>
    case FinishAbort => RejectsOnly(w.client.pending, "BUILD_CANCELLED");
    case CloseInput => NotAsked(w.toServer, S.EndOfInput);
  }

  lemma NotAsked(messages: seq<S.Message>, message: S.Message)
    requires !message.Ask?
    ensures Asks(messages + [message]) == Asks(messages)
  {
    AsksOfSum(messages, [message]);
    assert Asks([message]) == [];
  }

  lemma RejectsOnly(ids: seq<nat>, error: string)
    ensures forall x | x in RejectAll(ids, error) :: x.ending.Rejected?
  {
  }

  lemma SentFaithful(w: World, kind: S.Method, refusal: Option<S.Refusal>, written: bool)
    requires Faithful(w)
    ensures Faithful(Sent(w, kind, refusal, written))
  {
    hide AnsweredWith;
    var c := Requested(w.client, kind, refusal, written);
    AsksOfSum(w.toServer, WrittenSince(w.client.sent, c.sent));
    assert WrittenSince(w.client.sent, c.sent)[..] == WrittenSince(w.client.sent, c.sent);
  }

  lemma {:induction false} RunFaithful(worlds: seq<World>, steps: seq<Step>, k: nat)
    requires Run(worlds, steps) && k < |worlds|
    ensures Faithful(worlds[k])
  {
    if k > 0 {
      RunFaithful(worlds, steps, k - 1);
      RunKeeps(worlds, steps, k - 1);
      if steps[k - 1].Serve? {
        ServeFaithful(worlds[k - 1], steps[k - 1].step);
      } else {
        ClientFaithful(worlds[k - 1], steps[k - 1]);
      }
    }
  }

  /**
   * A promise that settles with an answer settles with the code the server answered its own request
   * with: the one the client sent under that id.
   */
  lemma PromiseTold(worlds: seq<World>, steps: seq<Step>, k: nat, id: nat, code: S.Code)
    requires Run(worlds, steps) && k < |worlds| && Settlement(id, Responded(code)) in worlds[k].client.settled
    ensures var s, sent := worlds[k].server, worlds[k].client.sent;
            exists n: nat | n < |s.requests| ::
              n < |sent| && s.requests[n] == sent[n] && sent[n].id == id && S.Response(n, id, code) in s.responses &&
              forall m | 0 <= m < |sent| && sent[m].id == id :: m == n
  {
    RunFaithful(worlds, steps, k);
    RunKeeps(worlds, steps, k);
    var s, sent := worlds[k].server, worlds[k].client.sent;
    assert AnsweredWith(s, id, code);
    var n: nat :| n < |s.requests| && s.requests[n].id == id && S.Response(n, id, code) in s.responses;
    assert sent[n] == s.requests[n];
  }
}
