/** What client and server guarantee together, over every run. */
module SystemTheorems {
  import opened Contracts
  import opened Codec
  import opened CodecTheorems
  import opened Store
  import opened StoreTheorems
  import opened Client
  import opened ClientRuns
  import opened ClientTheorems
  import opened Systems
  import Server

  /** The server executes the requests handed to the channel, each at most once and in submission
      order, and its session is the replay of exactly those operations. */
  lemma ExecutedInSubmissionOrder<I>(host: Host<I>, states: seq<System<I>>, first: u64, k: nat)
    requires ValidHost(host) && Systems.Run(host, states, first) && k < |states|
    ensures var y := states[k];
            && |y.log| <= |y.client.shared.handed|
            && (forall i :: 0 <= i < |y.log| ==> y.log[i].op == y.client.shared.handed[i].body)
            && (forall i, j :: 0 <= i < j < |y.log| ==> y.client.shared.handed[i].id < y.client.shared.handed[j].id)
            && y.session == After(host, EmptySession(), y.log)
            && ValidSession(host, y.session, y.source)
  {
    hide ValidHost, Systems.Run, ClientRuns.Inv, PayloadsOk, WireOk, FlowOk, ResultsOk, ValidSession, Paced, After,
         SourceAfter, PromisesOk, QueueOk, LifeOk, EncodeRequest, EncodeResponse;
    Systems.RunKeepsInv(host, states, first, k);
    InvParts(states[k].client);
    ReachableSession(host, states[k], first);
  }

  /** Every answer a caller ever gets is the outcome of that caller's own operation, executed at its
      place in the submission order; a failure names a protocol violation only after the transport
      was cut inside a frame. */
  lemma EveryAnswerIsItsOwn<I>(host: Host<I>, states: seq<System<I>>, first: u64, k: nat, id: u64)
    requires ValidHost(host) && Systems.Run(host, states, first) && k < |states|
    requires id in states[k].client.shared.promises
    ensures var y := states[k];
            var results := y.client.shared.promises[id];
            && |results| <= 1
            && (results != [] && results[0].Failed? && results[0].cause.kind == FailureKind.ProtocolViolation ==> y.cut)
            && (results != [] && results[0].Answered? ==>
                  exists i :: 0 <= i < |y.log| && i < |y.client.shared.handed|
                    && y.client.shared.handed[i].id == id && y.client.shared.handed[i].body == y.log[i].op
                    && results[0].response == Response(id, OutcomeAt(host, y.log, i), VERSION))
  {
    hide ValidHost, Systems.Run, ClientRuns.Inv, PayloadsOk, WireOk, FlowOk, SessionOk, QueueOk, HandedOk, LifeOk,
         EncodeRequest, EncodeResponse, OutcomeAt;
    Systems.RunKeepsInv(host, states, first, k);
    InvParts(states[k].client);
    var y := states[k];
    var results := y.client.shared.promises[id];
    if results != [] && results[0].Answered? {
      assert Deserved(host, y, id, results[0]);
      var i :| 0 <= i < |y.log| && i < |y.client.shared.handed| && y.client.shared.handed[i].id == id
               && results[0].response == Reply(host, y, i);
      assert y.client.shared.handed[i].body == y.log[i].op;
    }
  }

  // ---- the client's own runs ----------------------------------------------------------------

  ghost function Clients<I>(states: seq<System<I>>): (clients: seq<State>)
    ensures |clients| == |states| && forall i :: 0 <= i < |states| ==> clients[i] == states[i].client
  {
    seq(|states|, i requires 0 <= i < |states| => states[i].client)
  }

  /** Seen from the client, a move is one of its own steps; the rest of the system stutters. */
  lemma MoveIsClientStep<I>(host: Host<I>, y: System<I>, m: Move)
    requires Possible(y, m)
    ensures ClientTheorems.Steps(y.client, Moved(host, y, m).client)
  {
    hide Next, DecodeResponse;
    if m.ClientMoves? {
      assert Enabled(y.client, m.e);
    } else if m.Receives? {
      assert Enabled(y.client, Arrives(y, m.stopLate));
    } else {
      OthersLeaveClient(host, y, m);
      Stutter(y.client);
    }
  }

  lemma Stutter(c: State)
    ensures Enabled(c, Tick(c.now)) && Next(c, Tick(c.now)) == c
  {
  }

  /** The client states of a system run are a run of the client: every client theorem applies. */
  lemma ClientOfARunRuns<I>(host: Host<I>, states: seq<System<I>>, first: u64)
    requires Systems.Run(host, states, first)
    ensures ClientTheorems.Run(Clients(states))
  {
    hide Possible, Moved, Enabled, Next;
    var now :| states[0] == Start(now, first);
    assert Clients(states)[0] == ClientRuns.Initial(now);
    forall i | 0 < i < |states| ensures ClientTheorems.Steps(Clients(states)[i - 1], Clients(states)[i]) {
      assert Systems.Steps(host, states[i - 1], states[i]);
      var m :| Possible(states[i - 1], m) && states[i] == Moved(host, states[i - 1], m);
      MoveIsClientStep(host, states[i - 1], m);
    }
  }

  /** The answer to a pending call is the outcome of the operation it was admitted with. */
  lemma AnswersBelongToTheirCalls<I>(host: Host<I>, states: seq<System<I>>, first: u64, j: nat, k: nat, id: u64)
    returns (i: nat)
    requires ValidHost(host) && Systems.Run(host, states, first) && j <= k < |states|
    requires id in states[j].client.shared.pending && id in states[k].client.shared.promises
    requires states[k].client.shared.promises[id] != [] && states[k].client.shared.promises[id][0].Answered?
    ensures i < |states[k].log| && i < |states[k].client.shared.handed|
    ensures states[k].client.shared.handed[i] == states[j].client.shared.pending[id].entry.request
    ensures states[k].log[i].op == states[j].client.shared.pending[id].entry.request.body
    ensures states[k].client.shared.promises[id] == [Answered(Response(id, OutcomeAt(host, states[k].log, i), VERSION))]
  {
    hide ValidHost, Systems.Run, ClientTheorems.Run, OutcomeAt, PromisesOk;
    var y := states[k];
    var request := states[j].client.shared.pending[id].entry.request;
    ClientOfARunRuns(host, states, first);
    RequestsArriveAsSubmitted(Clients(states), j, k, id);
    EveryAnswerIsItsOwn(host, states, first, k, id);
    AdmittedId(Clients(states), j, id);
    i :| 0 <= i < |y.log| && i < |y.client.shared.handed|
         && y.client.shared.handed[i].id == id && y.client.shared.handed[i].body == y.log[i].op
         && y.client.shared.promises[id][0].response == Response(id, OutcomeAt(host, y.log, i), VERSION);
    assert y.client.shared.handed[i] in y.client.shared.handed;
    assert y.client.shared.handed[i] == request;
  }

  lemma AdmittedId(clients: seq<State>, j: nat, id: u64)
    requires ClientTheorems.Run(clients) && j < |clients| && id in clients[j].shared.pending
    ensures clients[j].shared.pending[id].entry.request.id == id
  {
    hide ClientTheorems.Run, ClientRuns.Inv, PromisesOk, QueueOk, HandedOk, LifeOk;
    ClientTheorems.RunKeepsInv(clients, j);
    InvParts(clients[j]);
    PendingId(clients[j].shared, id);
  }

  /** What a caller asked for is what the caller gets: if a call of `op` was admitted in step `j`
      and is ever answered, the answer carries the ID it was admitted under and the outcome of `op`,
      executed at that call's place among the operations the server executed. */
  lemma CallersGetWhatTheyAskedFor<I>(
    host: Host<I>, states: seq<System<I>>, first: u64, j: nat, k: nat, op: Operation, until: int, stopped: bool)
    returns (i: nat)
    requires ValidHost(host) && Systems.Run(host, states, first) && j + 1 <= k < |states|
    requires states[j + 1] == states[j].(client := Next(states[j].client, SubmitCall(op, until, stopped)))
    requires Submit(states[j].client.shared, op, until, stopped, states[j].client.now).immediate.None?
    requires var id := states[j].client.shared.nextId;
             && id in states[k].client.shared.promises && states[k].client.shared.promises[id] != []
             && states[k].client.shared.promises[id][0].Answered?
    ensures i < |states[k].log| && i < |states[k].client.shared.handed| && states[k].log[i].op == op
    ensures var id := states[j].client.shared.nextId;
            && states[k].client.shared.handed[i] == Request(id, op, VERSION)
            && states[k].client.shared.promises[id] == [Answered(Response(id, OutcomeAt(host, states[k].log, i), VERSION))]
  {
    hide ValidHost, Systems.Run, OutcomeAt, Submit;
    AdmissionIsExact(states[j].client.shared, op, until, stopped, states[j].client.now);
    i := AnswersBelongToTheirCalls(host, states, first, j + 1, k, states[j].client.shared.nextId);
  }

  // ---- no call is lost ----------------------------------------------------------------------

  /** Where a pending call can be. */
  ghost predicate InQueue(c: State, request: Request) { exists e :: e in c.shared.queued && e.request == request }
  ghost predicate BeingWritten(c: State, request: Request) { c.writer.Sending? && c.writer.entry.request == request }
  ghost predicate OnItsWay<I>(y: System<I>, request: Request) {
    exists i :: 0 <= i < |y.toServer| && DecodeRequest(y.toServer[i]) == Ok(request)
  }
  ghost predicate ComingBack<I>(host: Host<I>, y: System<I>, request: Request) {
    exists i, n :: 0 <= i < |y.toClient| && 0 <= n < |y.log| && n < |y.client.shared.handed|
      && y.client.shared.handed[n] == request && y.log[n].op == request.body
      && DecodeResponse(y.toClient[i]) == Ok(Response(request.id, OutcomeAt(host, y.log, n), VERSION))
  }

  /** While both ends hold the session, no call is lost: it is queued, being written, on its way to
      the server, or the outcome of its own execution is on its way back. */
  lemma NoCallIsLost<I>(host: Host<I>, states: seq<System<I>>, first: u64, k: nat, id: u64)
    requires ValidHost(host) && Systems.Run(host, states, first) && k < |states|
    requires states[k].serving && !states[k].client.shared.closed && id in states[k].client.shared.pending
    ensures var y, request := states[k], states[k].client.shared.pending[id].entry.request;
            || InQueue(y.client, request) || BeingWritten(y.client, request)
            || OnItsWay(y, request) || ComingBack(host, y, request)
  {
    hide ValidHost, Systems.Run, SystemInv, InQueue, BeingWritten, OnItsWay, ComingBack;
    Systems.RunKeepsInv(host, states, first, k);
    Located(host, states[k], first, id);
  }

  lemma Located<I>(host: Host<I>, y: System<I>, first: u64, id: u64)
    requires SystemInv(host, y, first) && y.serving && !y.client.shared.closed && id in y.client.shared.pending
    ensures var request := y.client.shared.pending[id].entry.request;
            || InQueue(y.client, request) || BeingWritten(y.client, request)
            || OnItsWay(y, request) || ComingBack(host, y, request)
  {
    hide ClientRuns.Inv, SessionOk, ResultsOk, OnItsWay, ComingBack, EncodeRequest, EncodeResponse, OutcomeAt,
         PromisesOk, IncreasingQueue, IncreasingRequests;
    var s := y.client.shared;
    InvParts(y.client);
    PendingId(s, id);
    var entry := s.pending[id].entry;
    if s.pending[id].phase == Queued {
      assert entry in s.queued;
    } else {
      var i :| 0 <= i < |s.handed| && s.handed[i] == entry.request;
      if i < |y.log| {
        OnTheWayBack(host, y, i - y.received);
      } else if i < Accepted(y) {
        OnTheWayThere(host, y, i - |y.log|);
      }
    }
  }

  lemma OnTheWayBack<I>(host: Host<I>, y: System<I>, i: nat)
    requires ChannelOk(host, y) && i < |y.toClient|
    ensures ComingBack(host, y, y.client.shared.handed[y.received + i])
  {
    hide EncodeRequest, EncodeResponse, DecodeResponse, OutcomeAt;
    var n := y.received + i;
    assert EncodeResponse(Reply(host, y, y.received + i)) == Ok(y.toClient[i]);
    EncodedResponseDecodes(Reply(host, y, n));
    assert DecodeResponse(y.toClient[i])
           == Ok(Response(y.client.shared.handed[n].id, OutcomeAt(host, y.log, n), VERSION));
  }

  lemma OnTheWayThere<I>(host: Host<I>, y: System<I>, i: nat)
    requires ChannelOk(host, y) && i < |y.toServer|
    ensures OnItsWay(y, y.client.shared.handed[|y.log| + i])
  {
    hide EncodeRequest, EncodeResponse, DecodeRequest, OutcomeAt;
    EncodedRequestDecodes(y.client.shared.handed[|y.log| + i]);
    assert DecodeRequest(y.toServer[i]) == Ok(y.client.shared.handed[|y.log| + i]);
  }

  /** Once the queue, the writer and the channel are empty, every admitted call has its answer. */
  lemma QuietMeansAnswered<I>(host: Host<I>, states: seq<System<I>>, first: u64, k: nat, id: u64)
    requires ValidHost(host) && Systems.Run(host, states, first) && k < |states|
    requires states[k].serving && !states[k].client.shared.closed && id in states[k].client.shared.promises
    requires states[k].client.shared.queued == [] && !states[k].client.writer.Sending?
    requires states[k].toServer == [] && states[k].toClient == []
    ensures id !in states[k].client.shared.pending && |states[k].client.shared.promises[id]| == 1
  {
    hide ValidHost, Systems.Run, SystemInv, DecodeRequest, DecodeResponse, OutcomeAt;
    if id in states[k].client.shared.pending {
      NoCallIsLost(host, states, first, k, id);
    }
    Systems.RunKeepsInv(host, states, first, k);
    assert PromisesOk(states[k].client.shared) by {
      ClientInv(host, states[k], first);
    }
  }

  lemma ClientInv<I>(host: Host<I>, y: System<I>, first: u64)
    requires SystemInv(host, y, first)
    ensures PromisesOk(y.client.shared) && QueueOk(y.client.shared) && LifeOk(y.client)
  {
    hide ClientRuns.Inv, PromisesOk, QueueOk, HandedOk, LifeOk, PayloadsOk, WireOk, ChannelOk, FlowOk, SessionOk, ResultsOk;
    InvParts(y.client);
  }

  /** Is the call the head reply answers overdue? */
  ghost predicate OldestOverdue<I>(y: System<I>) {
    && y.received < |y.client.shared.handed|
    && var id := y.client.shared.handed[y.received].id;
       && id in y.client.shared.pending
       && (id in y.client.stops || y.client.now >= y.client.shared.pending[id].entry.until)
  }

  /** A connected session ends only because it was closed, the transport failed, or a call on the
      wire ran over its own deadline or was cancelled. */
  lemma WhySessionsEnd<I>(host: Host<I>, y: System<I>, first: u64, m: Move)
    requires SystemInv(host, y, first) && Possible(y, m)
    requires y.client.shared.connected && !y.client.shared.closed && Moved(host, y, m).client.shared.closed
    ensures (m.Receives? && OldestOverdue(y))
            || (m.ClientMoves?
                && (m.e.CloseCall? || (m.e.SendEnds? && m.e.fault.Some?) || (m.e.ReaderEnds? && m.e.arrival.Lost?)
                    || (m.e.MonitorPasses? && OverdueInFlight(y.client.shared, m.e.seen, y.client.now) != {})))
  {
    hide ClientRuns.Inv, PayloadsOk, ChannelOk, FlowOk, SessionOk, ResultsOk, Executed, DecodeResponse, QueueOk,
         PromisesOk, Fail, Without, EncodeRequest, Matches, Overdue;
    ClientInv(host, y, first);
    if m.Receives? {
      ReceiveEnds(host, y, m.stopLate);
    } else if m.ClientMoves? {
      ClientEnds(y.client, m.e);
    } else {
      OthersLeaveClient(host, y, m);
    }
  }

  lemma OthersLeaveClient<I>(host: Host<I>, y: System<I>, m: Move)
    requires Possible(y, m) && !m.ClientMoves? && !m.Receives?
    ensures Moved(host, y, m).client == y.client
  {
    hide Server.Dispatch, DecodeRequest, EncodeResponse;
  }

  lemma ClientEnds(c: State, e: Event)
    requires LifeOk(c) && Enabled(c, e) && c.shared.connected && !c.shared.closed && Next(c, e).shared.closed
    ensures e.CloseCall? || (e.SendEnds? && e.fault.Some?) || e.ReaderEnds?
            || (e.MonitorPasses? && OverdueInFlight(c.shared, e.seen, c.now) != {})
  {
    hide Fail, Without, EncodeRequest, Matches, Overdue;
  }

  lemma ReceiveEnds<I>(host: Host<I>, y: System<I>, stopLate: bool)
    requires WireOk(y.client.shared, y.received) && ChannelOk(host, y) && Possible(y, Receives(stopLate))
    requires !y.client.shared.closed && Moved(host, y, Receives(stopLate)).client.shared.closed
    ensures OldestOverdue(y)
  {
    hide ChannelOk, DecodeResponse, Matches, Next, Reply, Fail, Without;
    HeadReply(host, y);
    ReplyId(host, y, y.received);
    assert Outstanding(y.client.shared, y.received);
    ReceiveIs(y.client, Reply(host, y, y.received), stopLate);
  }

  // ---- the server's workers -----------------------------------------------------------------

  /** The server side of the system stands where worker `k` stands. */
  ghost predicate Mirrors<I>(g: Server.State<I>, k: nat, y: System<I>) {
    && k < |g.slots| && (g.slots[k].Serving? || g.slots[k].Ending?)
    && y.session == g.slots[k].session && y.source == g.next && (y.serving <==> g.slots[k].Serving?)
  }

  /** What a worker's step means to the pair of client and worker `k`. */
  ghost function Seen<I>(host: Host<I>, g: Server.State<I>, k: nat, e: Server.Event): Move
    requires Server.Enabled(g, e)
  {
    if e.k != k then OthersIssue(Server.Next(host, g, e).next)
    else if e.Serves? then Systems.Serves(e.sent)
    else ServerLeaves
  }

  /** A worker steps, and the pair with it; worker `k` serves only what its client sent. */
  ghost predicate WorkerActs<I>(host: Host<I>, k: nat, g: Server.State<I>, y: System<I>, h: Server.State<I>, z: System<I>) {
    exists e: Server.Event ::
      && Server.Enabled(g, e) && h == Server.Next(host, g, e)
      && (e.k == k && e.Serves? ==> y.toServer != [] && y.toServer[0] == e.payload)
      && Possible(y, Seen(host, g, k, e)) && z == Moved(host, y, Seen(host, g, k, e))
  }

  /** The client or the channel of the pair moves while all workers stand. */
  ghost predicate PairActs<I>(host: Host<I>, y: System<I>, z: System<I>) {
    exists m: Move :: (m.ClientMoves? || m.Transmits? || m.Receives?) && Possible(y, m) && z == Moved(host, y, m)
  }

  /** A step of any worker can be followed by the pair, as long as worker `k` keeps its session. */
  lemma WorkerStepIsMove<I>(host: Host<I>, g: Server.State<I>, k: nat, e: Server.Event, y: System<I>)
    requires ValidHost(host) && Server.Inv(host, g) && Server.Enabled(g, e) && Mirrors(g, k, y)
    requires var h := Server.Next(host, g, e); k < |h.slots| && (h.slots[k].Serving? || h.slots[k].Ending?)
    requires e.k == k && e.Serves? ==> y.toServer != [] && y.toServer[0] == e.payload
    ensures Possible(y, Seen(host, g, k, e))
    ensures Mirrors(Server.Next(host, g, e), k, Moved(host, y, Seen(host, g, k, e)))
  {
    hide ValidHost, Server.Inv, Server.Dispatch, DecodeRequest, EncodeResponse, DecodeResponse, Advances, Next, Enabled,
         FairEvent;
    Server.NextKeepsInv(host, g, e);
  }

  lemma PairLeavesWorkers<I>(host: Host<I>, g: Server.State<I>, k: nat, y: System<I>, z: System<I>)
    requires Mirrors(g, k, y) && PairActs(host, y, z)
    ensures Mirrors(g, k, z) && Systems.Steps(host, y, z)
  {
    hide DecodeResponse, Next, Enabled, FairEvent;
  }

  /** A server with any number of workers and, beside it, the client of worker `k`, from the moment
      that worker accepted it and for as long as it keeps the session: steps of all workers, of the
      client and of the channel interleave freely. */
  ghost predicate JointRun<I>(host: Host<I>, k: nat, gs: seq<Server.State<I>>, ys: seq<System<I>>) {
    && 0 < |gs| == |ys| && Server.Inv(host, gs[0])
    && (forall i :: 0 <= i < |gs| ==> k < |gs[i].slots| && (gs[i].slots[k].Serving? || gs[i].slots[k].Ending?))
    && gs[0].slots[k].Serving? && gs[0].slots[k].session == EmptySession()
    && (exists now :: ys[0] == Start(now, gs[0].next))
    && (forall i :: 0 < i < |gs| ==> JointStep(host, k, gs[i - 1], ys[i - 1], gs[i], ys[i]))
  }

  ghost predicate JointStep<I>(host: Host<I>, k: nat, g: Server.State<I>, y: System<I>, h: Server.State<I>, z: System<I>) {
    WorkerActs(host, k, g, y, h, z) || (h == g && PairActs(host, y, z))
  }

  lemma JointStepIsStep<I>(host: Host<I>, k: nat, g: Server.State<I>, y: System<I>, h: Server.State<I>, z: System<I>)
    requires ValidHost(host) && Server.Inv(host, g) && Mirrors(g, k, y) && JointStep(host, k, g, y, h, z)
    requires k < |h.slots| && (h.slots[k].Serving? || h.slots[k].Ending?)
    ensures Server.Inv(host, h) && Mirrors(h, k, z) && Systems.Steps(host, y, z)
  {
    hide ValidHost, Server.Inv, Server.Next, Server.Enabled, Mirrors, Possible, Moved, PairActs, Seen;
    if WorkerActs(host, k, g, y, h, z) {
      var e: Server.Event :|
        && Server.Enabled(g, e) && h == Server.Next(host, g, e)
        && (e.k == k && e.Serves? ==> y.toServer != [] && y.toServer[0] == e.payload)
        && Possible(y, Seen(host, g, k, e)) && z == Moved(host, y, Seen(host, g, k, e));
      Server.NextKeepsInv(host, g, e);
      WorkerStepIsMove(host, g, k, e, y);
    } else {
      PairLeavesWorkers(host, g, k, y, z);
    }
  }

  lemma {:induction false} JointRunMirrors<I>(host: Host<I>, k: nat, gs: seq<Server.State<I>>, ys: seq<System<I>>, i: nat)
    requires ValidHost(host) && JointRun(host, k, gs, ys) && i < |gs|
    ensures Server.Inv(host, gs[i]) && Mirrors(gs[i], k, ys[i])
    ensures i > 0 ==> Systems.Steps(host, ys[i - 1], ys[i])
  {
    hide ValidHost, Server.Inv, JointStep, Systems.Steps;
    if i > 0 {
      JointRunMirrors(host, k, gs, ys, i - 1);
      assert JointStep(host, k, gs[i - 1], ys[i - 1], gs[i], ys[i]);
      hide Mirrors;
      JointStepIsStep(host, k, gs[i - 1], ys[i - 1], gs[i], ys[i]);
    }
  }

  /** Each connection of the whole server, with all workers interleaved, is a run of the system. */
  lemma ConnectionsAreSystemRuns<I>(host: Host<I>, k: nat, gs: seq<Server.State<I>>, ys: seq<System<I>>)
    requires ValidHost(host) && JointRun(host, k, gs, ys)
    ensures 0 < |gs| == |ys| && Systems.Run(host, ys, gs[0].next)
    ensures forall i :: 0 <= i < |gs| ==> Server.Inv(host, gs[i]) && Mirrors(gs[i], k, ys[i])
  {
    hide ValidHost, Server.Inv, JointStep, Systems.Steps, Mirrors;
    forall i | 0 <= i < |gs|
      ensures Server.Inv(host, gs[i]) && Mirrors(gs[i], k, ys[i]) && (i > 0 ==> Systems.Steps(host, ys[i - 1], ys[i]))
    {
      JointRunMirrors(host, k, gs, ys, i);
    }
  }

  /** On a server with any number of busy workers, a caller of connection `k` gets the outcome of
      the operation it asked for, in that worker's own session. */
  lemma CallersGetWhatTheyAskedForOnTheServer<I>(
    host: Host<I>, w: nat, gs: seq<Server.State<I>>, ys: seq<System<I>>, j: nat, k: nat, op: Operation, until: int,
    stopped: bool)
    returns (i: nat)
    requires ValidHost(host) && JointRun(host, w, gs, ys) && j + 1 <= k < |ys|
    requires ys[j + 1] == ys[j].(client := Next(ys[j].client, SubmitCall(op, until, stopped)))
    requires Submit(ys[j].client.shared, op, until, stopped, ys[j].client.now).immediate.None?
    requires var id := ys[j].client.shared.nextId;
             && id in ys[k].client.shared.promises && ys[k].client.shared.promises[id] != []
             && ys[k].client.shared.promises[id][0].Answered?
    ensures i < |ys[k].log| && ys[k].log[i].op == op
    ensures var id := ys[j].client.shared.nextId;
            ys[k].client.shared.promises[id] == [Answered(Response(id, OutcomeAt(host, ys[k].log, i), VERSION))]
    ensures w < |gs[k].slots| && !gs[k].slots[w].Listening?
            && gs[k].slots[w].session == After(host, EmptySession(), ys[k].log)
  {
    hide ValidHost, JointRun, Systems.Run, OutcomeAt, Submit, Server.Inv, After;
    ConnectionsAreSystemRuns(host, w, gs, ys);
    i := CallersGetWhatTheyAskedFor(host, ys, gs[0].next, j, k, op, until, stopped);
    ExecutedInSubmissionOrder(host, ys, gs[0].next, k);
    assert Mirrors(gs[k], w, ys[k]);
  }
}
