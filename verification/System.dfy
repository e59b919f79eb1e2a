/** One client connected to one server session over an ordered channel, everything interleaved. */
module Systems {
  import opened Contracts
  import opened Messages
  import opened Codec
  import opened CodecTheorems
  import opened Store
  import opened StoreTheorems
  import opened Client
  import opened ClientRuns
  import opened ClientTheorems
  import Replies
  import Server
  import Streams

  /** `log` lists the operations the server executed, each with the ID source it found, and
      `received` counts the replies the client took from the channel. `cut` remembers that the
      transport reported a protocol violation: it lost the connection inside a frame. */
  datatype System<!I> = System(
    client: State,
    toServer: seq<Packet<PbRequest>>,
    toClient: seq<Packet<PbResponse>>,
    session: Session<I>,
    source: u64,
    serving: bool,
    log: seq<Turn>,
    received: nat,
    cut: bool)

  datatype Move =
    | ClientMoves(e: Event)
    | Transmits
    | Serves(sent: bool)
    | OthersIssue(later: u64)
    | ServerLeaves
    | Receives(stopLate: bool)

  ghost function Start<I>(now: int, first: u64): System<I> {
    System(ClientRuns.Initial(now), [], [], EmptySession(), first, true, [], 0, false)
  }

  /** How many requests the channel has taken. */
  function Accepted<I>(y: System<I>): nat { |y.log| + |y.toServer| }

  /** Client steps whose I/O results an ordered channel may produce: any failure at any time, but
      no request is reported sent before the channel took it, and no payload is made up. */
  predicate FairEvent<I>(y: System<I>, e: Event) {
    match e
    case SendEnds(None) => Accepted(y) == |y.client.shared.handed|
    case ReaderEnds(arrival, _) => arrival.Lost?
    case _ => true
  }

  predicate IsCut(fault: Fault) { fault.kind == Streams.ProtocolViolation }

  /** The transport lost the connection inside a frame. */
  predicate CutsInside(e: Event) {
    match e
    case OpenEnds(OpenFailed(fault)) => IsCut(fault)
    case SendEnds(Some(fault)) => IsCut(fault)
    case ReaderEnds(Lost(fault), _) => IsCut(fault)
    case _ => false
  }

  ghost predicate Possible<I>(y: System<I>, m: Move) {
    match m
    case ClientMoves(e) => Enabled(y.client, e) && FairEvent(y, e)
    case Transmits => y.client.writer.Sending? && Accepted(y) < |y.client.shared.handed|
    case Serves(_) => y.serving && y.toServer != []
    case OthersIssue(later) => Advances(y.source, later)
    case ServerLeaves => true
    case Receives(_) => y.client.reader.Receiving? && y.toClient != []
  }

  ghost function Executed<I>(host: Host<I>, y: System<I>, sent: bool): System<I>
    requires y.toServer != []
  {
    var decoded := DecodeRequest(y.toServer[0]);
    var served := Server.Dispatch(host, y.session, y.source, y.toServer[0]);
    var encoded := if served.reply.Ok? then EncodeResponse(served.reply.value) else Rejected(served.reply.failure);
    y.(toServer := y.toServer[1..],
       session := served.session,
       source := served.next,
       serving := encoded.Ok? && sent,
       log := if decoded.Ok? then y.log + [Turn(decoded.value.body, y.source)] else y.log,
       toClient := if encoded.Ok? && sent then y.toClient + [encoded.value] else y.toClient)
  }

  function Arrives<I>(y: System<I>, stopLate: bool): Event
    requires y.toClient != []
  {
    ReaderEnds(Got(DecodeResponse(y.toClient[0])), stopLate)
  }

  ghost function Moved<I>(host: Host<I>, y: System<I>, m: Move): System<I>
    requires Possible(y, m)
  {
    match m
    case ClientMoves(e) => y.(client := Next(y.client, e), cut := y.cut || CutsInside(e))
    case Transmits => y.(toServer := y.toServer + [y.client.writer.entry.payload])
    case Serves(sent) => Executed(host, y, sent)
    case OthersIssue(later) => y.(source := later)
    case ServerLeaves => y.(serving := false)
    case Receives(stopLate) =>
      y.(client := Next(y.client, Arrives(y, stopLate)), toClient := y.toClient[1..], received := y.received + 1)
  }

  // ---- the system invariant -----------------------------------------------------------------

  /** Every admitted call carries the encoding of its request, up to the channel. */
  ghost predicate Encodes(e: Entry) { EncodeRequest(e.request) == Ok(e.payload) }

  ghost predicate PayloadsOk(c: State) {
    && (forall id :: id in c.shared.pending ==> Encodes(c.shared.pending[id].entry))
    && (c.writer.Sending? ==> Encodes(c.writer.entry) && c.shared.handed != []
                              && c.shared.handed[|c.shared.handed| - 1] == c.writer.entry.request)
  }

  /** Call `i` of the submission order is on the wire and unanswered. */
  ghost predicate Outstanding(s: Shared, i: nat)
    requires i < |s.handed|
  {
    var id := s.handed[i].id;
    id in s.pending && s.pending[id].phase != Queued && s.pending[id].entry.request == s.handed[i]
  }

  /** While the session is open, exactly the calls the client has no reply for are on the wire. */
  ghost predicate WireOk(s: Shared, received: nat) {
    && received <= |s.handed|
    && (!s.closed ==> forall i :: received <= i < |s.handed| ==> Outstanding(s, i))
    && (!s.closed ==> forall i :: 0 <= i < received ==> s.handed[i].id !in s.pending)
  }

  /** The outcome of the `i`-th executed operation, by replaying the operations before it. */
  ghost function OutcomeAt<I>(host: Host<I>, log: seq<Turn>, i: nat): Outcome
    requires i < |log|
  {
    OutcomeOf(host, EmptySession(), log, i)
  }

  ghost function Reply<I>(host: Host<I>, y: System<I>, i: nat): Response
    requires i < |y.log| && i < |y.client.shared.handed|
  {
    Response(y.client.shared.handed[i].id, OutcomeAt(host, y.log, i), VERSION)
  }

  /** The channel holds the requests not yet executed and the replies not yet received, in order;
      the server executed the requests in submission order. */
  ghost predicate ChannelOk<I>(host: Host<I>, y: System<I>) {
    var handed := y.client.shared.handed;
    && Accepted(y) <= |handed| && y.received + |y.toClient| <= |y.log|
    && (y.serving ==> y.received + |y.toClient| == |y.log|)
    && (forall i :: 0 <= i < |y.log| ==> y.log[i].op == handed[i].body)
    && (forall i :: 0 <= i < |y.toServer| ==> EncodeRequest(handed[|y.log| + i]) == Ok(y.toServer[i]))
    && (forall i :: 0 <= i < |y.toClient| ==>
          EncodeResponse(Reply(host, y, y.received + i)) == Ok(y.toClient[i]))
  }

  /** Only the request being written may be missing from the channel. */
  ghost predicate FlowOk<I>(y: System<I>) {
    || y.client.writer.WriterDone?
    || (if y.client.writer.Sending? then |y.client.shared.handed| - 1 <= Accepted(y)
        else |y.client.shared.handed| == Accepted(y))
  }

  ghost predicate SessionOk<I>(host: Host<I>, y: System<I>, first: u64) {
    && Paced(host, EmptySession(), first, y.log)
    && y.session == After(host, EmptySession(), y.log)
    && Advances(SourceAfter(host, EmptySession<I>(), first, y.log), y.source)
  }

  predicate Blameless(cause: Cause, cut: bool) { cut || cause.kind != FailureKind.ProtocolViolation }

  /** Every reply a caller was given is its own operation's outcome; a caller is told of a
      protocol violation only after the transport was cut inside a frame. */
  ghost predicate Deserved<I>(host: Host<I>, y: System<I>, id: u64, result: CallResult) {
    match result
    case Answered(response) =>
      exists i :: 0 <= i < |y.log| && i < |y.client.shared.handed| && y.client.shared.handed[i].id == id
                  && response == Reply(host, y, i)
    case Failed(cause) => Blameless(cause, y.cut)
  }

  ghost predicate ResultsOk<I>(host: Host<I>, y: System<I>) {
    && (forall id :: id in y.client.shared.promises && |y.client.shared.promises[id]| == 1 ==>
          Deserved(host, y, id, y.client.shared.promises[id][0]))
    && (forall r :: r in y.client.shared.opening && r.Refused? ==> Blameless(r.cause, y.cut))
  }

  ghost predicate SystemInv<I>(host: Host<I>, y: System<I>, first: u64) {
    && ClientRuns.Inv(y.client) && PayloadsOk(y.client) && WireOk(y.client.shared, y.received)
    && ChannelOk(host, y) && FlowOk(y) && SessionOk(host, y, first) && ResultsOk(host, y)
  }

  lemma StartInv<I>(host: Host<I>, now: int, first: u64)
    ensures SystemInv(host, Start(now, first), first)
  {
    InitialInv(now);
  }

  // ---- client steps -------------------------------------------------------------------------

  lemma OnlySubmitAdmits(c: State, e: Event)
    requires QueueOk(c.shared) && Enabled(c, e) && !e.SubmitCall?
    ensures Next(c, e).shared.nextId == c.shared.nextId
  {
    hide QueueOk, Matches, Overdue, Fail, Settle;
    FailKeepsNextId(c.shared);
    FailKeepsNextId(c.shared.(started := true));
  }

  lemma FailKeepsNextId(s: Shared)
    ensures forall common, id, specific :: Fail(s, common, id, specific).nextId == s.nextId
    ensures forall results :: Settle(s, results).nextId == s.nextId
  {
    hide Without;
  }

  lemma SubmittedEncodes(c: State, e: Event)
    requires e.SubmitCall? && PayloadsOk(c)
    ensures PayloadsOk(Next(c, e))
  {
    hide Submit, EncodeRequest;
    var entry := SubmitAdmits(c.shared, e.op, e.until, e.stopped, c.now);
  }

  lemma WriterKeepsPayload(c: State, e: Event)
    requires QueueOk(c.shared) && Enabled(c, e) && !e.SubmitCall? && PayloadsOk(c) && LifeOk(c)
    requires Next(c, e).writer.Sending?
    ensures var d := Next(c, e);
            Encodes(d.writer.entry) && d.shared.handed != []
            && d.shared.handed[|d.shared.handed| - 1] == d.writer.entry.request
  {
    hide Encodes;
    if e.WriterTakes? {
      hide IncreasingQueue, Settle;
      assert c.shared.queued[0] in c.shared.queued;
    } else {
      CallsKeepWriting(c, e);
      hide QueueOk, Submit, Fail, Deliver, Sweep, FinishOpen, Connect, FinishSend;
      assert Next(c, e).writer == c.writer;
    }
  }

  lemma ClientKeepsPayloads(c: State, e: Event)
    requires ClientRuns.Inv(c) && Enabled(c, e) && PayloadsOk(c)
    ensures PayloadsOk(Next(c, e))
  {
    hide ClientRuns.Inv, Encodes, QueueOk, HandedOk, LifeOk, Next;
    InvParts(c);
    if e.SubmitCall? {
      SubmittedEncodes(c, e);
    } else {
      var d := Next(c, e);
      NextKeepsInv(c, e);
      InvParts(d);
      NextGrows(c, e);
      OnlySubmitAdmits(c, e);
      if d.writer.Sending? {
        WriterKeepsPayload(c, e);
      }
    }
  }

  /** The request just handed over is on the wire. */
  lemma NewlyHanded(c: State, e: Event)
    requires QueueOk(c.shared) && Enabled(c, e) && |Next(c, e).shared.handed| > |c.shared.handed|
    ensures |Next(c, e).shared.handed| == |c.shared.handed| + 1 && Outstanding(Next(c, e).shared, |c.shared.handed|)
  {
    if !e.WriterTakes? && !e.SendEnds? {
      hide QueueOk, Next;
      CallsKeepWriting(c, e);
    } else if e.WriterTakes? {
      hide IncreasingQueue, Without;
      if !c.shared.closed {
        assert c.shared.queued[0] in c.shared.queued;
      }
    } else {
      hide QueueOk, Fail;
      FailsKeepWriting(c.shared);
    }
  }

  /** Calls on the wire stay there unless a reply arrives or the session ends. */
  lemma ClientKeepsWire(c: State, e: Event, received: nat)
    requires ClientRuns.Inv(c) && Enabled(c, e) && WireOk(c.shared, received)
    requires !(e.ReaderEnds? && e.arrival.Got?)
    ensures WireOk(Next(c, e).shared, received)
  {
    hide ClientRuns.Inv, QueueOk, HandedOk, PromisesOk, LifeOk, Next;
    var d := Next(c, e);
    InvParts(c);
    NextKeepsInv(c, e);
    InvParts(d);
    NextGrows(c, e);
    if !d.shared.closed {
      forall i | received <= i < |d.shared.handed| ensures Outstanding(d.shared, i) {
        if i < |c.shared.handed| {
          StaysOutstanding(c, e, i);
        } else {
          NewlyHanded(c, e);
        }
      }
      forall i | 0 <= i < received ensures d.shared.handed[i].id !in d.shared.pending {
        StaysGone(c, e, i);
      }
    }
  }

  lemma StaysGone(c: State, e: Event, i: nat)
    requires ClientRuns.Inv(c) && Enabled(c, e) && i < |c.shared.handed| && c.shared.handed[i].id !in c.shared.pending
    ensures i < |Next(c, e).shared.handed| && Next(c, e).shared.handed[i].id !in Next(c, e).shared.pending
  {
    hide ClientRuns.Inv, PromisesOk, QueueOk, LifeOk, Next;
    InvParts(c);
    NextGrows(c, e);
    assert c.shared.handed[i] in c.shared.handed;
  }

  lemma StaysOutstanding(c: State, e: Event, i: nat)
    requires ClientRuns.Inv(c) && Enabled(c, e) && i < |c.shared.handed| && Outstanding(c.shared, i)
    requires !Next(c, e).shared.closed && c.shared.handed <= Next(c, e).shared.handed
    requires !(e.ReaderEnds? && e.arrival.Got? && e.arrival.decoded.Ok?
               && e.arrival.decoded.value.id == c.shared.handed[i].id)
    ensures Outstanding(Next(c, e).shared, i)
  {
    hide ClientRuns.Inv, QueueOk, HandedOk, Next, LifeOk, Matches;
    var d := Next(c, e);
    var request := c.shared.handed[i];
    InvParts(c);
    NextKeepsInv(c, e);
    InvParts(d);
    NextGrows(c, e);
    if request.id !in d.shared.pending {
      CallsEndForTheirOwnReason(c, e, request.id);
    }
    assert request in d.shared.handed;
    HandedIsNotQueued(d.shared, request);
  }

  // ---- results ------------------------------------------------------------------------------

  /** Whatever the step completes, it completes with a failure, and without a cut with one that
      accuses nobody. */
  ghost predicate AddsBlameless(s: Shared, t: Shared, cut: bool) {
    && (forall id :: id in t.promises && |t.promises[id]| == 1 ==>
          || (id in s.promises && s.promises[id] == t.promises[id])
          || (t.promises[id][0].Failed? && Blameless(t.promises[id][0].cause, cut)))
    && (forall r :: r in t.opening ==> r in s.opening || r.Connected? || Blameless(r.cause, cut))
  }

  lemma SettleBlameless(s: Shared, results: map<u64, CallResult>, cut: bool)
    requires forall id :: id in results ==> results[id].Failed? && Blameless(results[id].cause, cut)
    ensures AddsBlameless(s, Settle(s, results), cut)
  {
    hide Without, Blameless;
    var t := Settle(s, results);
    forall id | id in t.promises && |t.promises[id]| == 1
      ensures s.promises[id] == t.promises[id] || (t.promises[id][0].Failed? && Blameless(t.promises[id][0].cause, cut))
    {
      if id in results {
        assert t.promises[id] == s.promises[id] + [results[id]];
        assert s.promises[id] == [];
      }
    }
  }

  lemma FailBlameless(s: Shared, common: Cause, id: u64, specific: Cause, cut: bool)
    requires Blameless(common, cut) && Blameless(specific, cut)
    ensures AddsBlameless(s, Fail(s, common, id, specific), cut)
  {
    hide Settle, Blameless;
    SettleBlameless(s, Verdicts(s.pending, common, id, specific), cut);
    SettleKeepsOpening(s, Verdicts(s.pending, common, id, specific));
  }

  lemma SettleKeepsOpening(s: Shared, results: map<u64, CallResult>)
    ensures Settle(s, results).opening == s.opening
  {
  }

  /** Every fair step of the client adds blameless failures only. */
  lemma FairStepsAreBlameless<I>(y: System<I>, e: Event, cut: bool)
    requires ClientRuns.Inv(y.client) && Enabled(y.client, e) && FairEvent(y, e) && (CutsInside(e) ==> cut)
    ensures AddsBlameless(y.client.shared, Next(y.client, e).shared, cut)
  {
    hide ClientRuns.Inv, Settle, Fail, Submit, Matches, Sweep, FinishOpen, AddsBlameless;
    var s := y.client.shared;
    NoNews(s, cut);
    var other := Cause(TransportFailure, 0);
    match e {
      case ConnectCall(usable, until, stopped, stopLate, spawn) =>
        ConnectIsBlameless(s, usable, y.client.now >= until, stopped, stopLate, spawn, cut);
      case StopConnect => SameIsBlameless(s, s.(shutdown := true), cut);
      case CloseCall => FailBlameless(s, Cause(Cancelled, 0), 0, other, cut);
      case OpenEnds(result) => OpeningIsBlameless(s, result, y.client.now >= y.client.writer.until, cut);
      case SubmitCall(op, until, stopped) => SubmitIsBlameless(s, op, until, stopped, y.client.now, cut);
      case WriterTakes(stopLate) =>
        if !s.closed {
          var id := s.queued[0].request.id;
          SettleBlameless(s, map[id := Failed(CauseOf(id in y.client.stops || stopLate))], cut);
          SameIsBlameless(s, SetPhase(s, id, Writing).(queued := s.queued[1..],
                                                       handed := s.handed + [s.queued[0].request]), cut);
        }
      case SendEnds(fault) =>
        SameIsBlameless(s, SetPhase(s, y.client.writer.entry.request.id, Sent), cut);
        if fault.Some? {
          FailBlameless(s, Cause(Disconnected, 0), y.client.writer.entry.request.id, Translate(fault.value), cut);
        }
      case ReaderEnds(arrival, _) => FailBlameless(s, Translate(arrival.fault), 0, other, cut);
      case MonitorPasses(seen) => SweepIsBlameless(s, seen, y.client.now, cut);
      case _ =>
    }
  }

  lemma SameIsBlameless(s: Shared, t: Shared, cut: bool)
    requires t.promises == s.promises && t.opening == s.opening
    ensures AddsBlameless(s, t, cut)
  {
  }

  lemma ConnectIsBlameless(s: Shared, usable: bool, expired: bool, stopped: bool, stopLate: bool, spawn: Spawn, cut: bool)
    ensures AddsBlameless(s, Connect(s, usable, expired, stopped, stopLate, spawn), cut)
  {
    hide Fail;
    var other := Cause(TransportFailure, 0);
    FailBlameless(s.(started := true), CauseOf(stopped || stopLate), 0, other, cut);
    if spawn.SpawnFailed? {
      FailBlameless(s.(started := true), Cause(InternalFailure, spawn.code), 0, other, cut);
    }
  }

  lemma OpeningIsBlameless(s: Shared, result: Opened, expired: bool, cut: bool)
    requires result.OpenFailed? && IsCut(result.fault) ==> cut
    ensures AddsBlameless(s, FinishOpen(s, result, expired), cut)
  {
    hide Fail;
    var other := Cause(TransportFailure, 0);
    if result.OpenFailed? {
      FailBlameless(s, Translate(result.fault), 0, other, cut);
    }
    FailBlameless(s, Cause(InternalFailure, 0), 0, other, cut);
    FailBlameless(s, Cause(Cancelled, 0), 0, other, cut);
    FailBlameless(s, Cause(Timeout, 0), 0, other, cut);
  }

  lemma SubmitIsBlameless(s: Shared, op: Operation, until: int, stopped: bool, now: int, cut: bool)
    ensures AddsBlameless(s, Submit(s, op, until, stopped, now).shared, cut)
  {
    hide EncodeRequest;
  }

  lemma SweepIsBlameless(s: Shared, seen: set<u64>, now: int, cut: bool)
    ensures AddsBlameless(s, Sweep(s, seen, now), cut)
  {
    hide Fail, Settle, Overdue;
    var flying := OverdueInFlight(s, seen, now);
    if flying != {} {
      FailBlameless(s, Cause(Disconnected, 0), Least(flying), CauseOf(Least(flying) in seen), cut);
    }
    SettleBlameless(s, Expiries(seen, OverdueQueued(s, seen, now)), cut);
  }

  // ---- moves --------------------------------------------------------------------------------

  /** Later history extends earlier history. */
  ghost predicate Extends<I>(y: System<I>, z: System<I>) {
    y.log <= z.log && y.client.shared.handed <= z.client.shared.handed && (y.cut ==> z.cut)
  }

  lemma RepliesStay<I>(host: Host<I>, y: System<I>, z: System<I>, i: nat)
    requires Extends(y, z) && i < |y.log| && i < |y.client.shared.handed|
    ensures Reply(host, z, i) == Reply(host, y, i)
  {
    hide Take, After;
    assert z.log[..i] == y.log[..i];
  }

  lemma DeservedStays<I>(host: Host<I>, y: System<I>, z: System<I>, id: u64, result: CallResult)
    requires Extends(y, z) && Deserved(host, y, id, result)
    ensures Deserved(host, z, id, result)
  {
    hide Reply;
    if result.Answered? {
      var i :| 0 <= i < |y.log| && i < |y.client.shared.handed| && y.client.shared.handed[i].id == id
               && result.response == Reply(host, y, i);
      RepliesStay(host, y, z, i);
      assert z.client.shared.handed[i].id == id;
    }
  }

  lemma BlamelessKeepsResults<I>(host: Host<I>, y: System<I>, z: System<I>)
    requires Extends(y, z) && ResultsOk(host, y) && AddsBlameless(y.client.shared, z.client.shared, z.cut)
    ensures ResultsOk(host, z)
  {
    assert y.cut ==> z.cut;
    hide Extends;
    var promises := z.client.shared.promises;
    forall id | id in promises && |promises[id]| == 1 ensures Deserved(host, z, id, promises[id][0]) {
      if id in y.client.shared.promises && y.client.shared.promises[id] == promises[id] {
        DeservedStays(host, y, z, id, promises[id][0]);
      }
    }
  }

  lemma HandingKeepsChannel<I>(host: Host<I>, y: System<I>, z: System<I>)
    requires ChannelOk(host, y) && z == y.(client := z.client, cut := z.cut) && Extends(y, z)
    ensures ChannelOk(host, z)
  {
    hide Reply, EncodeRequest, EncodeResponse;
    forall i | 0 <= i < |z.toClient| ensures EncodeResponse(Reply(host, z, z.received + i)) == Ok(z.toClient[i]) {
      RepliesStay(host, y, z, y.received + i);
    }
  }

  lemma ClientKeepsFlow<I>(y: System<I>, e: Event, cut: bool)
    requires ClientRuns.Inv(y.client) && Enabled(y.client, e) && FairEvent(y, e) && FlowOk(y)
    ensures FlowOk(y.(client := Next(y.client, e), cut := cut))
  {
    hide ClientRuns.Inv, QueueOk, HandedOk, PromisesOk;
    InvParts(y.client);
    if !e.WriterTakes? && !e.SendEnds? {
      CallsKeepWriting(y.client, e);
      hide Submit, Fail, Deliver, Sweep, FinishOpen, Connect;
    } else {
      hide Fail, Settle;
      FailsKeepWriting(y.client.shared);
      FailsAreClosed(y.client.shared);
      SettleKeepsHanded(y.client.shared);
    }
  }

  lemma ClientMoveKeepsInv<I>(host: Host<I>, y: System<I>, first: u64, e: Event)
    requires SystemInv(host, y, first) && Enabled(y.client, e) && FairEvent(y, e)
    ensures SystemInv(host, y.(client := Next(y.client, e), cut := y.cut || CutsInside(e)), first)
  {
    hide ClientRuns.Inv, PayloadsOk, WireOk, ChannelOk, FlowOk, ResultsOk, Next, AddsBlameless, Enabled;
    var z := y.(client := Next(y.client, e), cut := y.cut || CutsInside(e));
    NextKeepsInv(y.client, e);
    NextGrows(y.client, e);
    ClientKeepsPayloads(y.client, e);
    ClientKeepsWire(y.client, e, y.received);
    HandingKeepsChannel(host, y, z);
    ClientKeepsFlow(y, e, z.cut);
    FairStepsAreBlameless(y, e, z.cut);
    BlamelessKeepsResults(host, y, z);
  }

  lemma TransmitKeepsInv<I>(host: Host<I>, y: System<I>, first: u64)
    requires SystemInv(host, y, first) && Possible(y, Transmits)
    ensures SystemInv(host, Moved(host, y, Transmits), first)
  {
    hide ClientRuns.Inv, WireOk, EncodeRequest, EncodeResponse, Deserved, Paced, After, SourceAfter, OutcomeAt;
    var z := Moved(host, y, Transmits);
    forall i | 0 <= i < |z.toClient| ensures EncodeResponse(Reply(host, z, z.received + i)) == Ok(z.toClient[i]) {
      RepliesStay(host, y, z, y.received + i);
    }
    SameResults(host, y, z);
  }

  /** Results look at the history only. */
  lemma SameResults<I>(host: Host<I>, y: System<I>, z: System<I>)
    requires ResultsOk(host, y) && y.log <= z.log && z.client == y.client && z.cut == y.cut
    ensures ResultsOk(host, z)
  {
    hide Deserved;
    var promises := z.client.shared.promises;
    forall id | id in promises && |promises[id]| == 1 ensures Deserved(host, z, id, promises[id][0]) {
      DeservedStays(host, y, z, id, promises[id][0]);
    }
  }

  /** What an accepted request decodes to, and who may answer it. */
  lemma AcceptedIsExecuted<I>(host: Host<I>, y: System<I>, request: Request)
    requires y.toServer != [] && EncodeRequest(request) == Ok(y.toServer[0])
    ensures request.id != 0 && DecodeRequest(y.toServer[0]) == Ok(request)
    ensures var t := Execute(host, y.session, y.source, request.body);
            Server.Dispatch(host, y.session, y.source, y.toServer[0])
            == Server.Served(t.session, t.next, Ok(Response(request.id, t.outcome, VERSION)))
  {
    hide Execute, ReadOperation, WriteOperation, ByteSize, RequestNode, DecodeRequest;
    EncodedRequestDecodes(request);
  }

  lemma AdvancesTransitive(a: u64, b: u64, c: u64)
    requires Advances(a, b) && Advances(b, c)
    ensures Advances(a, c)
  {
  }

  lemma ReachableSession<I>(host: Host<I>, y: System<I>, first: u64)
    requires ValidHost(host) && SessionOk(host, y, first)
    ensures ValidSession(host, y.session, y.source)
  {
    hide ValidHost, ValidSession, After, SourceAfter, Paced;
    EmptyIsValid(host, first);
    RunKeepsValid(host, EmptySession(), first, y.log);
    AdvanceKeepsValid(host, y.session, SourceAfter(host, EmptySession<I>(), first, y.log), y.source);
  }

  /** Executing one more operation extends the replay by one turn. */
  lemma OneMoreTurn<I>(host: Host<I>, y: System<I>, first: u64, turn: Turn)
    requires SessionOk(host, y, first) && turn.next == y.source
    ensures var t, longer := Take(host, y.session, turn), y.log + [turn];
            && Paced(host, EmptySession(), first, longer)
            && t.session == After(host, EmptySession(), longer)
            && t.next == SourceAfter(host, EmptySession(), first, longer)
            && t.outcome == OutcomeAt(host, longer, |y.log|)
  {
    hide Execute;
    var longer := y.log + [turn];
    assert longer[..|y.log|] == y.log;
  }

  lemma ServeKeepsChannel<I>(host: Host<I>, y: System<I>, first: u64, sent: bool)
    requires ValidHost(host) && SystemInv(host, y, first) && Possible(y, Serves(sent))
    ensures var z := Executed(host, y, sent); ChannelOk(host, z) && SessionOk(host, z, first) && Extends(y, z)
  {
    hide ValidHost, ClientRuns.Inv, PayloadsOk, WireOk, ResultsOk, Execute, Server.Dispatch, DecodeRequest,
         EncodeRequest, EncodeResponse, Paced, After, SourceAfter, OutcomeAt;
    var n := |y.log|;
    var request := y.client.shared.handed[n];
    var z := Executed(host, y, sent);
    var turn := Turn(request.body, y.source);
    AcceptedIsExecuted(host, y, request);
    ReachableSession(host, y, first);
    Replies.EveryReplyEncodes(host, y.session, y.source, request.body, request.id);
    OneMoreTurn(host, y, first, turn);
    assert z.log == y.log + [turn];
    assert Reply(host, z, n) == Response(request.id, Take(host, y.session, turn).outcome, VERSION);
    forall i | 0 <= i < |z.toClient| ensures EncodeResponse(Reply(host, z, z.received + i)) == Ok(z.toClient[i]) {
      if i < |y.toClient| {
        RepliesStay(host, y, z, y.received + i);
      }
    }
  }

  lemma ServeKeepsInv<I>(host: Host<I>, y: System<I>, first: u64, sent: bool)
    requires ValidHost(host) && SystemInv(host, y, first) && Possible(y, Serves(sent))
    ensures SystemInv(host, Executed(host, y, sent), first)
  {
    var z := Executed(host, y, sent);
    ServeKeepsChannel(host, y, first, sent);
    hide ValidHost, ClientRuns.Inv, PayloadsOk, WireOk, SessionOk, ResultsOk, EncodeRequest, EncodeResponse, Reply,
         Server.Dispatch, DecodeRequest;
    AcceptedIsExecuted(host, y, y.client.shared.handed[|y.log|]);
    SameResults(host, y, z);
  }

  /** The reply at the head of the channel answers the oldest call on the wire. */
  lemma HeadReply<I>(host: Host<I>, y: System<I>)
    requires ChannelOk(host, y) && y.toClient != []
    ensures y.received < |y.log| && y.received < |y.client.shared.handed|
    ensures DecodeResponse(y.toClient[0]) == Ok(Reply(host, y, y.received))
    ensures Matches(y.client.shared.handed[y.received].body, Reply(host, y, y.received).body)
  {
    hide EncodeResponse, DecodeResponse, Matches, After, EncodeRequest;
    var i := y.received;
    assert EncodeResponse(Reply(host, y, y.received + 0)) == Ok(y.toClient[0]);
    EncodedResponseDecodes(Reply(host, y, i));
    Server.OutcomesMatch(host, After(host, EmptySession(), y.log[..i]), y.log[i].next, y.log[i].op);
  }

  /** Receiving that reply answers the call, or ends the session for the call's own deadline or token. */
  lemma ReceiveIs(c: State, reply: Response, stopLate: bool)
    requires c.reader.Receiving? && !c.shared.closed && reply.id in c.shared.pending
    requires c.shared.pending[reply.id].phase != Queued
    requires Matches(c.shared.pending[reply.id].entry.request.body, reply.body)
    ensures var t := Next(c, ReaderEnds(Got(Ok(reply)), stopLate)).shared;
            if reply.id in c.stops || c.now >= c.shared.pending[reply.id].entry.until
            then t == Fail(c.shared, Cause(Disconnected, 0), reply.id, CauseOf(reply.id in c.stops || stopLate))
            else t == Settle(c.shared, map[reply.id := Answered(reply)])
  {
    hide Fail, Settle;
  }

  lemma AnswerKeepsResults<I>(host: Host<I>, y: System<I>, z: System<I>, i: nat)
    requires ResultsOk(host, y) && Extends(y, z) && i < |y.log| && i < |y.client.shared.handed|
    requires PromisesOk(y.client.shared) && Reply(host, y, i).id in y.client.shared.pending
    requires z.client.shared == Settle(y.client.shared, map[Reply(host, y, i).id := Answered(Reply(host, y, i))])
    ensures ResultsOk(host, z)
  {
    hide Without, OutcomeAt;
    var promises := z.client.shared.promises;
    forall id | id in promises && |promises[id]| == 1 ensures Deserved(host, z, id, promises[id][0]) {
      if id == Reply(host, y, i).id {
        RepliesStay(host, y, z, i);
        assert promises[id] == [Answered(Reply(host, y, i))];
        assert z.client.shared.handed[i].id == id;
      } else {
        DeservedStays(host, y, z, id, promises[id][0]);
      }
    }
  }

  /** The client takes the head reply from the channel. */
  ghost predicate TakesReply<I>(host: Host<I>, y: System<I>, e: Event, reply: Response) {
    && y.received < |y.log| && y.received < |y.client.shared.handed|
    && reply == Reply(host, y, y.received)
    && e.ReaderEnds? && e.arrival == Got(Ok(reply)) && y.client.reader.Receiving?
    && Matches(y.client.shared.handed[y.received].body, reply.body)
  }

  lemma ReceiveKeepsResults<I>(host: Host<I>, y: System<I>, z: System<I>, e: Event, reply: Response)
    requires PromisesOk(y.client.shared) && WireOk(y.client.shared, y.received) && ResultsOk(host, y)
    requires TakesReply(host, y, e, reply) && z.client == Next(y.client, e) && Extends(y, z)
    ensures ResultsOk(host, z)
  {
    hide PromisesOk, ResultsOk, Matches, Fail, Settle, Reply, AddsBlameless;
    var c := y.client;
    if c.shared.closed {
      NoNews(c.shared, z.cut);
      BlamelessKeepsResults(host, y, z);
    } else {
      assert Outstanding(c.shared, y.received);
      ReplyId(host, y, y.received);
      ReceiveIs(c, reply, e.stopLate);
      if reply.id in c.stops || c.now >= c.shared.pending[reply.id].entry.until {
        FailBlameless(c.shared, Cause(Disconnected, 0), reply.id, CauseOf(reply.id in c.stops || e.stopLate), z.cut);
        BlamelessKeepsResults(host, y, z);
      } else {
        AnswerKeepsResults(host, y, z, y.received);
      }
    }
  }

  lemma ReplyId<I>(host: Host<I>, y: System<I>, i: nat)
    requires i < |y.log| && i < |y.client.shared.handed|
    ensures Reply(host, y, i).id == y.client.shared.handed[i].id
  {
    hide OutcomeAt;
  }

  lemma NoNews(s: Shared, cut: bool)
    ensures AddsBlameless(s, s, cut)
  {
  }

  lemma ReceiveKeepsWire<I>(host: Host<I>, y: System<I>, e: Event, reply: Response)
    requires ClientRuns.Inv(y.client) && WireOk(y.client.shared, y.received) && TakesReply(host, y, e, reply)
    ensures WireOk(Next(y.client, e).shared, y.received + 1)
  {
    hide ClientRuns.Inv, Next, QueueOk, PromisesOk, LifeOk, Outstanding, Reply, Matches;
    var c, d := y.client, Next(y.client, e);
    InvParts(c);
    ReplyId(host, y, y.received);
    SameHanded(c, e);
    FailsAreClosed(c.shared);
    if !d.shared.closed {
      NextGrows(c, e);
      forall i | y.received + 1 <= i < |d.shared.handed| ensures Outstanding(d.shared, i) {
        StaysOutstanding(c, e, i);
      }
      forall i | 0 <= i < y.received + 1 ensures d.shared.handed[i].id !in d.shared.pending {
        if i < y.received {
          StaysGone(c, e, i);
        } else {
          assert Outstanding(c.shared, i);
          AnsweredIsGone(c, reply, e.stopLate);
        }
      }
    }
  }

  lemma AnsweredIsGone(c: State, reply: Response, stopLate: bool)
    requires c.reader.Receiving? && !Next(c, ReaderEnds(Got(Ok(reply)), stopLate)).shared.closed
    ensures reply.id !in Next(c, ReaderEnds(Got(Ok(reply)), stopLate)).shared.pending
  {
    hide Fail, Without, Matches;
    FailsAreClosed(c.shared);
  }

  lemma SameHanded(c: State, e: Event)
    requires QueueOk(c.shared) && Enabled(c, e) && e.ReaderEnds?
    ensures Next(c, e).shared.handed == c.shared.handed
  {
    hide QueueOk, Next;
    CallsKeepWriting(c, e);
  }

  lemma ReceiveKeepsChannel<I>(host: Host<I>, y: System<I>, z: System<I>)
    requires ChannelOk(host, y) && FlowOk(y) && y.toClient != [] && z.client.shared.handed == y.client.shared.handed
    requires z == y.(client := z.client, toClient := y.toClient[1..], received := y.received + 1)
    requires z.client.writer == y.client.writer
    ensures ChannelOk(host, z) && FlowOk(z)
  {
    hide Reply, EncodeRequest, EncodeResponse;
    forall i | 0 <= i < |z.toClient| ensures EncodeResponse(Reply(host, z, z.received + i)) == Ok(z.toClient[i]) {
      RepliesStay(host, y, z, y.received + 1 + i);
      assert y.toClient[i + 1] == z.toClient[i];
    }
  }

  lemma ReceiveKeepsInv<I>(host: Host<I>, y: System<I>, first: u64, stopLate: bool)
    requires SystemInv(host, y, first) && Possible(y, Receives(stopLate))
    ensures SystemInv(host, Moved(host, y, Receives(stopLate)), first)
  {
    hide ClientRuns.Inv, PayloadsOk, WireOk, ChannelOk, FlowOk, ResultsOk, Next, DecodeResponse, QueueOk, PromisesOk,
         HandedOk, LifeOk, Reply, Matches, Paced, After, SourceAfter;
    HeadReply(host, y);
    var z := Moved(host, y, Receives(stopLate));
    var reply := Reply(host, y, y.received);
    var e := ReaderEnds(Got(Ok(reply)), stopLate);
    InvParts(y.client);
    SameHanded(y.client, e);
    ReaderKeepsWriter(y.client, e);
    NextKeepsInv(y.client, e);
    ClientKeepsPayloads(y.client, e);
    ReceiveKeepsWire(host, y, e, reply);
    ReceiveKeepsResults(host, y, z, e, reply);
    ReceiveKeepsChannel(host, y, z);
  }

  lemma ReaderKeepsWriter(c: State, e: Event)
    requires Enabled(c, e) && e.ReaderEnds?
    ensures Next(c, e).writer == c.writer
  {
    hide Deliver;
  }

  /** Every move of client, channel and server keeps the system invariant. */
  lemma MoveKeepsInv<I>(host: Host<I>, y: System<I>, first: u64, m: Move)
    requires ValidHost(host) && SystemInv(host, y, first) && Possible(y, m)
    ensures SystemInv(host, Moved(host, y, m), first)
  {
    hide ValidHost, SystemInv, Next, Executed, Enabled, FairEvent, DecodeResponse;
    match m {
      case ClientMoves(e) => ClientMoveKeepsInv(host, y, first, e);
      case Transmits => TransmitKeepsInv(host, y, first);
      case Serves(sent) => ServeKeepsInv(host, y, first, sent);
      case Receives(stopLate) => ReceiveKeepsInv(host, y, first, stopLate);
      case _ => OutsideKeepsInv(host, y, first, m);
    }
  }

  lemma OutsideKeepsInv<I>(host: Host<I>, y: System<I>, first: u64, m: Move)
    requires SystemInv(host, y, first) && Possible(y, m) && (m.OthersIssue? || m.ServerLeaves?)
    ensures SystemInv(host, Moved(host, y, m), first)
  {
    hide ClientRuns.Inv, PayloadsOk, WireOk, EncodeRequest, EncodeResponse, Paced, After, SourceAfter, Advances;
    var z := Moved(host, y, m);
    SameResults(host, y, z);
    if m.OthersIssue? {
      AdvancesTransitive(SourceAfter(host, EmptySession<I>(), first, y.log), y.source, m.later);
    }
    forall i | 0 <= i < |z.toClient| ensures EncodeResponse(Reply(host, z, z.received + i)) == Ok(z.toClient[i]) {
      RepliesStay(host, y, z, y.received + i);
    }
  }

  // ---- every run ----------------------------------------------------------------------------

  ghost predicate Steps<I>(host: Host<I>, y: System<I>, z: System<I>) {
    exists m :: Possible(y, m) && z == Moved(host, y, m)
  }

  ghost predicate Run<I>(host: Host<I>, states: seq<System<I>>, first: u64) {
    && states != []
    && (exists now :: states[0] == Start(now, first))
    && forall i :: 0 < i < |states| ==> Steps(host, states[i - 1], states[i])
  }

  lemma {:induction false} RunKeepsInv<I>(host: Host<I>, states: seq<System<I>>, first: u64, i: nat)
    requires ValidHost(host) && Run(host, states, first) && i < |states|
    ensures SystemInv(host, states[i], first)
  {
    hide ValidHost, SystemInv, Possible, Moved;
    if i == 0 {
      var now :| states[0] == Start(now, first);
      StartInv(host, now, first);
    } else {
      RunKeepsInv(host, states, first, i - 1);
      assert Steps(host, states[i - 1], states[i]);
      var m :| Possible(states[i - 1], m) && states[i] == Moved(host, states[i - 1], m);
      MoveKeepsInv(host, states[i - 1], first, m);
    }
  }
}
