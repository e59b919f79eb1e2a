/** The system down to its bytes: both directions are byte pipes with partial writes and reads, and
    packets exist only as the payloads of frames. It refines the system of packets step by step. */
module ByteSystems {
  import opened Contracts
  import opened Messages
  import opened Codec
  import Budgets
  import opened CodecTheorems
  import opened Framing
  import opened Store
  import opened StoreTheorems
  import opened Client
  import opened ClientRuns
  import opened ClientTheorems
  import opened Systems
  import opened SystemTheorems
  import opened Wires
  import Server

  /** The message library: the bytes of a packet, and the packet some bytes parse to. */
  datatype WireForm = WireForm(
    request: Packet<PbRequest> -> Bytes,
    parseRequest: Bytes -> Packet<PbRequest>,
    response: Packet<PbResponse> -> Bytes,
    parseResponse: Bytes -> Packet<PbResponse>)

  ghost predicate RequestForm(w: WireForm, p: Packet<PbRequest>) {
    |w.request(p)| == p.size && w.parseRequest(w.request(p)) == p
  }
  ghost predicate ResponseForm(w: WireForm, p: Packet<PbResponse>) {
    |w.response(p)| == p.size && w.parseResponse(w.response(p)) == p
  }

  /** What is expected of it: encoder output takes its computed size and parses back. */
  ghost predicate Serializes(w: WireForm) {
    && (forall r :: EncodeRequest(r).Ok? ==> RequestForm(w, EncodeRequest(r).value))
    && (forall r :: EncodeResponse(r).Ok? ==> ResponseForm(w, EncodeResponse(r).value))
  }

  /** `begun` counts the requests whose sending has begun, `taken` the replies the client took. */
  datatype ByteSystem<!I> = ByteSystem(
    client: State,
    up: Pipe,
    down: Pipe,
    begun: nat,
    taken: nat,
    session: Session<I>,
    source: u64,
    serving: bool,
    log: seq<Turn>,
    cut: bool)

  datatype ByteMove =
    | ClientActs(e: Event)
    | ClientBegins
    | ClientWrites(n: nat)
    | ServerReads(n: nat)
    | ServerTakes
    | ServerWrites(n: nat)
    | ServerQuits
    | SourceMoves(later: u64)
    | ClientReads(n: nat)
    | ClientTakes(stopLate: bool)

  ghost function FirstState<I>(now: int, first: u64): ByteSystem<I> {
    ByteSystem(ClientRuns.Initial(now), EMPTY_PIPE, EMPTY_PIPE, 0, 0, EmptySession(), first, true, [], false)
  }

  /** The server is gone and everything it wrote was read, but the last bytes are only the beginning
      of a frame. */
  predicate Truncated<I>(b: ByteSystem<I>) {
    !b.serving && b.down.flight == [] && b.down.unread != [] && HeadOf(b.down.unread).Partial?
  }

  /** What the stream may report to the client. A send succeeds only once its frame is written. A
      receive reports a violation only for a bad length or an end inside a frame, a send only for an
      illegal size, which the payload of a request never has, and opening a pipe never does. */
  predicate Honest<I>(b: ByteSystem<I>, e: Event) {
    match e
    case OpenEnds(OpenFailed(fault)) => !IsCut(fault)
    case SendEnds(None) => b.begun == |b.client.shared.handed| && b.up.unwritten == []
    case SendEnds(Some(fault)) => !IsCut(fault)
    case ReaderEnds(Got(_), _) => false
    case ReaderEnds(Lost(fault), _) => IsCut(fault) ==> HeadOf(b.down.unread).Bad? || Truncated(b)
    case _ => true
  }

  ghost predicate CanMove<I>(b: ByteSystem<I>, m: ByteMove) {
    match m
    case ClientActs(e) => Enabled(b.client, e) && Honest(b, e)
    case ClientBegins =>
      b.client.writer.Sending? && b.begun < |b.client.shared.handed| && !b.up.broken && b.up.unwritten == []
    case ClientWrites(n) => n <= |b.up.unwritten|
    case ServerReads(n) => n <= |b.up.flight|
    case ServerTakes => b.serving && HeadOf(b.up.unread).Frame? && !b.down.broken && b.down.unwritten == []
    case ServerWrites(n) => n <= |b.down.unwritten|
    case ServerQuits => true
    case SourceMoves(later) => Advances(b.source, later)
    case ClientReads(n) => n <= |b.down.flight|
    case ClientTakes(_) => b.client.reader.Receiving? && HeadOf(b.down.unread).Frame?
  }

  /** The server takes one frame: parse, decode, dispatch, encode, and begin to send the reply. */
  ghost function Answer<I>(host: Host<I>, w: WireForm, b: ByteSystem<I>): ByteSystem<I>
    requires HeadOf(b.up.unread).Frame?
  {
    var packet := w.parseRequest(HeadOf(b.up.unread).payload);
    var decoded := DecodeRequest(packet);
    var served := Server.Dispatch(host, b.session, b.source, packet);
    var encoded := if served.reply.Ok? then EncodeResponse(served.reply.value) else Rejected(served.reply.failure);
    b.(up := Popped(b.up),
       session := served.session,
       source := served.next,
       serving := encoded.Ok?,
       log := if decoded.Ok? then b.log + [Turn(decoded.value.body, b.source)] else b.log,
       down := if encoded.Ok? then Begin(b.down, w.response(encoded.value)) else b.down)
  }

  function Taking(w: WireForm, payload: Bytes, stopLate: bool): (e: Event)
    ensures e.ReaderEnds?
  {
    ReaderEnds(Got(DecodeResponse(w.parseResponse(payload))), stopLate)
  }

  ghost function Acted<I>(b: ByteSystem<I>, e: Event): ByteSystem<I>
    requires Enabled(b.client, e)
  {
    b.(client := Next(b.client, e),
       cut := b.cut || CutsInside(e),
       up := if e.SendEnds? && e.fault.Some? then Break(b.up) else b.up)
  }

  ghost function AfterMove<I>(host: Host<I>, w: WireForm, b: ByteSystem<I>, m: ByteMove): ByteSystem<I>
    requires CanMove(b, m)
  {
    match m
    case ClientActs(e) => Acted(b, e)
    case ClientBegins => b.(up := Begin(b.up, w.request(b.client.writer.entry.payload)), begun := b.begun + 1)
    case ClientWrites(n) => b.(up := Write(b.up, n))
    case ServerReads(n) => b.(up := ReadSome(b.up, n))
    case ServerTakes => Answer(host, w, b)
    case ServerWrites(n) => b.(down := Write(b.down, n))
    case ServerQuits => b.(down := Break(b.down), serving := false)
    case SourceMoves(later) => b.(source := later)
    case ClientReads(n) => b.(down := ReadSome(b.down, n))
    case ClientTakes(stopLate) =>
      b.(client := Next(b.client, Taking(w, HeadOf(b.down.unread).payload, stopLate)), down := Popped(b.down),
         taken := b.taken + 1)
  }

  // ---- abstraction --------------------------------------------------------------------------

  ghost function RequestBytes(w: WireForm, packets: seq<Packet<PbRequest>>): (bytes: seq<Bytes>)
    ensures |bytes| == |packets| && forall i :: 0 <= i < |packets| ==> bytes[i] == w.request(packets[i])
  {
    seq(|packets|, i requires 0 <= i < |packets| => w.request(packets[i]))
  }
  ghost function ResponseBytes(w: WireForm, packets: seq<Packet<PbResponse>>): (bytes: seq<Bytes>)
    ensures |bytes| == |packets| && forall i :: 0 <= i < |packets| ==> bytes[i] == w.response(packets[i])
  {
    seq(|packets|, i requires 0 <= i < |packets| => w.response(packets[i]))
  }

  /** The byte pipes carry the packets of `y`, and everything else agrees. */
  ghost predicate Abstracts<I>(w: WireForm, b: ByteSystem<I>, y: System<I>) {
    && b.client == y.client && b.session == y.session && b.source == y.source && b.serving == y.serving
    && b.log == y.log && b.cut == y.cut && b.begun == Accepted(y) && b.taken == y.received
    && Carries(b.up, RequestBytes(w, y.toServer)) && Carries(b.down, ResponseBytes(w, y.toClient))
  }

  lemma StartsAlike<I>(w: WireForm, now: int, first: u64)
    ensures Abstracts(w, FirstState<I>(now, first), Start(now, first))
  {
    EmptyCarries();
    assert RequestBytes(w, []) == [] && ResponseBytes(w, []) == [];
  }

  lemma EncodedRequestForm(w: WireForm, r: Request, p: Packet<PbRequest>)
    requires Serializes(w) && EncodeRequest(r) == Ok(p)
    ensures RequestForm(w, p) && GoodLength(|w.request(p)|)
  {
    hide RequestNode, Budgets.CheckMessage, ReadOperation, EncodeRequest;
    EncodedRequestDecodes(r);
  }

  lemma EncodedResponseForm(w: WireForm, r: Response, p: Packet<PbResponse>)
    requires Serializes(w) && EncodeResponse(r) == Ok(p)
    ensures ResponseForm(w, p) && GoodLength(|w.response(p)|)
  {
    hide ResponseNode, Budgets.CheckMessage, ReadOutcome, EncodeResponse;
    EncodedResponseDecodes(r);
  }

  // ---- simulation ---------------------------------------------------------------------------

  lemma Stutters<I>(host: Host<I>, y: System<I>)
    ensures Systems.Steps(host, y, y)
  {
    Stutter(y.client);
    var m := ClientMoves(Tick(y.client.now));
    assert Possible(y, m) && Moved(host, y, m) == y;
  }

  lemma ActingIsAMove<I>(host: Host<I>, w: WireForm, b: ByteSystem<I>, y: System<I>, e: Event) returns (z: System<I>)
    requires Abstracts(w, b, y) && Enabled(b.client, e) && Honest(b, e)
    ensures Systems.Steps(host, y, z) && Abstracts(w, Acted(b, e), z)
  {
    hide Next, Enabled, Carries;
    var m := ClientMoves(e);
    assert Possible(y, m);
    z := Moved(host, y, m);
    BreakCarries(b.up, RequestBytes(w, y.toServer));
  }

  lemma BeginningIsAMove<I>(host: Host<I>, w: WireForm, b: ByteSystem<I>, y: System<I>) returns (z: System<I>)
    requires Serializes(w) && Abstracts(w, b, y) && PayloadsOk(y.client) && CanMove(b, ClientBegins)
    ensures Systems.Steps(host, y, z) && Abstracts(w, AfterMove(host, w, b, ClientBegins), z)
  {
    hide Carries, Serializes, EncodeRequest;
    var entry := b.client.writer.entry;
    assert Possible(y, Transmits);
    z := Moved(host, y, Transmits);
    EncodedRequestForm(w, entry.request, entry.payload);
    BeginCarries(b.up, RequestBytes(w, y.toServer), w.request(entry.payload));
    assert RequestBytes(w, z.toServer) == RequestBytes(w, y.toServer) + [w.request(entry.payload)];
  }

  /** The frame at the head of the server's stream is the oldest request in the channel. */
  lemma ServerSeesRequest<I>(host: Host<I>, w: WireForm, b: ByteSystem<I>, y: System<I>)
    requires Serializes(w) && Abstracts(w, b, y) && ChannelOk(host, y) && HeadOf(b.up.unread).Frame?
    ensures y.toServer != [] && w.parseRequest(HeadOf(b.up.unread).payload) == y.toServer[0]
    ensures Carries(Popped(b.up), RequestBytes(w, y.toServer[1..]))
  {
    hide Carries, Serializes, EncodeRequest, EncodeResponse, HeadOf, OutcomeAt;
    HeadIsGenuine(b.up, RequestBytes(w, y.toServer));
    EncodedRequestForm(w, y.client.shared.handed[|y.log| + 0], y.toServer[0]);
    assert RequestBytes(w, y.toServer)[1..] == RequestBytes(w, y.toServer[1..]);
  }

  lemma AnsweringIsAMove<I>(host: Host<I>, w: WireForm, b: ByteSystem<I>, y: System<I>) returns (z: System<I>)
    requires Serializes(w) && Abstracts(w, b, y) && ChannelOk(host, y) && CanMove(b, ServerTakes)
    ensures Systems.Steps(host, y, z) && Abstracts(w, AfterMove(host, w, b, ServerTakes), z)
  {
    hide Carries, Serializes, EncodeRequest, EncodeResponse, DecodeRequest, HeadOf, OutcomeAt, Server.Dispatch, Reply;
    ServerSeesRequest(host, w, b, y);
    assert DecodeRequest(y.toServer[0]).Ok? by {
      assert EncodeRequest(y.client.shared.handed[|y.log| + 0]) == Ok(y.toServer[0]);
      EncodedRequestDecodes(y.client.shared.handed[|y.log|]);
    }
    hide ChannelOk;
    var m := Systems.Serves(true);
    assert Possible(y, m);
    z := Moved(host, y, m);
    var served := Server.Dispatch(host, y.session, y.source, y.toServer[0]);
    if served.reply.Ok? && EncodeResponse(served.reply.value).Ok? {
      var packet := EncodeResponse(served.reply.value).value;
      EncodedResponseForm(w, served.reply.value, packet);
      BeginCarries(b.down, ResponseBytes(w, y.toClient), w.response(packet));
      assert ResponseBytes(w, z.toClient) == ResponseBytes(w, y.toClient) + [w.response(packet)];
    }
  }

  /** The frame at the head of the client's stream is the oldest reply in the channel. */
  lemma ClientSeesReply<I>(host: Host<I>, w: WireForm, b: ByteSystem<I>, y: System<I>)
    requires Serializes(w) && Abstracts(w, b, y) && ChannelOk(host, y) && HeadOf(b.down.unread).Frame?
    ensures y.toClient != [] && w.parseResponse(HeadOf(b.down.unread).payload) == y.toClient[0]
    ensures Carries(Popped(b.down), ResponseBytes(w, y.toClient[1..]))
  {
    hide Carries, Serializes, EncodeRequest, EncodeResponse, HeadOf, Reply;
    HeadIsGenuine(b.down, ResponseBytes(w, y.toClient));
    EncodedResponseForm(w, Reply(host, y, y.received + 0), y.toClient[0]);
    assert ResponseBytes(w, y.toClient)[1..] == ResponseBytes(w, y.toClient[1..]);
  }

  lemma TakingIsAMove<I>(host: Host<I>, w: WireForm, b: ByteSystem<I>, y: System<I>, stopLate: bool)
    returns (z: System<I>)
    requires Serializes(w) && Abstracts(w, b, y) && ChannelOk(host, y) && CanMove(b, ClientTakes(stopLate))
    ensures Systems.Steps(host, y, z) && Abstracts(w, AfterMove(host, w, b, ClientTakes(stopLate)), z)
  {
    hide Carries, Serializes, DecodeResponse, HeadOf, ChannelOk, Next;
    ClientSeesReply(host, w, b, y);
    var m := Receives(stopLate);
    assert Possible(y, m);
    z := Moved(host, y, m);
  }

  lemma LeavingIsAMove<I>(host: Host<I>, w: WireForm, b: ByteSystem<I>, y: System<I>, m: ByteMove) returns (z: System<I>)
    requires Abstracts(w, b, y) && CanMove(b, m) && (m.ServerQuits? || m.SourceMoves?)
    ensures Systems.Steps(host, y, z) && Abstracts(w, AfterMove(host, w, b, m), z)
  {
    hide Carries;
    var n := if m.SourceMoves? then OthersIssue(m.later) else ServerLeaves;
    assert Possible(y, n);
    z := Moved(host, y, n);
    BreakCarries(b.down, ResponseBytes(w, y.toClient));
  }

  lemma ShiftingIsAStutter<I>(host: Host<I>, w: WireForm, b: ByteSystem<I>, y: System<I>, m: ByteMove)
    requires Abstracts(w, b, y) && CanMove(b, m)
    requires m.ClientWrites? || m.ServerReads? || m.ServerWrites? || m.ClientReads?
    ensures Systems.Steps(host, y, y) && Abstracts(w, AfterMove(host, w, b, m), y)
  {
    hide Carries, Systems.Steps;
    Stutters(host, y);
    var up, down := RequestBytes(w, y.toServer), ResponseBytes(w, y.toClient);
    match m {
      case ClientWrites(n) => WriteCarries(b.up, up, n);
      case ServerReads(n) => ReadCarries(b.up, up, n);
      case ServerWrites(n) => WriteCarries(b.down, down, n);
      case ClientReads(n) => ReadCarries(b.down, down, n);
    }
  }

  /** Every byte move is a move of the packets it carries. */
  lemma ByteMoveIsAMove<I>(host: Host<I>, w: WireForm, b: ByteSystem<I>, y: System<I>, first: u64, m: ByteMove)
    returns (z: System<I>)
    requires ValidHost(host) && Serializes(w) && SystemInv(host, y, first) && Abstracts(w, b, y) && CanMove(b, m)
    ensures Systems.Steps(host, y, z) && Abstracts(w, AfterMove(host, w, b, m), z)
  {
    hide Serializes, Abstracts, ClientRuns.Inv, WireOk, ChannelOk, FlowOk, SessionOk, ResultsOk, PayloadsOk, Systems.Steps;
    match m {
      case ClientActs(e) => z := ActingIsAMove(host, w, b, y, e);
      case ClientBegins => z := BeginningIsAMove(host, w, b, y);
      case ServerTakes => z := AnsweringIsAMove(host, w, b, y);
      case ClientTakes(stopLate) => z := TakingIsAMove(host, w, b, y, stopLate);
      case ServerQuits => z := LeavingIsAMove(host, w, b, y, m);
      case SourceMoves(_) => z := LeavingIsAMove(host, w, b, y, m);
      case _ =>
        ShiftingIsAStutter(host, w, b, y, m);
        z := y;
    }
  }

  // ---- every byte run -----------------------------------------------------------------------

  ghost predicate ByteSteps<I>(host: Host<I>, w: WireForm, b: ByteSystem<I>, c: ByteSystem<I>) {
    exists m :: CanMove(b, m) && c == AfterMove(host, w, b, m)
  }

  ghost predicate ByteRun<I>(host: Host<I>, w: WireForm, bs: seq<ByteSystem<I>>, first: u64) {
    && bs != []
    && (exists now :: bs[0] == FirstState(now, first))
    && forall i :: 0 < i < |bs| ==> ByteSteps(host, w, bs[i - 1], bs[i])
  }

  ghost predicate AbstractsAll<I>(w: WireForm, bs: seq<ByteSystem<I>>, ys: seq<System<I>>) {
    |ys| == |bs| && forall i :: 0 <= i < |bs| ==> Abstracts(w, bs[i], ys[i])
  }

  /** Under every pattern of partial writes and reads, a run of the bytes is a run of the packets. */
  lemma {:induction false} ByteRunsAreSystemRuns<I>(host: Host<I>, w: WireForm, bs: seq<ByteSystem<I>>, first: u64)
    returns (ys: seq<System<I>>)
    requires ValidHost(host) && Serializes(w) && ByteRun(host, w, bs, first)
    ensures AbstractsAll(w, bs, ys) && Systems.Run(host, ys, first)
    decreases |bs|
  {
    hide ValidHost, Serializes, Abstracts, CanMove, AfterMove, SystemInv, Systems.Steps;
    var n := |bs| - 1;
    if n == 0 {
      var now :| bs[0] == FirstState(now, first);
      ys := [Start(now, first)];
      StartsAlike<I>(w, now, first);
    } else {
      var before := ByteRunsAreSystemRuns(host, w, bs[..n], first);
      Systems.RunKeepsInv(host, before, first, n - 1);
      assert ByteSteps(host, w, bs[n - 1], bs[n]);
      var m :| CanMove(bs[n - 1], m) && bs[n] == AfterMove(host, w, bs[n - 1], m);
      var z := ByteMoveIsAMove(host, w, bs[n - 1], before[n - 1], first, m);
      ys := before + [z];
      RunGrowsBy(host, before, first, z);
      assert forall i :: 0 <= i < n ==> bs[i] == bs[..n][i] && ys[i] == before[i];
    }
  }

  lemma RunGrowsBy<I>(host: Host<I>, states: seq<System<I>>, first: u64, z: System<I>)
    requires Systems.Run(host, states, first) && Systems.Steps(host, states[|states| - 1], z)
    ensures Systems.Run(host, states + [z], first)
  {
    hide Systems.Steps;
    var more := states + [z];
    var now :| states[0] == Start(now, first);
    assert more[0] == Start(now, first);
    forall i | 0 < i < |more| ensures Systems.Steps(host, more[i - 1], more[i]) {
      if i < |states| {
        assert more[i] == states[i] && more[i - 1] == states[i - 1];
      }
    }
  }

  /** Neither end ever sees a bad length, however the bytes were split; a complete frame at the
      server's end is the oldest unexecuted request, one at the client's end the reply to the oldest
      call whose reply was not taken. */
  lemma FramesAreGenuine<I>(host: Host<I>, w: WireForm, bs: seq<ByteSystem<I>>, first: u64, k: nat)
    requires ValidHost(host) && Serializes(w) && ByteRun(host, w, bs, first) && k < |bs|
    ensures var b := bs[k];
            var handed := b.client.shared.handed;
            && !HeadOf(b.up.unread).Bad? && !HeadOf(b.down.unread).Bad?
            && (HeadOf(b.up.unread).Frame? ==>
                  |b.log| < |handed| && DecodeRequest(w.parseRequest(HeadOf(b.up.unread).payload)) == Ok(handed[|b.log|]))
            && (HeadOf(b.down.unread).Frame? ==>
                  b.taken < |b.log| && b.taken < |handed|
                  && DecodeResponse(w.parseResponse(HeadOf(b.down.unread).payload))
                     == Ok(Response(handed[b.taken].id, OutcomeAt(host, b.log, b.taken), VERSION)))
  {
    hide ValidHost, Serializes, ByteRun, Systems.Run, SystemInv, HeadOf, DecodeRequest, DecodeResponse, OutcomeAt;
    var ys := ByteRunsAreSystemRuns(host, w, bs, first);
    Systems.RunKeepsInv(host, ys, first, k);
    assert Abstracts(w, bs[k], ys[k]);
    GenuineHeads(host, w, bs[k], ys[k], first);
  }

  lemma GenuineHeads<I>(host: Host<I>, w: WireForm, b: ByteSystem<I>, y: System<I>, first: u64)
    requires Serializes(w) && SystemInv(host, y, first) && Abstracts(w, b, y)
    ensures var handed := b.client.shared.handed;
            && !HeadOf(b.up.unread).Bad? && !HeadOf(b.down.unread).Bad?
            && (HeadOf(b.up.unread).Frame? ==>
                  |b.log| < |handed| && DecodeRequest(w.parseRequest(HeadOf(b.up.unread).payload)) == Ok(handed[|b.log|]))
            && (HeadOf(b.down.unread).Frame? ==>
                  b.taken < |b.log| && b.taken < |handed|
                  && DecodeResponse(w.parseResponse(HeadOf(b.down.unread).payload))
                     == Ok(Response(handed[b.taken].id, OutcomeAt(host, b.log, b.taken), VERSION)))
  {
    hide Serializes, ClientRuns.Inv, PayloadsOk, WireOk, FlowOk, SessionOk, ResultsOk, HeadOf, Carries, EncodeRequest,
         EncodeResponse, DecodeRequest, DecodeResponse, OutcomeAt, Matches;
    HeadIsGenuine(b.up, RequestBytes(w, y.toServer));
    HeadIsGenuine(b.down, ResponseBytes(w, y.toClient));
    if HeadOf(b.up.unread).Frame? {
      ServerSeesRequest(host, w, b, y);
      assert EncodeRequest(y.client.shared.handed[|y.log| + 0]) == Ok(y.toServer[0]);
      EncodedRequestDecodes(y.client.shared.handed[|y.log|]);
    }
    if HeadOf(b.down.unread).Frame? {
      ClientSeesReply(host, w, b, y);
      HeadReply(host, y);
    }
  }

  // ---- violations ---------------------------------------------------------------------------

  /** A server that left writes no more, and once the transport reported a violation the client's
      stream stays cut inside a frame. */
  ghost predicate CutIsFinal<I>(b: ByteSystem<I>) {
    (!b.serving ==> b.down.unwritten == []) && (b.cut ==> Truncated(b))
  }

  lemma CutStaysFinal<I>(host: Host<I>, w: WireForm, b: ByteSystem<I>, m: ByteMove)
    requires CanMove(b, m) && CutIsFinal(b) && !HeadOf(b.down.unread).Bad?
    ensures CutIsFinal(AfterMove(host, w, b, m))
  {
    hide HeadOf, Next, Enabled, DecodeRequest, DecodeResponse, EncodeResponse, Server.Dispatch, Encode, Advances;
    if m.ClientReads? && b.cut {
      assert ReadSome(b.down, m.n) == b.down;
    }
  }

  lemma {:induction false} CutsAreFinal<I>(host: Host<I>, w: WireForm, bs: seq<ByteSystem<I>>, first: u64, k: nat)
    requires ValidHost(host) && Serializes(w) && ByteRun(host, w, bs, first) && k < |bs|
    ensures CutIsFinal(bs[k])
  {
    hide ValidHost, Serializes, CanMove, AfterMove, HeadOf, DecodeRequest, DecodeResponse, OutcomeAt;
    if k > 0 {
      CutsAreFinal(host, w, bs, first, k - 1);
      FramesAreGenuine(host, w, bs, first, k - 1);
      assert ByteSteps(host, w, bs[k - 1], bs[k]);
      var m :| CanMove(bs[k - 1], m) && bs[k] == AfterMove(host, w, bs[k - 1], m);
      CutStaysFinal(host, w, bs[k - 1], m);
    }
  }

  /** In every byte run a caller is told of a protocol violation only if the server is gone and the
      client's stream ended inside a frame: never while the server serves, and never because of
      what the server sent. */
  lemma ViolationsAreTruncations<I>(host: Host<I>, w: WireForm, bs: seq<ByteSystem<I>>, first: u64, k: nat, id: u64)
    requires ValidHost(host) && Serializes(w) && ByteRun(host, w, bs, first) && k < |bs|
    requires id in bs[k].client.shared.promises
    ensures var results := bs[k].client.shared.promises[id];
            && |results| <= 1
            && (results != [] && results[0].Failed? && results[0].cause.kind == FailureKind.ProtocolViolation ==>
                  Truncated(bs[k]))
  {
    hide ValidHost, Serializes, ByteRun, Systems.Run, OutcomeAt, Carries, Truncated;
    var ys := ByteRunsAreSystemRuns(host, w, bs, first);
    assert Abstracts(w, bs[k], ys[k]);
    EveryAnswerIsItsOwn(host, ys, first, k, id);
    CutsAreFinal(host, w, bs, first, k);
  }

  /** What callers get, stated over the bytes: if a call of `op` was admitted in step `j` and is ever
      answered, its answer is the outcome of `op` at its place in the submission order. */
  lemma CallersGetWhatTheyAskedForInBytes<I>(
    host: Host<I>, w: WireForm, bs: seq<ByteSystem<I>>, first: u64, j: nat, k: nat, op: Operation, until: int, stopped: bool)
    returns (i: nat)
    requires ValidHost(host) && Serializes(w) && ByteRun(host, w, bs, first) && j + 1 <= k < |bs|
    requires bs[j + 1] == bs[j].(client := Next(bs[j].client, SubmitCall(op, until, stopped)))
    requires Submit(bs[j].client.shared, op, until, stopped, bs[j].client.now).immediate.None?
    requires var id := bs[j].client.shared.nextId;
             && id in bs[k].client.shared.promises && bs[k].client.shared.promises[id] != []
             && bs[k].client.shared.promises[id][0].Answered?
    ensures i < |bs[k].log| && i < |bs[k].client.shared.handed| && bs[k].log[i].op == op
    ensures var id := bs[j].client.shared.nextId;
            && bs[k].client.shared.handed[i] == Request(id, op, VERSION)
            && bs[k].client.shared.promises[id] == [Answered(Response(id, OutcomeAt(host, bs[k].log, i), VERSION))]
  {
    hide ValidHost, Serializes, ByteRun, Systems.Run, OutcomeAt, Submit, Carries;
    AdmissionIsExact(bs[j].client.shared, op, until, stopped, bs[j].client.now);
    var ys := ByteRunsAreSystemRuns(host, w, bs, first);
    assert Abstracts(w, bs[j], ys[j]) && Abstracts(w, bs[j + 1], ys[j + 1]) && Abstracts(w, bs[k], ys[k]);
    i := AnswersBelongToTheirCalls(host, ys, first, j + 1, k, bs[j].client.shared.nextId);
  }
}
