/** The dispatcher in front of a session, and the server's workers sharing one ID source. */
module Server {
  import opened Contracts
  import opened Validation
  import opened Messages
  import opened Budgets
  import opened Codec
  import opened CodecTheorems
  import opened Registry
  import opened Store
  import opened StoreTheorems
  import opened Replies
  import Client
  import SessionStores

  // ---- dispatch -----------------------------------------------------------------------------

  datatype Served<!I> = Served(session: Session<I>, next: u64, reply: Checked<Response>)

  ghost function Process<I>(host: Host<I>, s: Session<I>, next: u64, request: Request): Served<I> {
    if request.id == 0 then Served(s, next, Rejected(Failure(InvalidFields, true, None)))
    else if request.version == VERSION then
      var t := Execute(host, s, next, request.body);
      Served(t.session, t.next, Ok(Response(request.id, t.outcome, VERSION)))
    else Served(s, next, Ok(Response(request.id, MakeError(UNSUPPORTED_VERSION), VERSION)))
  }

  /** A correlated protocol failure becomes an ordinary error reply; any other ends the session. */
  function Reject(failure: Failure): Checked<Response> {
    if failure.closeSession || failure.requestId.None? || failure.requestId.value == 0
       || failure.code == Malformed || failure.code == Truncated then Rejected(Failure(failure.code, true, None))
    else
      var code := if failure.code == UnsupportedVersion then UNSUPPORTED_VERSION
                  else if failure.code == LimitExceeded then QUOTA_EXCEEDED
                  else INVALID_REQUEST;
      Ok(Response(failure.requestId.value, MakeError(code), VERSION))
  }

  ghost function Dispatch<I>(host: Host<I>, s: Session<I>, next: u64, payload: Packet<PbRequest>): Served<I> {
    match DecodeRequest(payload)
    case Rejected(failure) => Served(s, next, Reject(failure))
    case Ok(request) => Process(host, s, next, request)
  }

  /** The dispatcher object: one borrowed store, mutated by each version-1 request. */
  class Dispatcher<I> {
    const store: SessionStores.SessionStore<I>

    constructor (store: SessionStores.SessionStore<I>)
      ensures this.store == store
    {
      this.store := store;
    }

    method Dispatch(request: Request) returns (reply: Checked<Response>)
      requires store.Valid()
      modifies store, store.identifiers
      ensures store.Valid()
      ensures Served(store.View(), store.identifiers.next, reply)
              == old(Process(store.Host(), store.View(), store.identifiers.next, request))
    {
      hide Execute, MakeError;
      if request.id == 0 {
        return Rejected(Failure(InvalidFields, true, None));
      }
      if request.version != VERSION {
        return Ok(Response(request.id, MakeError(UNSUPPORTED_VERSION), VERSION));
      }
      var outcome := store.Execute(request.body);
      return Ok(Response(request.id, outcome, VERSION));
    }
  }

  /** A request of another version is refused by name, one without an ID ends the session, and neither
      reaches the store. */
  lemma OtherVersionsAreRefused<I>(host: Host<I>, s: Session<I>, next: u64, request: Request)
    requires request.version != VERSION || request.id == 0
    ensures var served := Process(host, s, next, request);
            && served.session == s && served.next == next
            && (served.reply.Ok? <==> request.id != 0)
            && (served.reply.Ok? ==> served.reply.value.id == request.id && served.reply.value.body.Error?
                                     && served.reply.value.body.code == UNSUPPORTED_VERSION)
            && (served.reply.Rejected? ==> served.reply.failure.closeSession)
  {
    hide Execute;
  }

  /** Which payloads get a reply: exactly those whose envelope names a call. */
  lemma RepliesAreCorrelated<I>(host: Host<I>, s: Session<I>, next: u64, payload: Packet<PbRequest>)
    ensures var served := Dispatch(host, s, next, payload);
            && (served.reply.Ok? <==> CheckPacket(payload).None? && payload.message.value.id != 0)
            && (served.reply.Ok? ==> served.reply.value.id == payload.message.value.id
                                     && served.reply.value.version == VERSION)
            && (served.reply.Rejected? ==> served.reply.failure.closeSession)
            && (DecodeRequest(payload).Rejected? ==> served.session == s && served.next == next
                                                     && (served.reply.Ok? ==> served.reply.value.body.Error?))
  {
    hide Execute, ReadOperation, CheckMessage, RequestNode, MakeError;
    if CheckPacket(payload).None? {
      CheckIsExact(RequestNode(payload.message.value), FULL_BUDGET);
    }
  }

  /** What a correlated peer is told: its outcome if the request is sound, otherwise the reason, the
      version before the budgets before the fields. A broken limit is a quota, a broken text a bad
      request; when both are broken it is one of the two. */
  lemma RejectionsAreExplained<I>(host: Host<I>, s: Session<I>, next: u64, payload: Packet<PbRequest>)
    requires CheckPacket(payload).None? && payload.message.value.id != 0
    ensures var m := payload.message.value;
            var reply := Dispatch(host, s, next, payload).reply;
            var spends := NodeCount(RequestNode(m)) <= FULL_BUDGET.nodes
                          && UnknownsOf(RequestNode(m)) <= FULL_BUDGET.unknowns;
            var fits := Tame(RequestNode(m)) && spends;
            && reply.Ok?
            && (m.version == None ==> reply.value.body == MakeError(INVALID_REQUEST))
            && (m.version.Some? && m.version.value != VERSION ==> reply.value.body == MakeError(UNSUPPORTED_VERSION))
            && (m.version == Some(VERSION) && !fits ==>
                  && (reply.value.body == MakeError(QUOTA_EXCEEDED) || reply.value.body == MakeError(INVALID_REQUEST))
                  && (Clean(RequestNode(m)) ==> reply.value.body == MakeError(QUOTA_EXCEEDED))
                  && (Bounded(RequestNode(m)) && spends ==> reply.value.body == MakeError(INVALID_REQUEST)))
            && (m.version == Some(VERSION) && fits ==>
                  reply.value.body == match ReadOperation(m.operation)
                                      case None => MakeError(INVALID_REQUEST)
                                      case Some(op) => Execute(host, s, next, op).outcome)
  {
    hide Execute, ReadOperation, CheckMessage, RequestNode, MakeError, Tame, NodeCount, UnknownsOf, Clean, Bounded;
    CheckIsExact(RequestNode(payload.message.value), FULL_BUDGET);
    CodeIsTheReason(RequestNode(payload.message.value), FULL_BUDGET);
  }

  /** Whatever a peer sends to a reachable session, the reply can be encoded, and the client
      decodes the very reply the dispatcher produced. */
  lemma EveryDispatchEncodes<I>(host: Host<I>, s: Session<I>, next: u64, payload: Packet<PbRequest>)
    requires ValidHost(host) && ValidSession(host, s, next)
    ensures var served := Dispatch(host, s, next, payload);
            && ValidSession(host, served.session, served.next)
            && (served.reply.Ok? ==> EncodeResponse(served.reply.value).Ok?
                                     && DecodeResponse(EncodeResponse(served.reply.value).value) == served.reply)
  {
    hide ValidHost, ValidSession, Execute, DecodeRequest, EncodeResponse, DecodeResponse, MakeError, Sendable;
    RepliesAreCorrelated(host, s, next, payload);
    var served := Dispatch(host, s, next, payload);
    if DecodeRequest(payload).Ok? {
      ExecuteKeepsValid(host, s, next, DecodeRequest(payload).value.body);
    }
    if served.reply.Ok? {
      EncodedResponseDecodes(served.reply.value);
      ErrorsAreSendable();
      if DecodeRequest(payload).Ok? {
        ExecuteIsSendable(host, s, next, DecodeRequest(payload).value.body);
      }
      SendableEncodes(served.reply.value.id, served.reply.value.body);
    }
  }

  /** A session's outcome always answers the operation it was given. */
  lemma OutcomesMatch<I>(host: Host<I>, s: Session<I>, next: u64, op: Operation)
    ensures Client.Matches(op, Execute(host, s, next, op).outcome)
  {
    hide StateMatches, ValidArguments, ValidName, Used, StateCharge, MakeError, PageFrom, Finite;
  }

  // ---- workers ------------------------------------------------------------------------------

  /** A worker waits for a peer, serves a session, has left the service loop and still has to close
      its store, or has closed it and still has to release the pipe. `since` counts the IDs issued
      by the whole server before the session began. */
  datatype Slot<!I> =
    | Listening
    | Serving(session: Session<I>, since: nat)
    | Ending(session: Session<I>, since: nat)
    | Closed(session: Session<I>, since: nat)

  /** All workers, the shared ID source, the active counter, and every ID ever issued. */
  datatype State<!I> = State(slots: seq<Slot<I>>, next: u64, active: int, issued: seq<u64>)

  /** A step of worker `k`. `sent` tells whether the reply left; `Leaves` covers a failed receive,
      an expired gate and the stop request. */
  datatype Event =
    | Accepts(k: nat)
    | Serves(k: nat, payload: Packet<PbRequest>, sent: bool)
    | Leaves(k: nat)
    | Closes(k: nat)
    | Retires(k: nat)

  ghost function Initial<I>(workers: nat, first: u64): State<I> { State(seq(workers, _ => Listening), first, 0, []) }

  ghost predicate Enabled<I>(g: State<I>, e: Event) {
    && e.k < |g.slots|
    && match e
       case Accepts(k) => g.slots[k].Listening?
       case Serves(k, _, _) => g.slots[k].Serving?
       case Leaves(k) => g.slots[k].Serving?
       case Closes(k) => g.slots[k].Ending?
       case Retires(k) => g.slots[k].Closed?
  }

  ghost function Next<I>(host: Host<I>, g: State<I>, e: Event): State<I>
    requires Enabled(g, e)
  {
    match e
    case Accepts(k) => g.(slots := g.slots[k := Serving(EmptySession(), |g.issued|)], active := g.active + 1)
    case Serves(k, payload, sent) =>
      var served := Dispatch(host, g.slots[k].session, g.next, payload);
      var stays := served.reply.Ok? && EncodeResponse(served.reply.value).Ok? && sent;
      g.(slots := g.slots[k := if stays then Serving(served.session, g.slots[k].since)
                               else Ending(served.session, g.slots[k].since)],
         next := served.next,
         issued := if served.next == g.next then g.issued else g.issued + [g.next])
    case Leaves(k) => g.(slots := g.slots[k := Ending(g.slots[k].session, g.slots[k].since)])
    case Closes(k) => g.(slots := g.slots[k := Closed(Close(g.slots[k].session), g.slots[k].since)])
    case Retires(k) => g.(slots := g.slots[k := Listening], active := g.active - 1)
  }

  ghost function Keys<I>(s: Session<I>): set<u64> { s.values.Keys + s.objects.Keys }

  ghost function Busy<I>(slots: seq<Slot<I>>): nat {
    if slots == [] then 0 else (if slots[0].Listening? then 0 else 1) + Busy(slots[1..])
  }

  /** IDs are issued in strictly increasing order, never zero. */
  ghost predicate IssuedOnce(issued: seq<u64>, next: u64) {
    && (forall i, j :: 0 <= i < j < |issued| ==> issued[i] < issued[j])
    && (forall i :: 0 <= i < |issued| ==> Issued(issued[i], next))
  }

  /** A session holds only IDs issued since it began, and is closed by its worker alone. */
  ghost predicate OwnIds<I>(slot: Slot<I>, issued: seq<u64>) {
    slot.Listening? ||
    (slot.since <= |issued| && (forall id :: id in Keys(slot.session) ==> id in issued[slot.since..])
     && (slot.session.closed <==> slot.Closed?))
  }

  ghost predicate Disjoint<I>(slots: seq<Slot<I>>) {
    forall i, j :: 0 <= i < j < |slots| && !slots[i].Listening? && !slots[j].Listening? ==>
      Keys(slots[i].session) !! Keys(slots[j].session)
  }

  ghost predicate Inv<I>(host: Host<I>, g: State<I>) {
    && IssuedOnce(g.issued, g.next)
    && (forall k :: 0 <= k < |g.slots| ==> OwnIds(g.slots[k], g.issued))
    && (forall k :: 0 <= k < |g.slots| && !g.slots[k].Listening? ==> ValidSession(host, g.slots[k].session, g.next))
    && Disjoint(g.slots)
    && g.active == Busy(g.slots)
  }

  lemma {:induction false} BusyAfter<I>(slots: seq<Slot<I>>, k: nat, slot: Slot<I>)
    requires k < |slots|
    ensures Busy(slots[k := slot]) + (if slots[k].Listening? then 0 else 1)
            == Busy(slots) + (if slot.Listening? then 0 else 1)
  {
    if k > 0 {
      BusyAfter(slots[1..], k - 1, slot);
      assert slots[k := slot][1..] == slots[1..][k - 1 := slot];
    } else {
      assert slots[k := slot][1..] == slots[1..];
    }
  }

  lemma {:induction false} NobodyBusy<I>(slots: seq<Slot<I>>)
    requires forall k :: 0 <= k < |slots| ==> slots[k].Listening?
    ensures Busy(slots) == 0
  {
    if slots != [] {
      NobodyBusy(slots[1..]);
    }
  }

  lemma InitialInv<I>(host: Host<I>, workers: nat, first: u64)
    ensures Inv(host, Initial(workers, first))
  {
    NobodyBusy(Initial<I>(workers, first).slots);
  }

  /** What one request does to the IDs: at most the head of the source enters the session. */
  lemma DispatchIssues<I>(host: Host<I>, s: Session<I>, next: u64, payload: Packet<PbRequest>)
    ensures var served := Dispatch(host, s, next, payload);
            served.session.closed == s.closed &&
            if served.next == next then Keys(served.session) <= Keys(s)
            else next != 0 && served.next == Successor(next) && Keys(served.session) <= Keys(s) + {next}
  {
    hide Execute, DecodeRequest, MakeError;
    if DecodeRequest(payload).Ok? {
      IdentifiersAreConsumedOnce(host, s, next, DecodeRequest(payload).value.body);
      StaysOpen(host, s, next, DecodeRequest(payload).value.body);
    }
  }

  /** No operation closes a session. */
  lemma StaysOpen<I>(host: Host<I>, s: Session<I>, next: u64, op: Operation)
    ensures Execute(host, s, next, op).session.closed == s.closed
  {
    hide StateMatches, ValidArguments, ValidName, ValidValue, Used, MakeError, List, PageOf, ReadObject,
         ReadAttribute, StateCharge;
  }

  /** The source stood still, or issued its head. */
  ghost predicate Moves(next: u64, issued: seq<u64>, later: u64, after: seq<u64>) {
    || (later == next && after == issued)
    || (next != 0 && later == Successor(next) && after == issued + [next])
  }

  lemma MovesIssueOnce(next: u64, issued: seq<u64>, later: u64, after: seq<u64>)
    requires IssuedOnce(issued, next) && Moves(next, issued, later, after)
    ensures IssuedOnce(after, later) && Advances(next, later)
  {
  }

  lemma MovesKeepOwnIds<I>(slot: Slot<I>, next: u64, issued: seq<u64>, later: u64, after: seq<u64>)
    requires OwnIds(slot, issued) && Moves(next, issued, later, after)
    ensures OwnIds(slot, after)
  {
    if slot.Listening? {
    } else if after != issued {
      assert after[slot.since..] == issued[slot.since..] + [next];
    }
  }

  /** The IDs a session may gain in such a move. */
  ghost function Gained(next: u64, later: u64): set<u64> { if later == next then {} else {next} }

  /** Nobody else holds the head of the source. */
  lemma HeadIsFree<I>(host: Host<I>, s: Session<I>, next: u64, later: u64)
    requires ValidSession(host, s, next) && later == Successor(next)
    ensures Keys(s) !! Gained(next, later)
  {
    hide Registered, ValidValue, Used;
  }

  /** One worker's slot changes, gaining at most the issued head. */
  ghost predicate Replaces<I>(host: Host<I>, g: State<I>, h: State<I>, k: nat) {
    && k < |g.slots| == |h.slots|
    && h.slots == g.slots[k := h.slots[k]]
    && Moves(g.next, g.issued, h.next, h.issued)
    && OwnIds(h.slots[k], h.issued)
    && (!h.slots[k].Listening? ==>
          && ValidSession(host, h.slots[k].session, h.next)
          && Keys(h.slots[k].session)
             <= (if g.slots[k].Listening? then {} else Keys(g.slots[k].session)) + Gained(g.next, h.next))
    && h.active == g.active + (if h.slots[k].Listening? then 0 else 1) - (if g.slots[k].Listening? then 0 else 1)
  }

  lemma ReplacingKeepsDisjoint<I>(host: Host<I>, g: State<I>, h: State<I>, k: nat, j: nat)
    requires Inv(host, g) && Replaces(host, g, h, k) && j < |g.slots| && j != k
    requires !h.slots[k].Listening? && !g.slots[j].Listening?
    ensures Keys(h.slots[k].session) !! Keys(g.slots[j].session)
  {
    hide ValidSession, IssuedOnce, OwnIds, Busy;
    if h.next != g.next {
      HeadIsFree(host, g.slots[j].session, g.next, h.next);
    }
    if !g.slots[k].Listening? {
      assert Keys(g.slots[k].session) !! Keys(g.slots[j].session);
    }
  }

  lemma ReplacingKeepsInv<I>(host: Host<I>, g: State<I>, h: State<I>, k: nat)
    requires Inv(host, g) && Replaces(host, g, h, k)
    ensures Inv(host, h)
  {
    hide ValidSession, IssuedOnce, OwnIds, Busy, Keys, Moves, Gained;
    MovesIssueOnce(g.next, g.issued, h.next, h.issued);
    forall j | 0 <= j < |h.slots| ensures OwnIds(h.slots[j], h.issued) {
      if j != k {
        MovesKeepOwnIds(g.slots[j], g.next, g.issued, h.next, h.issued);
      }
    }
    forall j | 0 <= j < |h.slots| && !h.slots[j].Listening? ensures ValidSession(host, h.slots[j].session, h.next) {
      if j != k {
        AdvanceKeepsValid(host, g.slots[j].session, g.next, h.next);
      }
    }
    forall i, j | 0 <= i < j < |h.slots| && !h.slots[i].Listening? && !h.slots[j].Listening?
      ensures Keys(h.slots[i].session) !! Keys(h.slots[j].session)
    {
      if i == k {
        ReplacingKeepsDisjoint(host, g, h, k, j);
      } else if j == k {
        ReplacingKeepsDisjoint(host, g, h, k, i);
      }
    }
    BusyAfter(g.slots, k, h.slots[k]);
  }

  lemma ServingReplaces<I>(host: Host<I>, g: State<I>, e: Event)
    requires ValidHost(host) && Inv(host, g) && Enabled(g, e) && e.Serves?
    ensures Replaces(host, g, Next(host, g, e), e.k)
  {
    hide ValidHost, ValidSession, IssuedOnce, Disjoint, Busy, Dispatch, EncodeResponse;
    var slot, h := g.slots[e.k], Next(host, g, e);
    DispatchIssues(host, slot.session, g.next, e.payload);
    EveryDispatchEncodes(host, slot.session, g.next, e.payload);
    if h.next != g.next {
      assert h.issued[slot.since..] == g.issued[slot.since..] + [g.next];
    }
  }

  /** A slot whose session is exchanged for one with no more IDs, the source standing still. */
  lemma ExchangeReplaces<I>(host: Host<I>, g: State<I>, h: State<I>, k: nat)
    requires k < |g.slots| == |h.slots| && Inv(host, g) && !h.slots[k].Listening?
    requires h == g.(slots := g.slots[k := h.slots[k]], active := g.active + (if g.slots[k].Listening? then 1 else 0))
    requires ValidSession(host, h.slots[k].session, g.next)
    requires h.slots[k].session.closed <==> h.slots[k].Closed?
    requires if Keys(h.slots[k].session) == {} then h.slots[k].since <= |g.issued|
             else !g.slots[k].Listening? && h.slots[k].since == g.slots[k].since
                  && Keys(h.slots[k].session) <= Keys(g.slots[k].session)
    ensures Replaces(host, g, h, k)
  {
    hide ValidSession, IssuedOnce, Disjoint, Busy, Keys;
    assert OwnIds(g.slots[k], g.issued);
  }

  lemma OthersReplace<I>(host: Host<I>, g: State<I>, e: Event)
    requires ValidHost(host) && Inv(host, g) && Enabled(g, e) && !e.Serves?
    ensures Replaces(host, g, Next(host, g, e), e.k)
  {
    hide ValidHost, ValidSession, IssuedOnce, Disjoint, Busy, Dispatch, EncodeResponse, Replaces, Keys;
    var k, h := e.k, Next(host, g, e);
    assert OwnIds(g.slots[k], g.issued);
    match e {
      case Accepts(_) =>
        EmptyIsValid(host, g.next);
        NoKeys<I>();
        ExchangeReplaces(host, g, h, k);
      case Closes(_) =>
        ClosedIsValid(host, g.slots[k].session, g.next);
        NoKeys<I>();
        ExchangeReplaces(host, g, h, k);
      case Leaves(_) => ExchangeReplaces(host, g, h, k);
      case Retires(_) => RetiringReplaces(host, g, h, k);
    }
  }

  lemma NoKeys<I>()
    ensures Keys(EmptySession<I>()) == {} && forall s: Session<I> :: Keys(Close(s)) == {}
  {
  }

  lemma RetiringReplaces<I>(host: Host<I>, g: State<I>, h: State<I>, k: nat)
    requires k < |g.slots| && g.slots[k].Closed? && h == g.(slots := g.slots[k := Listening], active := g.active - 1)
    ensures Replaces(host, g, h, k)
  {
    hide ValidSession, Keys;
  }

  /** Every step of every worker keeps the server's invariant, touches its own slot only, and
      leaves an open session open unless the transport failed or the peer's framing was unusable.
      A slot takes a new peer with an empty session, and only after its last one was closed. */
  lemma NextKeepsInv<I>(host: Host<I>, g: State<I>, e: Event)
    requires ValidHost(host) && Inv(host, g) && Enabled(g, e)
    ensures var h := Next(host, g, e);
            && Inv(host, h) && Advances(g.next, h.next) && g.issued <= h.issued
            && |h.slots| == |g.slots| && (forall j :: 0 <= j < |g.slots| && j != e.k ==> h.slots[j] == g.slots[j])
            && (e.Serves? && e.sent && CheckPacket(e.payload).None? && e.payload.message.value.id != 0 ==>
                  h.slots[e.k].Serving?)
            && (g.slots[e.k].Listening? ==> h.slots[e.k] == Serving(EmptySession(), |g.issued|))
            && (!g.slots[e.k].Listening? && h.slots[e.k].Listening? ==>
                  && g.slots[e.k].Closed? && g.slots[e.k].session == Close(EmptySession())
                  && Used(g.slots[e.k].session) == 0)
  {
    hide ValidHost, Inv, Dispatch, EncodeResponse, ValidSession, OwnIds, Busy;
    assert Replaces(host, g, Next(host, g, e), e.k) by {
      if e.Serves? {
        ServingReplaces(host, g, e);
      } else {
        OthersReplace(host, g, e);
      }
    }
    ReplacingKeepsInv(host, g, Next(host, g, e), e.k);
    if g.slots[e.k].Closed? {
      ClosedIsEmpty(host, g, e.k);
    }
    if e.Serves? {
      ServedSession(host, g, e.k);
      RepliesAreCorrelated(host, g.slots[e.k].session, g.next, e.payload);
      EveryDispatchEncodes(host, g.slots[e.k].session, g.next, e.payload);
    }
  }

  lemma ServedSession<I>(host: Host<I>, g: State<I>, k: nat)
    requires Inv(host, g) && k < |g.slots| && !g.slots[k].Listening?
    ensures ValidSession(host, g.slots[k].session, g.next)
  {
    hide ValidSession;
  }

  lemma ClosedIsEmpty<I>(host: Host<I>, g: State<I>, k: nat)
    requires ValidHost(host) && Inv(host, g) && k < |g.slots| && g.slots[k].Closed?
    ensures g.slots[k].session == Close(EmptySession()) && Used(g.slots[k].session) == 0
  {
    hide ValidHost, Registered, Used, IssuedOnce, Disjoint, Busy, ValidValue;
    assert OwnIds(g.slots[k], g.issued);
    ClosedIsValid(host, EmptySession(), g.next);
  }

  // ---- every run of the server --------------------------------------------------------------

  /** Successive server states from a fresh server. */
  ghost predicate Run<I>(host: Host<I>, states: seq<State<I>>) {
    && states != []
    && (exists workers, first :: states[0] == Initial(workers, first))
    && forall i :: 0 < i < |states| ==> Steps(host, states[i - 1], states[i])
  }

  ghost predicate Steps<I>(host: Host<I>, g: State<I>, h: State<I>) {
    exists e :: Enabled(g, e) && h == Next(host, g, e)
  }

  lemma {:induction false} RunKeepsInv<I>(host: Host<I>, states: seq<State<I>>, i: nat)
    requires ValidHost(host) && Run(host, states) && i < |states|
    ensures Inv(host, states[i])
  {
    hide ValidHost, Inv, Next, Enabled;
    if i == 0 {
      var workers, first :| states[0] == Initial(workers, first);
      InitialInv(host, workers, first);
    } else {
      RunKeepsInv(host, states, i - 1);
      assert Steps(host, states[i - 1], states[i]);
      var e :| Enabled(states[i - 1], e) && states[i] == Next(host, states[i - 1], e);
      NextKeepsInv(host, states[i - 1], e);
    }
  }

  lemma {:induction false} RunIssues<I>(host: Host<I>, states: seq<State<I>>, i: nat, j: nat)
    requires ValidHost(host) && Run(host, states) && i <= j < |states|
    ensures states[i].issued <= states[j].issued && Advances(states[i].next, states[j].next)
    decreases j
  {
    hide ValidHost, Inv, Next, Enabled;
    if i < j {
      RunIssues(host, states, i, j - 1);
      RunKeepsInv(host, states, j - 1);
      assert Steps(host, states[j - 1], states[j]);
      var e :| Enabled(states[j - 1], e) && states[j] == Next(host, states[j - 1], e);
      NextKeepsInv(host, states[j - 1], e);
    }
  }

  /** The ID an operation names, if any. */
  function Target(op: Operation): Option<u64> {
    match op
    case GetValue(id) => Some(id)
    case GetObject(id) => Some(id)
    case ReleaseObject(id) => Some(id)
    case GetAttribute(id, _) => Some(id)
    case InvokeMethod(id, _, _) => Some(id)
    case _ => None
  }

  /** An ID the session does not hold is not found, whatever else knows it; nothing changes. */
  lemma ForeignIdIsNotFound<I>(host: Host<I>, s: Session<I>, next: u64, op: Operation)
    requires Target(op).Some? && Target(op).value != 0 && Target(op).value !in Keys(s) && !s.closed
    requires op.GetAttribute? || op.InvokeMethod? ==> ValidName(op.name)
    ensures Execute(host, s, next, op) == Transition(s, next, MakeError(NOT_FOUND))
  {
    hide ValidName, MakeError, StateMatches;
  }

  /** In every reachable server state, an ID issued to one session is meaningless in every other
      one: to the sessions served beside it and to every session accepted after it was issued. */
  lemma SessionsAreIsolated<I>(host: Host<I>, states: seq<State<I>>, i: nat, j: nat, k: nat, id: u64, op: Operation)
    requires ValidHost(host) && Run(host, states) && i <= j < |states|
    requires k < |states[j].slots| && states[j].slots[k].Serving?
    requires id in states[i].issued && Target(op) == Some(id)
    requires op.GetAttribute? || op.InvokeMethod? ==> ValidName(op.name)
    requires states[j].slots[k].since >= |states[i].issued|
             || exists m :: 0 <= m < |states[j].slots| && m != k && !states[j].slots[m].Listening?
                            && id in Keys(states[j].slots[m].session)
    ensures Execute(host, states[j].slots[k].session, states[j].next, op)
            == Transition(states[j].slots[k].session, states[j].next, MakeError(NOT_FOUND))
  {
    hide ValidHost, Execute, MakeError, Run, Target, ValidName;
    RunIssues(host, states, i, j);
    RunKeepsInv(host, states, j);
    NotMine(host, states[j], k, id, |states[i].issued|);
    ForeignIdIsNotFound(host, states[j].slots[k].session, states[j].next, op);
  }

  lemma LaterIdsDiffer(issued: seq<u64>, next: u64, i: nat, since: nat)
    requires IssuedOnce(issued, next) && i < since <= |issued|
    ensures issued[i] !in issued[since..]
  {
    assert forall j :: since <= j < |issued| ==> issued[j] > issued[i];
  }

  lemma NotMine<I>(host: Host<I>, g: State<I>, k: nat, id: u64, before: nat)
    requires Inv(host, g) && k < |g.slots| && g.slots[k].Serving?
    requires before <= |g.issued| && id in g.issued[..before]
    requires g.slots[k].since >= before
             || exists m :: 0 <= m < |g.slots| && m != k && !g.slots[m].Listening? && id in Keys(g.slots[m].session)
    ensures id != 0 && id !in Keys(g.slots[k].session) && !g.slots[k].session.closed
  {
    hide ValidSession, Busy, Keys;
    var i :| 0 <= i < before && g.issued[i] == id;
    var slot := g.slots[k];
    assert OwnIds(slot, g.issued);
    if slot.since >= before {
      LaterIdsDiffer(g.issued, g.next, i, slot.since);
    } else {
      var m :| 0 <= m < |g.slots| && m != k && !g.slots[m].Listening? && id in Keys(g.slots[m].session);
      assert Keys(g.slots[m].session) !! Keys(slot.session);
    }
  }
}
