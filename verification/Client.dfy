/** The client connection: the state its mutex protects, and one function per critical section. */
module Client {
  import opened Contracts
  import opened Messages
  import opened Codec
  import Streams
  import Totals

  const MAX_PENDING_CALLS := 16
  const CANCELLATION_SLICE := 5_000_000  // nanoseconds of the steady clock

  datatype FailureKind = InvalidRequest | NotConnected | QuotaExceeded | Timeout | Cancelled | Disconnected
                       | AccessDenied | ProtocolViolation | TransportFailure | InternalFailure
  datatype Cause = Cause(kind: FailureKind, native: u32)
  datatype CallResult = Answered(response: Response) | Failed(cause: Cause)
  datatype ConnectResult = Connected | Refused(cause: Cause)

  /** A transport failure as the channel reports it. */
  datatype Fault = Fault(kind: Streams.Kind, native: u32)

  function Translate(fault: Fault): Cause {
    Cause(match fault.kind
          case TimedOut => Timeout
          case Cancelled => FailureKind.Cancelled
          case Disconnected => FailureKind.Disconnected
          case AccessDenied => FailureKind.AccessDenied
          case ProtocolViolation => FailureKind.ProtocolViolation
          case InvalidConfiguration => InvalidRequest
          case IoFailure => TransportFailure,
          fault.native)
  }

  /** Does an outcome answer this operation? */
  predicate Matches(op: Operation, outcome: Outcome) {
    outcome.Error? ||
    match op
    case ListClasses(_, _) => outcome.ClassesPage?
    case DescribeClass(name) => outcome.Description? && outcome.description.name == name
    case PutValue(data) => outcome.Stored? && SameValue(outcome.record.data, data)
    case GetValue(id) => outcome.Stored? && outcome.record.id == id
    case ListValues(_, _) => outcome.ValuesPage?
    case CreateObject(name, _) => outcome.Snapshot? && outcome.className == name
    case GetObject(id) => outcome.Snapshot? && outcome.id == id
    case ReleaseObject(_) => outcome.Released?
    case GetAttribute(_, _) => outcome.Result?
    case InvokeMethod(_, _, _) => outcome.Result?
  }

  /** An admitted call: its request, its encoded payload and its deadline. */
  datatype Entry = Entry(request: Request, payload: Packet<PbRequest>, until: int)
  datatype Phase = Queued | Writing | Sent
  datatype Pending = Pending(entry: Entry, phase: Phase)

  /** What the mutex protects, with the history of promise completions and of requests handed to
      the channel. A promise is the list of values it was given: one entry is a completion, two
      would be a fatal defect. */
  datatype Shared = Shared(
    started: bool,
    connected: bool,
    openingDone: bool,
    closed: bool,
    shutdown: bool,
    pending: map<u64, Pending>,
    queued: seq<Entry>,
    nextId: u64,
    opening: seq<ConnectResult>,
    promises: map<u64, seq<CallResult>>,
    handed: seq<Request>)

  function Fresh(): Shared { Shared(false, false, false, false, false, map[], [], 1, [], map[], []) }

  function Without(queued: seq<Entry>, ids: set<u64>): seq<Entry> {
    if queued == [] then []
    else (if queued[0].request.id in ids then [] else [queued[0]]) + Without(queued[1..], ids)
  }

  /** The promises after these calls were given these results. */
  function Resolved(promises: map<u64, seq<CallResult>>, results: map<u64, CallResult>): map<u64, seq<CallResult>> {
    map id | id in promises :: if id in results then promises[id] + [results[id]] else promises[id]
  }

  /** These calls complete with these results and are neither pending nor queued any more. */
  function Settle(s: Shared, results: map<u64, CallResult>): Shared {
    s.(promises := Resolved(s.promises, results),
       pending := s.pending - results.Keys,
       queued := Without(s.queued, results.Keys))
  }

  // ---- critical sections --------------------------------------------------------------------

  function Verdicts(pending: map<u64, Pending>, common: Cause, id: u64, specific: Cause): map<u64, CallResult> {
    map k | k in pending :: Failed(if k == id then specific else common)
  }

  /** Closes the session once: resolves the opening and every pending promise, empties both queues. */
  function Fail(s: Shared, common: Cause, id: u64, specific: Cause): Shared {
    if s.closed then s
    else Settle(s, Verdicts(s.pending, common, id, specific)).(
           closed := true,
           shutdown := true,
           opening := if s.started && !s.openingDone then s.opening + [Refused(common)] else s.opening,
           openingDone := s.openingDone || s.started)
  }

  function FailAll(s: Shared, kind: FailureKind): Shared { Fail(s, Cause(kind, 0), 0, Cause(TransportFailure, 0)) }

  /** The token was seen before the deadline comparison, or at the latest when the cause is chosen. */
  function CauseOf(stopped: bool): Cause { Cause(if stopped then Cancelled else Timeout, 0) }

  /** Thread creation: a failure leaves the workers already started behind a closed session. */
  datatype Spawn = AllStarted | SpawnFailed(code: u32, writer: bool, reader: bool)

  /** Starting the connection. `stopLate` is the token as the cause is chosen. */
  function Connect(s: Shared, usable: bool, expired: bool, stopped: bool, stopLate: bool, spawn: Spawn): Shared {
    if s.started || s.closed || !usable then s
    else
      var begun := s.(started := true);
      if stopped || expired then Fail(begun, CauseOf(stopped || stopLate), 0, Cause(TransportFailure, 0))
      else if spawn.SpawnFailed? then Fail(begun, Cause(InternalFailure, spawn.code), 0, Cause(TransportFailure, 0))
      else begun
  }

  datatype Opened = OpenFailed(fault: Fault) | NoChannel | HasChannel

  function FinishOpen(s: Shared, result: Opened, expired: bool): Shared {
    if result.OpenFailed? then Fail(s, Translate(result.fault), 0, Cause(TransportFailure, 0))
    else if s.closed then s
    else if result.NoChannel? then FailAll(s, InternalFailure)
    else if s.shutdown then FailAll(s, Cancelled)
    else if expired then FailAll(s, Timeout)
    else s.(connected := true, openingDone := true, opening := s.opening + [Connected])
  }

  datatype Admission = Admission(shared: Shared, immediate: Option<CallResult>)

  function Submit(s: Shared, op: Operation, until: int, stopped: bool, now: int): Admission {
    if !s.connected || s.closed then Admission(s, Some(Failed(Cause(NotConnected, 0))))
    else if stopped then Admission(s, Some(Failed(Cause(Cancelled, 0))))
    else if now >= until then Admission(s, Some(Failed(Cause(Timeout, 0))))
    else if |s.pending| >= MAX_PENDING_CALLS || s.nextId == U64_MAX then
      Admission(s, Some(Failed(Cause(QuotaExceeded, 0))))
    else
      var request := Request(s.nextId, op, VERSION);
      match EncodeRequest(request)
      case Rejected(_) => Admission(s, Some(Failed(Cause(InvalidRequest, 0))))
      case Ok(payload) =>
        var entry := Entry(request, payload, until);
        Admission(s.(nextId := s.nextId + 1,
                     promises := s.promises[s.nextId := []],
                     pending := s.pending[s.nextId := Pending(entry, Queued)],
                     queued := s.queued + [entry]), None)
  }

  datatype Taken = Taken(shared: Shared, sending: Option<Entry>)

  /** The writer pops the queue front: it drops an overdue call or hands it to the channel. */
  function TakeNext(s: Shared, stopped: bool, stopLate: bool, now: int): Taken
    requires s.queued != []
  {
    var entry := s.queued[0];
    var id := entry.request.id;
    if stopped || now >= entry.until then Taken(Settle(s, map[id := Failed(CauseOf(stopped || stopLate))]), None)
    else Taken(SetPhase(s, id, Writing).(queued := s.queued[1..], handed := s.handed + [entry.request]), Some(entry))
  }

  function SetPhase(s: Shared, id: u64, phase: Phase): Shared {
    if id in s.pending then s.(pending := s.pending[id := s.pending[id].(phase := phase)]) else s
  }

  /** The channel returned from sending `entry`. */
  function FinishSend(s: Shared, entry: Entry, fault: Option<Fault>): Shared {
    if s.closed then s
    else if fault.Some? then Fail(s, Cause(Disconnected, 0), entry.request.id, Translate(fault.value))
    else SetPhase(s, entry.request.id, Sent)
  }

  datatype Arrival = Lost(fault: Fault) | Got(decoded: Checked<Response>)

  /** The channel returned a payload or a failure to the reader. */
  function Deliver(s: Shared, arrival: Arrival, stopped: bool, stopLate: bool, now: int): Shared {
    if s.closed then s
    else
      match arrival
      case Lost(fault) => Fail(s, Translate(fault), 0, Cause(TransportFailure, 0))
      case Got(Rejected(_)) => FailAll(s, ProtocolViolation)
      case Got(Ok(response)) =>
        var id := response.id;
        if id !in s.pending || s.pending[id].phase == Queued
           || !Matches(s.pending[id].entry.request.body, response.body) then FailAll(s, ProtocolViolation)
        else if stopped || now >= s.pending[id].entry.until then
          Fail(s, Cause(Disconnected, 0), id, CauseOf(stopped || stopLate))
        else Settle(s, map[id := Answered(response)])
  }

  predicate Overdue(s: Shared, seen: set<u64>, now: int, id: u64)
    requires id in s.pending
  {
    id in seen || now >= s.pending[id].entry.until
  }

  /** Calls of the monitor's pass that are overdue while on the wire, and while still queued. */
  function OverdueInFlight(s: Shared, seen: set<u64>, now: int): set<u64> {
    set id | id in s.pending && s.pending[id].phase != Queued && Overdue(s, seen, now, id)
  }
  function OverdueQueued(s: Shared, seen: set<u64>, now: int): set<u64> {
    set id | id in s.pending && s.pending[id].phase == Queued && Overdue(s, seen, now, id)
  }

  /** The cause the monitor saw for each of these calls. */
  function Expiries(seen: set<u64>, ids: set<u64>): map<u64, CallResult> {
    map id | id in ids :: Failed(CauseOf(id in seen))
  }

  ghost function Least(ids: set<u64>): u64
    requires ids != {}
    ensures Least(ids) in ids && forall j :: j in ids ==> Least(ids) <= j
  {
    Totals.LeastExists(ids);
    var k :| k in ids && forall j :: j in ids ==> k <= j;
    k
  }

  /** One pass of the monitor: an overdue call on the wire ends the session, blaming the lowest
      such ID; otherwise exactly the overdue queued calls are removed. */
  ghost function Sweep(s: Shared, seen: set<u64>, now: int): Shared {
    if s.closed then s
    else
      var flying := OverdueInFlight(s, seen, now);
      if flying != {} then Fail(s, Cause(Disconnected, 0), Least(flying), CauseOf(Least(flying) in seen))
      else Settle(s, Expiries(seen, OverdueQueued(s, seen, now)))
  }
}
