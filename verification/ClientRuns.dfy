/** Every interleaving of the client's writer, reader, monitor, submitters and controller, one
    step per critical section, with an arbitrary clock, arbitrary tokens and arbitrary I/O results. */
module ClientRuns {
  import opened Contracts
  import opened Codec
  import opened Client
  import Totals

  // Where each worker stands between critical sections.
  datatype Writer = WriterAbsent | Opening(until: int) | Idle | Sending(entry: Entry) | WriterDone
  datatype Reader = ReaderAbsent | AwaitingConnection | Looping | Receiving | ReaderDone
  datatype Monitor = MonitorAbsent | AwaitingStart | Watching | MonitorDone

  datatype State = State(
    shared: Shared, writer: Writer, reader: Reader, monitor: Monitor, now: int, stops: set<u64>)

  datatype Event =
    | Tick(now: int)
    | StopToken(id: u64)
    | StopConnect
    | ConnectCall(usable: bool, until: int, stopped: bool, stopLate: bool, spawn: Spawn)
    | SubmitCall(op: Operation, until: int, stopped: bool)
    | CloseCall
    | OpenEnds(result: Opened)
    | WriterTakes(stopLate: bool)
    | SendEnds(fault: Option<Fault>)
    | ReaderStarts
    | ReaderBegins
    | ReaderEnds(arrival: Arrival, stopLate: bool)
    | MonitorStarts
    | MonitorPasses(seen: set<u64>)

  ghost function Initial(now: int): State { State(Fresh(), WriterAbsent, ReaderAbsent, MonitorAbsent, now, {}) }

  predicate Enabled(c: State, e: Event) {
    match e
    case Tick(now) => now >= c.now
    case StopToken(id) => 1 <= id < c.shared.nextId
    case OpenEnds(_) => c.writer.Opening?
    case WriterTakes(_) => c.writer.Idle? && (c.shared.closed || c.shared.queued != [])
    case SendEnds(_) => c.writer.Sending?
    case ReaderStarts => c.reader.AwaitingConnection? && (c.shared.connected || c.shared.closed)
    case ReaderBegins => c.reader.Looping?
    case ReaderEnds(_, _) => c.reader.Receiving?
    case MonitorStarts => c.monitor.AwaitingStart? && (c.shared.connected || c.shared.closed)
    case MonitorPasses(seen) => c.monitor.Watching? && c.stops * c.shared.pending.Keys <= seen <= c.shared.pending.Keys
    case _ => true
  }

  ghost function AfterConnect(c: State, e: Event): State
    requires e.ConnectCall?
  {
    var t := Connect(c.shared, e.usable, c.now >= e.until, e.stopped, e.stopLate, e.spawn);
    if c.shared.started || c.shared.closed || !e.usable || e.stopped || c.now >= e.until then c.(shared := t)
    else if e.spawn.SpawnFailed? then
      c.(shared := t,
         writer := if e.spawn.writer then Opening(e.until) else c.writer,
         reader := if e.spawn.reader then AwaitingConnection else c.reader)
    else c.(shared := t, writer := Opening(e.until), reader := AwaitingConnection, monitor := AwaitingStart)
  }

  ghost function AfterTake(c: State, stopLate: bool): State
    requires c.shared.closed || c.shared.queued != []
  {
    if c.shared.closed then c.(writer := WriterDone)
    else
      var id := c.shared.queued[0].request.id;
      var t := TakeNext(c.shared, id in c.stops, stopLate, c.now);
      c.(shared := t.shared, writer := if t.sending.Some? then Sending(t.sending.value) else Idle)
  }

  function Named(arrival: Arrival): u64 {
    if arrival.Got? && arrival.decoded.Ok? then arrival.decoded.value.id else 0
  }

  ghost function Next(c: State, e: Event): State
    requires Enabled(c, e)
  {
    match e
    case Tick(now) => c.(now := now)
    case StopToken(id) => c.(stops := c.stops + {id})
    case StopConnect => if c.writer.Opening? then c.(shared := c.shared.(shutdown := true)) else c
    case ConnectCall(_, _, _, _, _) => AfterConnect(c, e)
    case SubmitCall(op, until, stopped) => c.(shared := Submit(c.shared, op, until, stopped, c.now).shared)
    case CloseCall => c.(shared := FailAll(c.shared, Cancelled))
    case OpenEnds(result) =>
      var t := FinishOpen(c.shared, result, c.now >= c.writer.until);
      c.(shared := t, writer := if t.closed then WriterDone else Idle)
    case WriterTakes(stopLate) => AfterTake(c, stopLate)
    case SendEnds(fault) =>
      var t := FinishSend(c.shared, c.writer.entry, fault);
      c.(shared := t, writer := if t.closed then WriterDone else Idle)
    case ReaderStarts => c.(reader := if c.shared.closed then ReaderDone else Looping)
    case ReaderBegins => c.(reader := if c.shared.shutdown then ReaderDone else Receiving)
    case ReaderEnds(arrival, stopLate) =>
      var t := Deliver(c.shared, arrival, Named(arrival) in c.stops, stopLate, c.now);
      c.(shared := t, reader := if t.closed then ReaderDone else Looping)
    case MonitorStarts => c.(monitor := if c.shared.closed then MonitorDone else Watching)
    case MonitorPasses(seen) =>
      var t := Sweep(c.shared, seen, c.now);
      c.(shared := t, monitor := if t.closed then MonitorDone else Watching, stops := c.stops + seen)
  }

  // ---- the joint invariant ------------------------------------------------------------------

  /** Promises and pending calls: one completion at most, none exactly while pending. */
  ghost predicate PromisesOk(s: Shared) {
    && s.nextId >= 1
    && (forall id :: id in s.promises <==> 1 <= id < s.nextId)
    && (forall id :: id in s.promises ==> |s.promises[id]| == if id in s.pending then 0 else 1)
    && (forall id :: id in s.pending ==> id in s.promises && s.pending[id].entry.request.id == id)
    && |s.pending| <= MAX_PENDING_CALLS
  }

  ghost predicate IncreasingQueue(queued: seq<Entry>) {
    forall i, j :: 0 <= i < j < |queued| ==> queued[i].request.id < queued[j].request.id
  }

  /** The queue is the queued part of the pending calls, in increasing ID order. */
  ghost predicate QueueOk(s: Shared) {
    && IncreasingQueue(s.queued)
    && (forall e :: e in s.queued ==> e.request.id in s.pending && s.pending[e.request.id] == Pending(e, Queued))
    && (forall id :: id in s.pending && s.pending[id].phase == Queued ==> s.pending[id].entry in s.queued)
  }

  ghost predicate IncreasingRequests(handed: seq<Request>) {
    forall i, j :: 0 <= i < j < |handed| ==> handed[i].id < handed[j].id
  }

  /** Requests reach the channel in increasing ID order, all before anything still queued. */
  ghost predicate HandedOk(s: Shared) {
    && IncreasingRequests(s.handed)
    && (forall h :: h in s.handed ==> h.id in s.promises)
    && (forall h, e :: h in s.handed && e in s.queued ==> h.id < e.request.id)
    && (forall id :: id in s.pending && s.pending[id].phase != Queued ==> s.pending[id].entry.request in s.handed)
  }

  /** At most one call is being written, and it is the one the writer holds. */
  ghost predicate WriterOk(s: Shared, writer: Writer) {
    && (forall id :: id in s.pending && s.pending[id].phase == Writing ==> writer == Sending(s.pending[id].entry))
    && (writer.Sending? ==> writer.entry.request in s.handed)
  }

  predicate Expected(id: u64, result: CallResult, handed: seq<Request>) {
    match result
    case Answered(response) =>
      && response.id == id
      && exists i :: 0 <= i < |handed| && handed[i].id == id && Matches(handed[i].body, response.body)
    case Failed(cause) =>
      && (cause.kind == Timeout || cause.kind == Cancelled)
      && forall i :: 0 <= i < |handed| ==> handed[i].id != id
  }

  /** While the session is open a call ended by its own response, or unsent by its own deadline or
      token; after it closed, answers still belong to the call that was sent. */
  ghost predicate EndingsOk(s: Shared) {
    forall id :: id in s.promises && id !in s.pending && |s.promises[id]| == 1 ==>
      (s.closed && s.promises[id][0].Failed?) || Expected(id, s.promises[id][0], s.handed)
  }

  /** Connection lifecycle. */
  ghost predicate LifeOk(c: State) {
    var s := c.shared;
    && (s.closed ==> s.pending == map[] && s.queued == [] && s.shutdown && (s.started ==> s.openingDone))
    && |s.opening| == (if s.openingDone then 1 else 0)
    && (s.openingDone ==> s.started)
    && (s.connected ==> s.openingDone)
    && (s.connected <==> s.opening != [] && s.opening[0].Connected?)
    && (s.connected && !s.closed ==> !s.shutdown)
    && (!s.closed && s.openingDone ==> s.connected)
    && (!s.connected ==> s.pending == map[] && s.queued == [] && s.handed == [] && s.nextId == 1)
    && (c.writer.Opening? ==> s.started && !s.connected)
    && (c.writer.Idle? || c.writer.Sending? ==> s.connected)
    && (c.writer.WriterAbsent? ==> !s.connected)
    && (c.writer.WriterDone? ==> s.closed)
    && (c.reader.Looping? || c.reader.Receiving? ==> s.connected)
    && (c.reader.ReaderDone? ==> s.closed)
    && (c.monitor.Watching? ==> s.connected)
    && (c.monitor.MonitorDone? ==> s.closed)
  }

  ghost predicate Inv(c: State) {
    && PromisesOk(c.shared) && QueueOk(c.shared) && HandedOk(c.shared) && WriterOk(c.shared, c.writer)
    && EndingsOk(c.shared) && LifeOk(c)
  }

  lemma InitialInv(now: int)
    ensures Inv(Initial(now))
  {
  }

  // ---- preservation, section by section -----------------------------------------------------

  /** The part of the invariant that speaks about shared data only. */
  ghost predicate DataOk(s: Shared) { PromisesOk(s) && QueueOk(s) && HandedOk(s) && EndingsOk(s) }

  lemma {:induction false} WithoutMembers(queued: seq<Entry>, ids: set<u64>)
    ensures forall e :: e in Without(queued, ids) <==> e in queued && e.request.id !in ids
  {
    if queued != [] {
      WithoutMembers(queued[1..], ids);
      assert queued == [queued[0]] + queued[1..];
    }
  }

  lemma {:induction false} WithoutIncreasing(queued: seq<Entry>, ids: set<u64>)
    requires IncreasingQueue(queued)
    ensures IncreasingQueue(Without(queued, ids))
  {
    if queued != [] {
      var rest := Without(queued[1..], ids);
      WithoutIncreasing(queued[1..], ids);
      WithoutMembers(queued[1..], ids);
      forall i | 0 <= i < |rest| ensures queued[0].request.id < rest[i].request.id {
        assert rest[i] in queued[1..];
      }
    }
  }

  lemma {:induction false} WithoutNothing(queued: seq<Entry>, ids: set<u64>)
    requires forall e :: e in queued ==> e.request.id !in ids
    ensures Without(queued, ids) == queued
  {
    if queued != [] {
      WithoutNothing(queued[1..], ids);
      assert queued == [queued[0]] + queued[1..];
    }
  }

  lemma {:induction false} WithoutEverything(queued: seq<Entry>, ids: set<u64>)
    requires forall e :: e in queued ==> e.request.id in ids
    ensures Without(queued, ids) == []
  {
    if queued != [] {
      WithoutEverything(queued[1..], ids);
    }
  }

  lemma SettlePromises(s: Shared, results: map<u64, CallResult>)
    requires PromisesOk(s) && results.Keys <= s.pending.Keys
    ensures PromisesOk(Settle(s, results))
  {
    hide Without;
    var t := Settle(s, results);
    assert t.pending.Keys <= s.pending.Keys;
    Totals.SubsetSize(t.pending.Keys, s.pending.Keys);
    assert |t.pending| == |t.pending.Keys| && |s.pending| == |s.pending.Keys|;
  }

  lemma SettleQueue(s: Shared, results: map<u64, CallResult>)
    requires PromisesOk(s) && QueueOk(s)
    ensures QueueOk(Settle(s, results))
  {
    hide Without, IncreasingQueue;
    WithoutMembers(s.queued, results.Keys);
    WithoutIncreasing(s.queued, results.Keys);
  }

  lemma SettleHanded(s: Shared, results: map<u64, CallResult>)
    requires HandedOk(s)
    ensures HandedOk(Settle(s, results))
  {
    hide Without, IncreasingRequests;
    WithoutMembers(s.queued, results.Keys);
  }

  lemma SettleEndings(s: Shared, results: map<u64, CallResult>)
    requires PromisesOk(s) && EndingsOk(s) && results.Keys <= s.pending.Keys
    requires forall id :: id in results ==> Expected(id, results[id], s.handed)
    ensures EndingsOk(Settle(s, results))
  {
    hide Without, Expected;
    var t := Settle(s, results);
    forall id | id in t.promises && id !in t.pending && |t.promises[id]| == 1
      ensures (t.closed && t.promises[id][0].Failed?) || Expected(id, t.promises[id][0], t.handed)
    {
      if id in results {
        assert t.promises[id] == [results[id]];
      }
    }
  }

  lemma SettleKeepsData(s: Shared, results: map<u64, CallResult>)
    requires DataOk(s) && results.Keys <= s.pending.Keys
    requires forall id :: id in results ==> Expected(id, results[id], s.handed)
    ensures DataOk(Settle(s, results))
  {
    hide PromisesOk, QueueOk, HandedOk, EndingsOk, Settle, Expected;
    SettlePromises(s, results);
    SettleQueue(s, results);
    SettleHanded(s, results);
    SettleEndings(s, results);
  }

  /** All that closing does besides completing promises. */
  ghost predicate ClosedFrom(s: Shared, t: Shared, common: Cause) {
    if s.closed then t == s
    else t == s.(promises := t.promises, pending := map[], queued := [], closed := true, shutdown := true,
                 opening := if s.started && !s.openingDone then s.opening + [Refused(common)] else s.opening,
                 openingDone := s.openingDone || s.started)
  }

  lemma FailCloses(s: Shared, common: Cause, id: u64, specific: Cause)
    requires QueueOk(s)
    ensures ClosedFrom(s, Fail(s, common, id, specific), common)
  {
    hide Without, IncreasingQueue;
    var results := Verdicts(s.pending, common, id, specific);
    assert results.Keys == s.pending.Keys;
    assert s.pending - results.Keys == map[];
    WithoutEverything(s.queued, results.Keys);
  }

  lemma FailEndings(s: Shared, common: Cause, id: u64, specific: Cause)
    requires PromisesOk(s) && EndingsOk(s) && !s.closed
    ensures EndingsOk(Fail(s, common, id, specific))
  {
    hide Expected, Without;
    var t := Fail(s, common, id, specific);
    forall k | k in t.promises && |t.promises[k]| == 1
      ensures t.promises[k][0].Failed? || Expected(k, t.promises[k][0], t.handed)
    {
      if k in s.pending {
        assert t.promises[k] == [Verdicts(s.pending, common, id, specific)[k]];
      } else {
        assert t.promises[k] == s.promises[k];
      }
    }
  }

  /** These clauses look at the collections only. */
  lemma SameCollections(t: Shared, u: Shared)
    requires t.promises == u.promises && t.pending == u.pending && t.queued == u.queued
    requires t.handed == u.handed && t.nextId == u.nextId
    ensures PromisesOk(u) ==> PromisesOk(t)
    ensures QueueOk(u) ==> QueueOk(t)
    ensures HandedOk(u) ==> HandedOk(t)
    ensures EndingsOk(u) && (u.closed ==> t.closed) ==> EndingsOk(t)
  {
    hide Expected, IncreasingQueue, IncreasingRequests;
  }

  lemma FailKeepsData(s: Shared, common: Cause, id: u64, specific: Cause)
    requires DataOk(s)
    ensures DataOk(Fail(s, common, id, specific))
  {
    hide PromisesOk, QueueOk, HandedOk, EndingsOk, Without;
    if !s.closed {
      var results := Verdicts(s.pending, common, id, specific);
      assert results.Keys == s.pending.Keys;
      FailCloses(s, common, id, specific);
      SettlePromises(s, results);
      SettleQueue(s, results);
      SettleHanded(s, results);
      SameCollections(Fail(s, common, id, specific), Settle(s, results));
      FailEndings(s, common, id, specific);
    }
  }

  // Admission.

  ghost predicate Admitted(s: Shared, t: Shared, entry: Entry) {
    && entry.request.id == s.nextId && s.nextId < U64_MAX && |s.pending| < MAX_PENDING_CALLS
    && t == s.(nextId := s.nextId + 1,
               promises := s.promises[s.nextId := []],
               pending := s.pending[s.nextId := Pending(entry, Queued)],
               queued := s.queued + [entry])
  }

  lemma SubmitAdmits(s: Shared, op: Operation, until: int, stopped: bool, now: int) returns (entry: Entry)
    ensures var t := Submit(s, op, until, stopped, now);
            if t.immediate.Some? then t.shared == s
            else !s.closed && s.connected && Admitted(s, t.shared, entry)
                 && entry.request == Request(s.nextId, op, VERSION) && EncodeRequest(entry.request) == Ok(entry.payload)
  {
    hide EncodeRequest;
    var request := Request(s.nextId, op, VERSION);
    entry := Entry(request, if EncodeRequest(request).Ok? then EncodeRequest(request).value else Packet(0, None), until);
  }

  lemma AdmittedPromises(s: Shared, t: Shared, entry: Entry)
    requires PromisesOk(s) && Admitted(s, t, entry)
    ensures PromisesOk(t)
  {
    InsertSize(s.pending, s.nextId, Pending(entry, Queued));
  }

  lemma InsertSize<K, V>(m: map<K, V>, k: K, v: V)
    ensures |m[k := v]| <= |m| + 1
  {
    assert m[k := v].Keys == m.Keys + {k};
    assert |m[k := v]| == |m[k := v].Keys| && |m| == |m.Keys|;
  }

  lemma AdmittedQueue(s: Shared, t: Shared, entry: Entry)
    requires PromisesOk(s) && QueueOk(s) && Admitted(s, t, entry)
    ensures QueueOk(t)
  {
    forall i | 0 <= i < |s.queued| ensures s.queued[i].request.id < entry.request.id {
      assert s.queued[i] in s.queued;
    }
  }

  lemma AdmittedHanded(s: Shared, t: Shared, entry: Entry)
    requires PromisesOk(s) && HandedOk(s) && Admitted(s, t, entry)
    ensures HandedOk(t)
  {
    hide IncreasingRequests;
  }

  lemma AdmittedEndings(s: Shared, t: Shared, entry: Entry)
    requires PromisesOk(s) && EndingsOk(s) && Admitted(s, t, entry)
    ensures EndingsOk(t)
  {
    hide Expected;
  }

  lemma SubmitKeepsData(s: Shared, op: Operation, until: int, stopped: bool, now: int)
    requires DataOk(s)
    ensures DataOk(Submit(s, op, until, stopped, now).shared)
  {
    hide PromisesOk, QueueOk, HandedOk, EndingsOk, Submit, Admitted;
    var entry := SubmitAdmits(s, op, until, stopped, now);
    var t := Submit(s, op, until, stopped, now);
    if t.immediate.None? {
      AdmittedPromises(s, t.shared, entry);
      AdmittedQueue(s, t.shared, entry);
      AdmittedHanded(s, t.shared, entry);
      AdmittedEndings(s, t.shared, entry);
    }
  }

  // Handing the queue front to the channel.

  ghost predicate HandsOver(s: Shared, t: Shared) {
    && s.queued != []
    && s.queued[0].request.id in s.pending
    && t == s.(queued := s.queued[1..],
               pending := s.pending[s.queued[0].request.id := s.pending[s.queued[0].request.id].(phase := Writing)],
               handed := s.handed + [s.queued[0].request])
  }

  /** Moving a call to another phase does not touch the promises. */
  lemma PhasesLeavePromises(s: Shared, t: Shared)
    requires PromisesOk(s) && t.promises == s.promises && t.nextId == s.nextId && t.pending.Keys == s.pending.Keys
    requires forall id :: id in s.pending ==> t.pending[id].entry == s.pending[id].entry
    ensures PromisesOk(t)
  {
    assert |t.pending| == |t.pending.Keys| && |s.pending| == |s.pending.Keys|;
  }

  lemma HandsOverPromises(s: Shared, t: Shared)
    requires PromisesOk(s) && HandsOver(s, t)
    ensures PromisesOk(t)
  {
    hide PromisesOk;
    PhasesLeavePromises(s, t);
  }

  /** Behind the queue front: the rest of the queue, all with larger IDs. */
  lemma BehindFront(queued: seq<Entry>)
    requires IncreasingQueue(queued) && queued != []
    ensures IncreasingQueue(queued[1..])
    ensures forall e :: e in queued[1..] <==> e in queued && queued[0].request.id < e.request.id
    ensures forall e :: e in queued ==> e == queued[0] || e in queued[1..]
  {
    assert queued == [queued[0]] + queued[1..];
    forall e | e in queued[1..] ensures queued[0].request.id < e.request.id {
      var i :| 0 <= i < |queued[1..]| && queued[1..][i] == e;
      assert queued[i + 1] == e;
    }
  }

  lemma HandsOverQueue(s: Shared, t: Shared)
    requires PromisesOk(s) && QueueOk(s) && HandsOver(s, t)
    ensures QueueOk(t)
  {
    hide IncreasingQueue, PromisesOk;
    BehindFront(s.queued);
    forall id | id in t.pending && t.pending[id].phase == Queued ensures t.pending[id].entry in t.queued {
      assert s.pending[id] == t.pending[id];
      PendingId(s, id);
    }
  }

  lemma HandsOverHanded(s: Shared, t: Shared)
    requires PromisesOk(s) && QueueOk(s) && HandedOk(s) && HandsOver(s, t)
    ensures HandedOk(t)
  {
    hide IncreasingQueue, IncreasingRequests, PromisesOk;
    BehindFront(s.queued);
    var first := s.queued[0];
    assert first in s.queued;
    PendingId(s, first.request.id);
    HandedGrows(s.handed, first.request);
  }

  lemma HandedGrows(handed: seq<Request>, r: Request)
    requires IncreasingRequests(handed) && forall h :: h in handed ==> h.id < r.id
    ensures IncreasingRequests(handed + [r])
  {
    forall i | 0 <= i < |handed| ensures handed[i].id < r.id {
      assert handed[i] in handed;
    }
  }

  lemma HandsOverEndings(s: Shared, t: Shared)
    requires PromisesOk(s) && EndingsOk(s) && HandsOver(s, t)
    ensures EndingsOk(t)
  {
    forall id | id in t.promises && id !in t.pending && |t.promises[id]| == 1
      ensures (t.closed && t.promises[id][0].Failed?) || Expected(id, t.promises[id][0], t.handed)
    {
      var result := s.promises[id][0];
      if Expected(id, result, s.handed) && result.Answered? {
        var i :| 0 <= i < |s.handed| && s.handed[i].id == id && Matches(s.handed[i].body, result.response.body);
        assert t.handed[i] == s.handed[i];
      }
    }
  }

  lemma NotYetHanded(s: Shared, e: Entry)
    requires HandedOk(s) && e in s.queued
    ensures forall i :: 0 <= i < |s.handed| ==> s.handed[i].id != e.request.id
  {
    hide IncreasingRequests;
    forall i | 0 <= i < |s.handed| ensures s.handed[i].id != e.request.id {
      assert s.handed[i] in s.handed;
    }
  }

  /** An unsent call may end on its own, by deadline or token. */
  lemma UnsentEnding(s: Shared, e: Entry, stopped: bool)
    requires HandedOk(s) && e in s.queued
    ensures Expected(e.request.id, Failed(CauseOf(stopped)), s.handed)
  {
    hide HandedOk;
    NotYetHanded(s, e);
  }

  lemma TakeNextIs(s: Shared, stopped: bool, stopLate: bool, now: int)
    requires QueueOk(s) && s.queued != []
    ensures s.queued[0].request.id in s.pending
    ensures var t := TakeNext(s, stopped, stopLate, now);
            t.sending.Some? ==> t.sending == Some(s.queued[0]) && HandsOver(s, t.shared)
  {
    hide Settle, IncreasingQueue;
    assert s.queued[0] in s.queued;
  }

  lemma TakeNextKeepsData(s: Shared, stopped: bool, stopLate: bool, now: int)
    requires DataOk(s) && s.queued != []
    ensures DataOk(TakeNext(s, stopped, stopLate, now).shared)
  {
    hide PromisesOk, QueueOk, HandedOk, EndingsOk, Settle, HandsOver, Expected;
    TakeNextIs(s, stopped, stopLate, now);
    var t, e := TakeNext(s, stopped, stopLate, now), s.queued[0];
    assert e in s.queued;
    if t.sending.Some? {
      HandsOverPromises(s, t.shared);
      HandsOverQueue(s, t.shared);
      HandsOverHanded(s, t.shared);
      HandsOverEndings(s, t.shared);
    } else {
      var results := map[e.request.id := Failed(CauseOf(stopped || stopLate))];
      UnsentEnding(s, e, stopped || stopLate);
      SettleKeepsData(s, results);
    }
  }

  // The channel returned.

  ghost predicate Marks(s: Shared, t: Shared, id: u64) {
    && id in s.pending && s.pending[id].phase != Queued
    && t == s.(pending := s.pending[id := s.pending[id].(phase := Sent)])
  }

  lemma MarksKeepsData(s: Shared, t: Shared, id: u64)
    requires DataOk(s) && Marks(s, t, id)
    ensures DataOk(t)
  {
    hide PromisesOk, QueueOk, HandedOk, EndingsOk;
    PhasesLeavePromises(s, t);
    MarksKeepsQueue(s, t, id);
    MarksKeepsHanded(s, t, id);
    MarksKeepsEndings(s, t, id);
  }

  lemma MarksKeepsQueue(s: Shared, t: Shared, id: u64)
    requires QueueOk(s) && Marks(s, t, id)
    ensures QueueOk(t)
  {
    hide IncreasingQueue;
  }

  lemma MarksKeepsHanded(s: Shared, t: Shared, id: u64)
    requires HandedOk(s) && Marks(s, t, id)
    ensures HandedOk(t)
  {
    hide IncreasingRequests;
  }

  lemma MarksKeepsEndings(s: Shared, t: Shared, id: u64)
    requires EndingsOk(s) && Marks(s, t, id)
    ensures EndingsOk(t)
  {
    hide Expected;
  }

  lemma HandedIsNotQueued(s: Shared, r: Request)
    requires PromisesOk(s) && QueueOk(s) && HandedOk(s) && r in s.handed
    ensures r.id in s.pending ==> s.pending[r.id].phase != Queued
  {
    hide IncreasingQueue, IncreasingRequests;
  }

  lemma FinishSendKeepsData(s: Shared, entry: Entry, fault: Option<Fault>)
    requires DataOk(s) && entry.request in s.handed
    ensures DataOk(FinishSend(s, entry, fault))
  {
    hide PromisesOk, QueueOk, HandedOk, EndingsOk, Fail;
    if !s.closed {
      if fault.Some? {
        FailKeepsData(s, Cause(Disconnected, 0), entry.request.id, Translate(fault.value));
      } else {
        HandedIsNotQueued(s, entry.request);
        if entry.request.id in s.pending {
          MarksKeepsData(s, FinishSend(s, entry, fault), entry.request.id);
        }
      }
    }
  }

  lemma AnsweredIsExpected(s: Shared, response: Response)
    requires PromisesOk(s) && HandedOk(s) && response.id in s.pending && s.pending[response.id].phase != Queued
    requires Matches(s.pending[response.id].entry.request.body, response.body)
    ensures Expected(response.id, Answered(response), s.handed)
  {
    hide IncreasingRequests, Matches;
    var request := s.pending[response.id].entry.request;
    var i :| 0 <= i < |s.handed| && s.handed[i] == request;
    assert s.handed[i].id == response.id;
  }

  lemma DeliverKeepsData(s: Shared, arrival: Arrival, stopped: bool, stopLate: bool, now: int)
    requires DataOk(s)
    ensures DataOk(Deliver(s, arrival, stopped, stopLate, now))
  {
    hide PromisesOk, QueueOk, HandedOk, EndingsOk, Fail, Settle, Matches, Expected;
    if !s.closed {
      FailKeepsData(s, Cause(ProtocolViolation, 0), 0, Cause(TransportFailure, 0));
      if arrival.Lost? {
        FailKeepsData(s, Translate(arrival.fault), 0, Cause(TransportFailure, 0));
      } else if arrival.decoded.Ok? {
        var response := arrival.decoded.value;
        var id := response.id;
        FailKeepsData(s, Cause(Disconnected, 0), id, CauseOf(stopped || stopLate));
        if id in s.pending && s.pending[id].phase != Queued
           && Matches(s.pending[id].entry.request.body, response.body) {
          AnsweredIsExpected(s, response);
          SettleKeepsData(s, map[id := Answered(response)]);
        }
      }
    }
  }

  // The monitor's pass.

  lemma SweepKeepsData(s: Shared, seen: set<u64>, now: int)
    requires DataOk(s)
    ensures DataOk(Sweep(s, seen, now))
  {
    hide PromisesOk, HandedOk, EndingsOk, Fail, Settle, Expected, IncreasingQueue;
    var flying, late := OverdueInFlight(s, seen, now), OverdueQueued(s, seen, now);
    if !s.closed {
      if flying != {} {
        FailKeepsData(s, Cause(Disconnected, 0), Least(flying), CauseOf(Least(flying) in seen));
      } else {
        forall id | id in late ensures Expected(id, Failed(CauseOf(id in seen)), s.handed) {
          PendingId(s, id);
          UnsentEnding(s, s.pending[id].entry, id in seen);
        }
        SettleKeepsData(s, Expiries(seen, late));
      }
    }
  }

  lemma PendingId(s: Shared, id: u64)
    requires PromisesOk(s) && id in s.pending
    ensures s.pending[id].entry.request.id == id && id in s.promises && id >= 1
  {
  }

  // ---- every step ---------------------------------------------------------------------------

  lemma BegunKeepsData(s: Shared)
    requires DataOk(s)
    ensures DataOk(s.(started := true)) && DataOk(s.(shutdown := true))
    ensures DataOk(s.(connected := true, openingDone := true, opening := s.opening + [Connected]))
  {
    hide PromisesOk, QueueOk, HandedOk, EndingsOk;
    SameCollections(s.(started := true), s);
    SameCollections(s.(shutdown := true), s);
    SameCollections(s.(connected := true, openingDone := true, opening := s.opening + [Connected]), s);
  }

  lemma ConnectKeepsData(s: Shared, usable: bool, expired: bool, stopped: bool, stopLate: bool, spawn: Spawn)
    requires DataOk(s)
    ensures DataOk(Connect(s, usable, expired, stopped, stopLate, spawn))
  {
    hide DataOk, Fail;
    BegunKeepsData(s);
    var begun := s.(started := true);
    FailKeepsData(begun, CauseOf(stopped || stopLate), 0, Cause(TransportFailure, 0));
    if spawn.SpawnFailed? {
      FailKeepsData(begun, Cause(InternalFailure, spawn.code), 0, Cause(TransportFailure, 0));
    }
  }

  lemma FinishOpenKeepsData(s: Shared, result: Opened, expired: bool)
    requires DataOk(s)
    ensures DataOk(FinishOpen(s, result, expired))
  {
    hide DataOk, Fail;
    BegunKeepsData(s);
    if result.OpenFailed? {
      FailKeepsData(s, Translate(result.fault), 0, Cause(TransportFailure, 0));
    }
    FailKeepsData(s, Cause(InternalFailure, 0), 0, Cause(TransportFailure, 0));
    FailKeepsData(s, Cause(Cancelled, 0), 0, Cause(TransportFailure, 0));
    FailKeepsData(s, Cause(Timeout, 0), 0, Cause(TransportFailure, 0));
  }

  lemma NextKeepsData(c: State, e: Event)
    requires DataOk(c.shared) && WriterOk(c.shared, c.writer) && Enabled(c, e)
    ensures DataOk(Next(c, e).shared)
  {
    hide DataOk, Fail, Submit, TakeNext, FinishSend, Deliver, Sweep, Connect, FinishOpen;
    var s := c.shared;
    match e {
      case StopConnect => BegunKeepsData(s);
      case ConnectCall(usable, until, stopped, stopLate, spawn) =>
        ConnectKeepsData(s, usable, c.now >= until, stopped, stopLate, spawn);
      case SubmitCall(op, until, stopped) => SubmitKeepsData(s, op, until, stopped, c.now);
      case CloseCall => FailKeepsData(s, Cause(Cancelled, 0), 0, Cause(TransportFailure, 0));
      case OpenEnds(result) => FinishOpenKeepsData(s, result, c.now >= c.writer.until);
      case WriterTakes(stopLate) =>
        if !s.closed {
          TakeNextKeepsData(s, s.queued[0].request.id in c.stops, stopLate, c.now);
        }
      case SendEnds(fault) => FinishSendKeepsData(s, c.writer.entry, fault);
      case ReaderEnds(arrival, stopLate) => DeliverKeepsData(s, arrival, Named(arrival) in c.stops, stopLate, c.now);
      case MonitorPasses(seen) => SweepKeepsData(s, seen, c.now);
      case _ =>
    }
  }

  lemma FailsClose(s: Shared)
    requires QueueOk(s)
    ensures forall common, id, specific :: ClosedFrom(s, Fail(s, common, id, specific), common)
  {
    hide QueueOk, ClosedFrom, Fail;
    forall common, id, specific ensures ClosedFrom(s, Fail(s, common, id, specific), common) {
      FailCloses(s, common, id, specific);
    }
  }

  /** What a call's step does to the lifecycle: it closes the session, or works inside an open one. */
  ghost predicate Proceeds(s: Shared, t: Shared) {
    || t == s
    || (exists common :: ClosedFrom(s, t, common))
    || (s.connected && !s.closed
        && t == s.(promises := t.promises, pending := t.pending, queued := t.queued, nextId := t.nextId, handed := t.handed))
  }

  lemma CallsProceed(c: State, e: Event)
    requires QueueOk(c.shared) && LifeOk(c) && Enabled(c, e)
    requires !e.StopConnect? && !e.ConnectCall? && !e.OpenEnds?
    ensures Proceeds(c.shared, Next(c, e).shared)
  {
    hide QueueOk, ClosedFrom, Fail, Without, EncodeRequest, Matches, Overdue;
    FailsClose(c.shared);
  }

  lemma ProceedingKeepsLife(c: State, d: State)
    requires LifeOk(c) && Proceeds(c.shared, d.shared)
    requires d.writer == c.writer || (c.shared.connected && (d.writer.Idle? || d.writer.Sending?))
             || (d.writer.WriterDone? && d.shared.closed)
    requires d.reader == c.reader || (c.shared.connected && (d.reader.Looping? || d.reader.Receiving?))
             || (d.reader.ReaderDone? && d.shared.closed)
    requires d.monitor == c.monitor || (c.shared.connected && d.monitor.Watching?)
             || (d.monitor.MonitorDone? && d.shared.closed)
    ensures LifeOk(d)
  {
  }

  lemma ConnectKeepsLife(c: State, e: Event)
    requires QueueOk(c.shared) && LifeOk(c) && e.ConnectCall?
    ensures LifeOk(AfterConnect(c, e))
  {
    hide QueueOk, Fail;
    assert QueueOk(c.shared.(started := true)) by {
      SameCollections(c.shared.(started := true), c.shared);
    }
    FailsClose(c.shared.(started := true));
  }

  lemma OpeningKeepsLife(c: State, e: Event)
    requires QueueOk(c.shared) && LifeOk(c) && Enabled(c, e) && (e.StopConnect? || e.OpenEnds?)
    ensures LifeOk(Next(c, e))
  {
    hide QueueOk, Fail;
    FailsClose(c.shared);
  }

  lemma NextKeepsLife(c: State, e: Event)
    requires QueueOk(c.shared) && LifeOk(c) && Enabled(c, e)
    ensures LifeOk(Next(c, e))
  {
    if e.ConnectCall? {
      ConnectKeepsLife(c, e);
    } else if e.StopConnect? || e.OpenEnds? {
      OpeningKeepsLife(c, e);
    } else {
      hide QueueOk, Proceeds, Submit, Fail, TakeNext, FinishSend, Deliver, Sweep;
      CallsProceed(c, e);
      ProceedingKeepsLife(c, Next(c, e));
    }
  }

  /** Nothing enters the writing phase and nothing handed over is forgotten. */
  ghost predicate KeepsWriting(s: Shared, t: Shared) {
    && t.handed == s.handed
    && forall id :: id in t.pending && t.pending[id].phase == Writing ==> id in s.pending && t.pending[id] == s.pending[id]
  }

  lemma FailsKeepWriting(s: Shared)
    requires QueueOk(s)
    ensures forall common, id, specific :: KeepsWriting(s, Fail(s, common, id, specific))
  {
    hide QueueOk, Fail;
    FailsClose(s);
  }

  lemma CallsKeepWriting(c: State, e: Event)
    requires QueueOk(c.shared) && Enabled(c, e) && !e.WriterTakes? && !e.SendEnds?
    ensures KeepsWriting(c.shared, Next(c, e).shared)
  {
    hide QueueOk, Fail, Without, EncodeRequest, Matches, Overdue;
    FailsKeepWriting(c.shared);
    assert QueueOk(c.shared.(started := true)) by {
      SameCollections(c.shared.(started := true), c.shared);
    }
    FailsKeepWriting(c.shared.(started := true));
  }

  lemma TakeKeepsWriter(c: State, stopLate: bool)
    requires QueueOk(c.shared) && WriterOk(c.shared, c.writer) && c.writer.Idle?
    requires c.shared.closed || c.shared.queued != []
    ensures WriterOk(AfterTake(c, stopLate).shared, AfterTake(c, stopLate).writer)
  {
    hide Without, IncreasingQueue;
    if !c.shared.closed {
      assert c.shared.queued[0] in c.shared.queued;
    }
  }

  lemma SendKeepsWriter(s: Shared, entry: Entry, fault: Option<Fault>)
    requires PromisesOk(s) && QueueOk(s) && WriterOk(s, Sending(entry)) && (s.closed ==> s.pending == map[])
    ensures var t := FinishSend(s, entry, fault); forall id :: id in t.pending ==> t.pending[id].phase != Writing
  {
    hide QueueOk, Fail;
    FailsClose(s);
  }

  lemma NextKeepsWriter(c: State, e: Event)
    requires DataOk(c.shared) && WriterOk(c.shared, c.writer) && LifeOk(c) && Enabled(c, e)
    ensures WriterOk(Next(c, e).shared, Next(c, e).writer)
  {
    hide PromisesOk, QueueOk, HandedOk, EndingsOk;
    if e.WriterTakes? {
      TakeKeepsWriter(c, e.stopLate);
    } else if e.SendEnds? {
      SendKeepsWriter(c.shared, c.writer.entry, e.fault);
    } else {
      CallsKeepWriting(c, e);
      hide Submit, Fail, Deliver, Sweep, FinishOpen, Connect;
      assert c.writer.Sending? ==> Next(c, e).writer == c.writer;
    }
  }

  /** Every step of every worker keeps the joint invariant. */
  lemma NextKeepsInv(c: State, e: Event)
    requires Inv(c) && Enabled(c, e)
    ensures Inv(Next(c, e))
  {
    hide PromisesOk, QueueOk, HandedOk, EndingsOk, WriterOk, LifeOk, Next;
    NextKeepsData(c, e);
    NextKeepsWriter(c, e);
    NextKeepsLife(c, e);
  }
}
