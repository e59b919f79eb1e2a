/** The client's connection object: its critical sections as methods on mutable state. */
module Connections {
  import opened Contracts
  import opened Codec
  import opened Client
  import opened ClientRuns
  import opened Totals

  lemma SettleNothing(s: Shared)
    ensures Settle(s, map[]) == s
  {
    var none: map<u64, CallResult> := map[];
    assert none.Keys == {};
    WithoutNothing(s.queued, none.Keys);
    assert s.pending - none.Keys == s.pending;
  }

  lemma {:induction false} WithoutTwice(queued: seq<Entry>, first: set<u64>, second: set<u64>)
    ensures Without(Without(queued, first), second) == Without(queued, first + second)
  {
    if queued != [] {
      WithoutTwice(queued[1..], first, second);
      var head := if queued[0].request.id in first then [] else [queued[0]];
      var rest := Without(queued[1..], first);
      assert Without(queued, first) == head + rest;
      if head != [] {
        assert (head + rest)[1..] == rest;
      } else {
        assert head + rest == rest;
      }
    }
  }

  /** Every pending call has a promise that was never fulfilled. */
  ghost predicate Unfulfilled(pending: map<u64, Pending>, promises: map<u64, seq<CallResult>>) {
    forall id :: id in pending ==> id >= 1 && id in promises && promises[id] == []
  }

  lemma PendingAreUnfulfilled(s: Shared)
    requires DataOk(s)
    ensures Unfulfilled(s.pending, s.promises)
  {
    hide QueueOk, HandedOk, EndingsOk;
  }

  /** Calls may be settled one after another. */
  lemma SettleOneMore(s: Shared, results: map<u64, CallResult>, id: u64, result: CallResult)
    requires id !in results
    ensures Settle(Settle(s, results), map[id := result]) == Settle(s, results[id := result])
  {
    hide Without;
    WithoutTwice(s.queued, results.Keys, {id});
    assert results[id := result].Keys == results.Keys + {id};
    assert map[id := result].Keys == {id};
    assert s.pending - results.Keys - {id} == s.pending - (results.Keys + {id});
  }

  /** The front of the queue is the only entry with its ID. */
  lemma WithoutFront(s: Shared)
    requires QueueOk(s) && s.queued != []
    ensures Without(s.queued, {s.queued[0].request.id}) == s.queued[1..]
  {
    BehindFront(s.queued);
    WithoutNothing(s.queued[1..], {s.queued[0].request.id});
  }

  /** A call on the wire is not in the queue. */
  lemma WithoutSent(s: Shared, id: u64)
    requires QueueOk(s) && id in s.pending && s.pending[id].phase != Queued
    ensures Without(s.queued, {id}) == s.queued
  {
    hide IncreasingQueue;
    WithoutNothing(s.queued, {id});
  }

  // ---- how far the monitor's pass has come --------------------------------------------------

  ghost function Due(s: Shared, seen: set<u64>, now: int, cursor: u64): set<u64> {
    set id | id in OverdueQueued(s, seen, now) && id <= cursor
  }

  /** The pass stands behind `cursor`: the overdue calls up to there are settled and none of them
      was on the wire. */
  ghost predicate Passed(s: Shared, t: Shared, seen: set<u64>, now: int, cursor: u64) {
    && t == Settle(s, Expiries(seen, Due(s, seen, now, cursor)))
    && forall id :: id in OverdueInFlight(s, seen, now) ==> id > cursor
  }

  lemma PassStarts(s: Shared, seen: set<u64>, now: int)
    requires PromisesOk(s)
    ensures Passed(s, s, seen, now, 0) && forall id :: id in s.pending ==> id > 0
  {
    hide Settle;
    assert Due(s, seen, now, 0) == {};
    assert Expiries(seen, {}) == map[];
    SettleNothing(s);
  }

  /** What the pass has left of the pending calls. */
  lemma PassLeaves(s: Shared, t: Shared, seen: set<u64>, now: int, cursor: u64)
    requires Passed(s, t, seen, now, cursor)
    ensures t.pending.Keys == s.pending.Keys - Due(s, seen, now, cursor)
    ensures forall id :: id in t.pending ==> t.pending[id] == s.pending[id]
    ensures forall id :: id in s.pending && id > cursor ==> id in t.pending
    ensures Unfulfilled(s.pending, s.promises) ==> Unfulfilled(t.pending, t.promises)
  {
    hide Without;
    assert Expiries(seen, Due(s, seen, now, cursor)).Keys == Due(s, seen, now, cursor);
  }

  /** Nothing lies between the cursor and the next pending call. */
  lemma NextIsNext(s: Shared, t: Shared, seen: set<u64>, now: int, cursor: u64, id: u64)
    requires Passed(s, t, seen, now, cursor) && UpperKey(t.pending, cursor) == Some(id)
    ensures id in s.pending && id > cursor && forall k :: k in s.pending && k > cursor ==> id <= k
  {
    hide Passed;
    PassLeaves(s, t, seen, now, cursor);
  }

  lemma PassKeeps(s: Shared, t: Shared, seen: set<u64>, now: int, cursor: u64, id: u64)
    requires Passed(s, t, seen, now, cursor) && UpperKey(t.pending, cursor) == Some(id)
    requires id in s.pending && !Overdue(s, seen, now, id)
    ensures Passed(s, t, seen, now, id)
  {
    hide Settle, UpperKey;
    NextIsNext(s, t, seen, now, cursor, id);
    assert Due(s, seen, now, cursor) == Due(s, seen, now, id);
  }

  lemma PassDrops(s: Shared, t: Shared, seen: set<u64>, now: int, cursor: u64, id: u64)
    requires Passed(s, t, seen, now, cursor) && UpperKey(t.pending, cursor) == Some(id)
    requires id in OverdueQueued(s, seen, now)
    ensures Passed(s, Settle(t, map[id := Failed(CauseOf(id in seen))]), seen, now, id)
  {
    hide Settle, UpperKey;
    NextIsNext(s, t, seen, now, cursor, id);
    var before, after := Due(s, seen, now, cursor), Due(s, seen, now, id);
    assert after == before + {id} && id !in before;
    assert Expiries(seen, after) == Expiries(seen, before)[id := Failed(CauseOf(id in seen))];
    SettleOneMore(s, Expiries(seen, before), id, Failed(CauseOf(id in seen)));
  }

  /** The first overdue call on the wire is met before any queued call, so nothing was settled yet. */
  lemma PassMeetsTheWire(s: Shared, t: Shared, seen: set<u64>, now: int, cursor: u64, id: u64)
    requires DataOk(s) && Passed(s, t, seen, now, cursor) && UpperKey(t.pending, cursor) == Some(id)
    requires id in OverdueInFlight(s, seen, now) && !s.closed
    ensures t == s && Sweep(s, seen, now) == Fail(s, Cause(Disconnected, 0), id, CauseOf(id in seen))
  {
    hide PromisesOk, QueueOk, HandedOk, EndingsOk, Settle, UpperKey, Fail;
    NextIsNext(s, t, seen, now, cursor, id);
    QueueBehindWire(s, id);
    assert Due(s, seen, now, cursor) == {};
    assert Expiries(seen, {}) == map[];
    SettleNothing(s);
  }

  lemma QueueBehindWire(s: Shared, id: u64)
    requires DataOk(s) && id in s.pending && s.pending[id].phase != Queued
    ensures forall k :: k in s.pending && s.pending[k].phase == Queued ==> id < k
  {
    hide IncreasingQueue, IncreasingRequests, EndingsOk;
  }

  lemma PassEnds(s: Shared, t: Shared, seen: set<u64>, now: int, cursor: u64)
    requires !s.closed && Passed(s, t, seen, now, cursor) && UpperKey(t.pending, cursor) == None
    ensures t == Sweep(s, seen, now)
  {
    hide Settle, UpperKey;
    PassLeaves(s, t, seen, now, cursor);
    assert Due(s, seen, now, cursor) == OverdueQueued(s, seen, now);
    assert OverdueInFlight(s, seen, now) == {};
  }

  class Connection {
    var started: bool
    var connected: bool
    var openingDone: bool
    var closed: bool
    var shutdown: bool
    var pending: map<u64, Pending>
    var queued: seq<Entry>
    var nextId: u64
    ghost var opening: seq<ConnectResult>
    ghost var promises: map<u64, seq<CallResult>>
    ghost var handed: seq<Request>

    ghost function View(): Shared
      reads this
    {
      Shared(started, connected, openingDone, closed, shutdown, pending, queued, nextId, opening, promises, handed)
    }

    constructor ()
      ensures View() == Fresh() && DataOk(View())
    {
      started, connected, openingDone, closed, shutdown := false, false, false, false, false;
      pending, queued, nextId := map[], [], 1;
      opening, promises, handed := [], map[], [];
    }

    /** Fulfils a promise, which the standard library allows once. */
    ghost method SetValue(id: u64, result: CallResult)
      requires id in promises && promises[id] == []
      modifies this`promises
      ensures promises == old(promises)[id := [result]]
    {
      promises := promises[id := [result]];
    }

    /** Completes every pending call, in ID order. */
    method ResolveAll(common: Cause, specificId: u64, specific: Cause)
      requires Unfulfilled(pending, promises)
      modifies this`promises
      ensures promises == Resolved(old(promises), Verdicts(pending, common, specificId, specific))
    {
      ghost var results := Verdicts(pending, common, specificId, specific);
      var cursor := 0;
      var found := UpperKey(pending, cursor);
      while found.Some?
        invariant found == UpperKey(pending, cursor)
        invariant promises.Keys == old(promises).Keys
        invariant forall id :: id in promises ==>
          promises[id] == if id in pending && id <= cursor then [results[id]] else old(promises)[id]
        decreases U64_MAX - cursor
      {
        var id := found.value;
        SetValue(id, Failed(if id == specificId then specific else common));
        cursor := id;
        found := UpperKey(pending, cursor);
      }
      assert forall id :: id in pending ==> old(promises)[id] + [results[id]] == [results[id]];
    }

    method FailLocked(common: Cause, specificId: u64, specific: Cause)
      requires DataOk(View())
      modifies this
      ensures View() == Fail(old(View()), common, specificId, specific) && DataOk(View()) && closed
    {
      ghost var s := View();
      hide PromisesOk, QueueOk, HandedOk, EndingsOk, Unfulfilled, Verdicts, Resolved, Without;
      PendingAreUnfulfilled(s);
      FailKeepsData(s, common, specificId, specific);
      FailCloses(s, common, specificId, specific);
      if closed {
        return;
      }
      closed, shutdown := true, true;
      if started && !openingDone {
        opening := opening + [Refused(common)];
        openingDone := true;
      }
      ResolveAll(common, specificId, specific);
      pending, queued := map[], [];
    }

    /** Starts the connection; `immediate` is the answer to a call that starts nothing. */
    method ConnectAsync(usable: bool, expired: bool, stopped: bool, stopLate: bool, spawn: Spawn)
      returns (immediate: bool)
      requires DataOk(View())
      modifies this
      ensures View() == Connect(old(View()), usable, expired, stopped, stopLate, spawn) && DataOk(View())
      ensures immediate <==> old(started || closed) || !usable
    {
      hide DataOk, Fail;
      ConnectKeepsData(View(), usable, expired, stopped, stopLate, spawn);
      if started || closed || !usable {
        return true;
      }
      BegunKeepsData(View());
      started, immediate := true, false;
      if stopped || expired {
        FailLocked(CauseOf(stopped || stopLate), 0, Cause(TransportFailure, 0));
      } else if spawn.SpawnFailed? {
        FailLocked(Cause(InternalFailure, spawn.code), 0, Cause(TransportFailure, 0));
      }
    }

    /** Admits a call or answers it on the spot. */
    method CallAsync(op: Operation, until: int, stopped: bool, now: int) returns (immediate: Option<CallResult>)
      requires DataOk(View())
      modifies this
      ensures Admission(View(), immediate) == Submit(old(View()), op, until, stopped, now) && DataOk(View())
      ensures immediate.None? ==>
                && old(nextId) in pending && pending[old(nextId)].entry.until == until
                && pending[old(nextId)].entry.request == Request(old(nextId), op, VERSION)
    {
      hide DataOk, EncodeRequest;
      SubmitKeepsData(View(), op, until, stopped, now);
      if !connected || closed {
        return Some(Failed(Cause(NotConnected, 0)));
      }
      if stopped {
        return Some(Failed(Cause(Cancelled, 0)));
      }
      if now >= until {
        return Some(Failed(Cause(Timeout, 0)));
      }
      if |pending| >= MAX_PENDING_CALLS || nextId == U64_MAX {
        return Some(Failed(Cause(QuotaExceeded, 0)));
      }
      var request := Request(nextId, op, VERSION);
      var encoded := EncodeRequest(request);
      if encoded.Rejected? {
        return Some(Failed(Cause(InvalidRequest, 0)));
      }
      nextId := nextId + 1;
      var entry := Entry(request, encoded.value, until);
      promises := promises[request.id := []];
      pending := pending[request.id := Pending(entry, Queued)];
      queued := queued + [entry];
      return None;
    }

    method Close()
      requires DataOk(View())
      modifies this
      ensures View() == FailAll(old(View()), Cancelled) && DataOk(View())
    {
      FailLocked(Cause(Cancelled, 0), 0, Cause(TransportFailure, 0));
    }

    /** The writer's first section: what became of opening the channel. */
    method FinishOpening(result: Opened, expired: bool)
      requires DataOk(View())
      modifies this
      ensures View() == FinishOpen(old(View()), result, expired) && DataOk(View())
    {
      hide DataOk, Fail;
      FinishOpenKeepsData(View(), result, expired);
      if result.OpenFailed? {
        FailLocked(Translate(result.fault), 0, Cause(TransportFailure, 0));
        return;
      }
      if closed {
        return;
      }
      if result.NoChannel? {
        FailLocked(Cause(InternalFailure, 0), 0, Cause(TransportFailure, 0));
        return;
      }
      if shutdown {
        FailLocked(Cause(Cancelled, 0), 0, Cause(TransportFailure, 0));
        return;
      }
      if expired {
        FailLocked(Cause(Timeout, 0), 0, Cause(TransportFailure, 0));
        return;
      }
      connected, openingDone := true, true;
      opening := opening + [Connected];
    }

    /** The writer takes the front of the queue: overdue calls are completed, others go out. */
    method PopFront(stopped: bool, stopLate: bool, now: int) returns (sending: Option<Entry>)
      requires DataOk(View()) && queued != []
      modifies this
      ensures Taken(View(), sending) == TakeNext(old(View()), stopped, stopLate, now) && DataOk(View())
    {
      ghost var s := View();
      hide PromisesOk, QueueOk, HandedOk, EndingsOk, Without, Unfulfilled, Settle, HandsOver;
      TakeNextKeepsData(s, stopped, stopLate, now);
      PendingAreUnfulfilled(s);
      TakeNextIs(s, stopped, stopLate, now);
      WithoutFront(s);
      var entry := queued[0];
      var id := entry.request.id;
      queued := queued[1..];
      if stopped || now >= entry.until {
        Fulfil(s, id, Failed(CauseOf(stopped || stopLate)));
        return None;
      }
      pending := pending[id := pending[id].(phase := Writing)];
      handed := handed + [entry.request];
      return Some(entry);
    }

    /** Fulfils one promise and forgets the call, which is not in the queue (any more). */
    method Fulfil(ghost s: Shared, id: u64, result: CallResult)
      requires Unfulfilled(s.pending, s.promises) && id in s.pending
      requires View() == s.(queued := Without(s.queued, {id}))
      modifies this
      ensures View() == Settle(s, map[id := result]) && pending == s.pending - {id}
    {
      hide Without;
      SetValue(id, result);
      pending := pending - {id};
      ghost var results := map[id := result];
      assert results.Keys == {id};
      assert s.promises[id] + [result] == [result];
      assert promises == Resolved(s.promises, results);
    }

    /** The writer's section after a send. */
    method FinishSending(entry: Entry, fault: Option<Fault>)
      requires DataOk(View()) && entry.request in handed
      modifies this
      ensures View() == FinishSend(old(View()), entry, fault) && DataOk(View())
    {
      hide DataOk, Fail;
      FinishSendKeepsData(View(), entry, fault);
      if closed {
        return;
      }
      if fault.Some? {
        FailLocked(Cause(Disconnected, 0), entry.request.id, Translate(fault.value));
        return;
      }
      var id := entry.request.id;
      if id in pending {
        pending := pending[id := pending[id].(phase := Sent)];
      }
    }

    /** The reader's section after a receive. */
    method Receive(arrival: Arrival, stopped: bool, stopLate: bool, now: int)
      requires DataOk(View())
      modifies this
      ensures View() == Deliver(old(View()), arrival, stopped, stopLate, now) && DataOk(View())
    {
      ghost var s := View();
      hide PromisesOk, QueueOk, HandedOk, EndingsOk, Fail, Without, Unfulfilled, Matches, Settle;
      DeliverKeepsData(s, arrival, stopped, stopLate, now);
      if closed {
        return;
      }
      if arrival.Lost? {
        FailLocked(Translate(arrival.fault), 0, Cause(TransportFailure, 0));
        return;
      }
      if arrival.decoded.Rejected? {
        FailLocked(Cause(ProtocolViolation, 0), 0, Cause(TransportFailure, 0));
        return;
      }
      var response := arrival.decoded.value;
      var id := response.id;
      if id !in pending || pending[id].phase == Queued || !Matches(pending[id].entry.request.body, response.body) {
        FailLocked(Cause(ProtocolViolation, 0), 0, Cause(TransportFailure, 0));
        return;
      }
      if stopped || now >= pending[id].entry.until {
        FailLocked(Cause(Disconnected, 0), id, CauseOf(stopped || stopLate));
        return;
      }
      PendingAreUnfulfilled(s);
      WithoutSent(s, id);
      Fulfil(s, id, Answered(response));
    }

    /** The monitor completes an overdue call that was never sent. */
    method DropQueued(ghost s: Shared, seen: set<u64>, now: int, ghost cursor: u64, id: u64)
      requires Passed(s, View(), seen, now, cursor) && UpperKey(pending, cursor) == Some(id)
      requires id in OverdueQueued(s, seen, now) && Unfulfilled(pending, promises)
      modifies this
      ensures Passed(s, View(), seen, now, id) && pending == old(pending) - {id}
    {
      hide Passed, Unfulfilled, UpperKey, Settle;
      ghost var t := View();
      PassDrops(s, t, seen, now, cursor, id);
      queued := Without(queued, {id});
      Fulfil(t, id, Failed(CauseOf(id in seen)));
    }

    /** One pass of the monitor over the pending calls in ID order; `wake` is when it looks again. */
    method MonitorPass(seen: set<u64>, now: int) returns (wake: int)
      requires DataOk(View()) && !closed
      modifies this
      ensures View() == Sweep(old(View()), seen, now) && DataOk(View())
      ensures !closed ==> now < wake <= now + CANCELLATION_SLICE
      ensures !closed ==> forall id :: id in pending ==> wake <= pending[id].entry.until
    {
      ghost var s := View();
      hide PromisesOk, QueueOk, HandedOk, EndingsOk, Fail, Without, Unfulfilled, Settle, Passed, UpperKey, Sweep;
      SweepKeepsData(s, seen, now);
      PendingAreUnfulfilled(s);
      PassStarts(s, seen, now);
      wake := now + CANCELLATION_SLICE;
      var cursor := 0;
      var found := UpperKey(pending, cursor);
      while found.Some?
        invariant Passed(s, View(), seen, now, cursor) && found == UpperKey(pending, cursor)
        invariant now < wake <= now + CANCELLATION_SLICE
        invariant forall id :: id in pending && id <= cursor ==> wake <= pending[id].entry.until
        decreases U64_MAX - cursor
      {
        var id := found.value;
        ghost var t := View();
        PassLeaves(s, t, seen, now, cursor);
        if id in seen || now >= pending[id].entry.until {
          if pending[id].phase != Queued {
            PassMeetsTheWire(s, t, seen, now, cursor, id);
            FailLocked(Cause(Disconnected, 0), id, CauseOf(id in seen));
            return;
          }
          DropQueued(s, seen, now, cursor, id);
        } else {
          PassKeeps(s, t, seen, now, cursor, id);
          wake := Min(wake, pending[id].entry.until);
        }
        cursor := id;
        found := UpperKey(pending, cursor);
      }
      PassEnds(s, View(), seen, now, cursor);
    }
  }
}
