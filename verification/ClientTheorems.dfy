/** What every run of the client guarantees. */
module ClientTheorems {
  import opened Contracts
  import opened Codec
  import opened Client
  import opened ClientRuns
  import Streams

  ghost predicate Steps(c: State, d: State) {
    exists e :: Enabled(c, e) && d == Next(c, e)
  }

  /** Successive states of one connection, from a fresh one. */
  ghost predicate Run(states: seq<State>) {
    && states != []
    && (exists now :: states[0] == Initial(now))
    && forall i :: 0 < i < |states| ==> Steps(states[i - 1], states[i])
  }

  /** The joint invariant holds in every reachable state. */
  lemma {:induction false} RunKeepsInv(states: seq<State>, i: nat)
    requires Run(states) && i < |states|
    ensures Inv(states[i])
  {
    hide Inv, Next, Enabled;
    if i == 0 {
      var now :| states[0] == Initial(now);
      InitialInv(now);
    } else {
      RunKeepsInv(states, i - 1);
      assert Steps(states[i - 1], states[i]);
      var e :| Enabled(states[i - 1], e) && states[i] == Next(states[i - 1], e);
      NextKeepsInv(states[i - 1], e);
    }
  }

  // ---- history ------------------------------------------------------------------------------

  /** Promises are only appended to, requests only handed over, flags only raised; a pending call
      keeps its entry; nothing becomes pending again; a closed session never changes. */
  ghost predicate Grows(s: Shared, t: Shared) {
    && s.nextId <= t.nextId && s.handed <= t.handed && s.opening <= t.opening
    && (s.closed ==> t == s) && (s.connected ==> t.connected) && (s.started ==> t.started)
    && (forall id :: id in s.promises ==> id in t.promises && s.promises[id] <= t.promises[id])
    && (forall id :: id in s.promises && id in t.pending ==> id in s.pending && t.pending[id].entry == s.pending[id].entry)
  }

  lemma GrowsTransitive(s: Shared, t: Shared, u: Shared)
    requires Grows(s, t) && Grows(t, u)
    ensures Grows(s, u)
  {
  }

  lemma SettleGrows(s: Shared, results: map<u64, CallResult>)
    requires !s.closed
    ensures Grows(s, Settle(s, results))
  {
    hide Without;
  }

  lemma FailGrows(s: Shared, common: Cause, id: u64, specific: Cause)
    requires !s.closed
    ensures Grows(s, Fail(s, common, id, specific))
  {
    hide Settle;
    SettleGrows(s, Verdicts(s.pending, common, id, specific));
  }

  lemma SubmitGrows(s: Shared, op: Operation, until: int, stopped: bool, now: int)
    requires PromisesOk(s)
    ensures Grows(s, Submit(s, op, until, stopped, now).shared)
  {
    hide Submit;
    var entry := SubmitAdmits(s, op, until, stopped, now);
  }

  lemma SetPhaseGrows(s: Shared, id: u64, phase: Phase)
    requires !s.closed
    ensures Grows(s, SetPhase(s, id, phase))
  {
  }

  lemma FailsGrow(s: Shared)
    requires PromisesOk(s)
    ensures forall common, id, specific :: Grows(s, Fail(s, common, id, specific))
  {
    hide Grows;
    forall common, id, specific ensures Grows(s, Fail(s, common, id, specific)) {
      if s.closed {
        Unchanged(s);
      } else {
        FailGrows(s, common, id, specific);
      }
    }
  }

  lemma Unchanged(s: Shared)
    requires PromisesOk(s)
    ensures Grows(s, s)
  {
  }

  lemma FlagsGrow(s: Shared)
    requires PromisesOk(s) && !s.closed
    ensures Grows(s, s.(started := true)) && Grows(s, s.(shutdown := true))
    ensures Grows(s, s.(connected := true, openingDone := true, opening := s.opening + [Connected]))
  {
  }

  lemma OpeningGrows(c: State, e: Event)
    requires Inv(c) && Enabled(c, e) && (e.StopConnect? || e.ConnectCall? || e.OpenEnds?)
    ensures Grows(c.shared, Next(c, e).shared)
  {
    hide PromisesOk, QueueOk, HandedOk, EndingsOk, WriterOk, Grows, Fail;
    var s := c.shared;
    Unchanged(s);
    FailsGrow(s);
    if !s.closed {
      var begun := s.(started := true);
      FlagsGrow(s);
      assert PromisesOk(begun) by {
        SameCollections(begun, s);
      }
      FailsGrow(begun);
      forall common, id, specific ensures Grows(s, Fail(begun, common, id, specific)) {
        GrowsTransitive(s, begun, Fail(begun, common, id, specific));
      }
    }
  }

  lemma TakeGrows(s: Shared, stopped: bool, stopLate: bool, now: int)
    requires QueueOk(s) && !s.closed && s.queued != []
    ensures Grows(s, TakeNext(s, stopped, stopLate, now).shared)
  {
    hide Settle;
    var id := s.queued[0].request.id;
    TakeNextIs(s, stopped, stopLate, now);
    SettleGrows(s, map[id := Failed(CauseOf(stopped || stopLate))]);
    hide QueueOk;
    SetPhaseGrows(s, id, Writing);
  }

  /** Every step only adds to the history. */
  lemma NextGrows(c: State, e: Event)
    requires Inv(c) && Enabled(c, e)
    ensures Grows(c.shared, Next(c, e).shared)
  {
    hide PromisesOk, QueueOk, HandedOk, EndingsOk, WriterOk, LifeOk, Grows, Fail, Settle, Submit, TakeNext, SetPhase,
         Matches, Overdue, Connect, FinishOpen;
    var s := c.shared;
    Unchanged(s);
    FailsGrow(s);
    if e.StopConnect? || e.ConnectCall? || e.OpenEnds? {
      OpeningGrows(c, e);
    } else if e.SubmitCall? {
      SubmitGrows(s, e.op, e.until, e.stopped, c.now);
    } else if !s.closed {
      match e {
        case WriterTakes(stopLate) => TakeGrows(s, s.queued[0].request.id in c.stops, stopLate, c.now);
        case SendEnds(_) => SetPhaseGrows(s, c.writer.entry.request.id, Sent);
        case ReaderEnds(arrival, _) =>
          if arrival.Got? && arrival.decoded.Ok? {
            SettleGrows(s, map[arrival.decoded.value.id := Answered(arrival.decoded.value)]);
          }
        case MonitorPasses(seen) => SettleGrows(s, Expiries(seen, OverdueQueued(s, seen, c.now)));
        case _ =>
      }
    }
  }

  lemma {:induction false} RunGrows(states: seq<State>, i: nat, j: nat)
    requires Run(states) && i <= j < |states|
    ensures Grows(states[i].shared, states[j].shared)
    decreases j
  {
    hide Grows, Next, Enabled, Inv;
    RunKeepsInv(states, j);
    if i == j {
      assert PromisesOk(states[j].shared) by { InvParts(states[j]); }
      Unchanged(states[j].shared);
    } else {
      RunGrows(states, i, j - 1);
      RunKeepsInv(states, j - 1);
      assert Steps(states[j - 1], states[j]);
      var e :| Enabled(states[j - 1], e) && states[j] == Next(states[j - 1], e);
      NextGrows(states[j - 1], e);
      GrowsTransitive(states[i].shared, states[j - 1].shared, states[j].shared);
    }
  }

  lemma InvParts(c: State)
    requires Inv(c)
    ensures PromisesOk(c.shared) && QueueOk(c.shared) && HandedOk(c.shared) && LifeOk(c)
  {
    hide PromisesOk, QueueOk, HandedOk, EndingsOk, WriterOk, LifeOk;
  }

  /** An admitted call ends at most once, never becomes pending again, keeps its result, and has
      ended once the session is closed. */
  lemma EveryCallEndsOnce(states: seq<State>, i: nat, j: nat, id: u64)
    requires Run(states) && i <= j < |states| && id in states[i].shared.promises
    ensures id in states[j].shared.promises
    ensures |states[j].shared.promises[id]| == if id in states[j].shared.pending then 0 else 1
    ensures id !in states[i].shared.pending ==> states[j].shared.promises[id] == states[i].shared.promises[id]
    ensures states[j].shared.closed ==> |states[j].shared.promises[id]| == 1
  {
    hide Inv, QueueOk, HandedOk;
    RunGrows(states, i, j);
    RunKeepsInv(states, i);
    RunKeepsInv(states, j);
    InvParts(states[i]);
    InvParts(states[j]);
  }

  /** A closed session is closed for good: no promise, request or opening result is added. */
  lemma ClosedForever(states: seq<State>, i: nat, j: nat)
    requires Run(states) && i <= j < |states| && states[i].shared.closed
    ensures states[j].shared == states[i].shared
    ensures states[j].shared.pending == map[] && states[j].shared.queued == []
  {
    hide Inv, PromisesOk, QueueOk, HandedOk;
    RunGrows(states, i, j);
    RunKeepsInv(states, i);
    InvParts(states[i]);
  }

  /** The connect promise is set at most once, by the end of the opening or by the closing. */
  lemma OpeningEndsOnce(states: seq<State>, i: nat, j: nat)
    requires Run(states) && i <= j < |states|
    ensures |states[j].shared.opening| <= 1
    ensures states[i].shared.opening != [] ==> states[j].shared.opening == states[i].shared.opening
    ensures states[j].shared.started && states[j].shared.closed ==> |states[j].shared.opening| == 1
    ensures states[j].shared.opening == [Connected] <==> states[j].shared.connected
    ensures states[j].shared.connected && !states[j].shared.closed ==> !states[j].shared.shutdown
  {
    hide Inv, PromisesOk, QueueOk, HandedOk;
    RunGrows(states, i, j);
    RunKeepsInv(states, i);
    RunKeepsInv(states, j);
    InvParts(states[i]);
    InvParts(states[j]);
  }

  // ---- order --------------------------------------------------------------------------------

  /** Whatever reaches the channel under a call's ID is the request admitted under that ID. */
  ghost predicate Faithful(s: Shared, request: Request) {
    && (forall h :: h in s.handed && h.id == request.id ==> h == request)
    && (request.id in s.pending ==> s.pending[request.id].entry.request == request)
  }

  lemma AdmittedIsFaithful(s: Shared, id: u64)
    requires PromisesOk(s) && QueueOk(s) && HandedOk(s) && id in s.pending
    ensures Faithful(s, s.pending[id].entry.request)
  {
    hide IncreasingQueue;
    var request := s.pending[id].entry.request;
    forall h | h in s.handed && h.id == id ensures h == request {
      HandedIsNotQueued(s, h);
      var i :| 0 <= i < |s.handed| && s.handed[i] == h;
      var j :| 0 <= j < |s.handed| && s.handed[j] == request;
      assert i == j;
    }
  }

  /** The step appends at most the queue front to the requests handed over. */
  lemma HandsOverFront(c: State, e: Event)
    requires QueueOk(c.shared) && Enabled(c, e)
    ensures var s, t := c.shared, Next(c, e).shared;
            t.handed == s.handed || (s.queued != [] && t.handed == s.handed + [s.queued[0].request])
  {
    if !e.WriterTakes? && !e.SendEnds? {
      hide QueueOk, Next;
      CallsKeepWriting(c, e);
    } else {
      hide QueueOk, Fail, Settle;
      FailsKeepWriting(c.shared);
      SettleKeepsHanded(c.shared);
    }
  }

  lemma SettleKeepsHanded(s: Shared)
    ensures forall results :: Settle(s, results).handed == s.handed
  {
  }

  lemma StaysFaithful(c: State, e: Event, request: Request)
    requires Inv(c) && Enabled(c, e) && Faithful(c.shared, request) && request.id in c.shared.promises
    ensures Faithful(Next(c, e).shared, request)
  {
    hide Inv, Next, HandedOk, PromisesOk, IncreasingQueue;
    InvParts(c);
    HandsOverFront(c, e);
    NextGrows(c, e);
    if c.shared.queued != [] {
      assert c.shared.queued[0] in c.shared.queued;
    }
  }

  lemma {:induction false} RequestsArriveAsSubmitted(states: seq<State>, i: nat, j: nat, id: u64)
    requires Run(states) && i <= j < |states| && id in states[i].shared.pending
    ensures Faithful(states[j].shared, states[i].shared.pending[id].entry.request)
    decreases j
  {
    hide Next, Enabled, Inv, HandedOk, QueueOk, Grows;
    RunKeepsInv(states, i);
    InvParts(states[i]);
    if i == j {
      AdmittedIsFaithful(states[i].shared, id);
    } else {
      RequestsArriveAsSubmitted(states, i, j - 1, id);
      RunKeepsInv(states, j - 1);
      assert id in states[j - 1].shared.promises by {
        EveryCallEndsOnce(states, i, j - 1, id);
      }
      assert Steps(states[j - 1], states[j]);
      var e :| Enabled(states[j - 1], e) && states[j] == Next(states[j - 1], e);
      StaysFaithful(states[j - 1], e, states[i].shared.pending[id].entry.request);
    }
  }

  /** Requests reach the channel in admission order, one at a time, and none overtakes a queued one. */
  lemma SubmissionOrder(states: seq<State>, i: nat, j: nat, a: nat, b: nat)
    requires Run(states) && i <= j < |states|
    requires a < |states[i].shared.handed| && a < b < |states[j].shared.handed|
    ensures states[j].shared.handed[a] == states[i].shared.handed[a]
    ensures states[j].shared.handed[a].id < states[j].shared.handed[b].id
    ensures forall e :: e in states[j].shared.queued ==> states[j].shared.handed[b].id < e.request.id
  {
    hide Inv, PromisesOk, QueueOk;
    RunGrows(states, i, j);
    RunKeepsInv(states, j);
    InvParts(states[j]);
  }

  // ---- locality -----------------------------------------------------------------------------

  /** The step that answers this call: its own response, in time and not cancelled. */
  ghost predicate AnsweredBy(c: State, e: Event, id: u64)
    requires id in c.shared.pending
  {
    && e.ReaderEnds? && e.arrival.Got? && e.arrival.decoded.Ok? && e.arrival.decoded.value.id == id
    && c.shared.pending[id].phase != Queued
    && Matches(c.shared.pending[id].entry.request.body, e.arrival.decoded.value.body)
    && id !in c.stops && c.now < c.shared.pending[id].entry.until
  }

  /** The step that drops this call unsent: its own token or its own deadline. */
  ghost predicate DroppedBy(c: State, e: Event, id: u64)
    requires id in c.shared.pending && Enabled(c, e)
  {
    && (e.WriterTakes? || e.MonitorPasses?)
    && c.shared.pending[id].phase == Queued
    && (id in Next(c, e).stops || c.now >= c.shared.pending[id].entry.until)
  }

  lemma SettleDrops(s: Shared)
    ensures forall results, id :: id in s.pending && id !in Settle(s, results).pending ==> id in results
  {
    hide Without;
  }

  lemma OthersKeepCalls(c: State, e: Event, id: u64)
    requires Enabled(c, e) && id in c.shared.pending && !Next(c, e).shared.closed
    requires !e.WriterTakes? && !e.ReaderEnds? && !e.MonitorPasses?
    ensures id in Next(c, e).shared.pending
  {
    hide Fail, EncodeRequest;
    FailsAreClosed(c.shared);
    FailsAreClosed(c.shared.(started := true));
  }

  lemma ReaderEndsCalls(c: State, e: Event, id: u64)
    requires Enabled(c, e) && id in c.shared.pending && e.ReaderEnds?
    requires !Next(c, e).shared.closed && id !in Next(c, e).shared.pending
    ensures AnsweredBy(c, e, id)
  {
    hide Fail, Settle, Matches;
    FailsAreClosed(c.shared);
    SettleDrops(c.shared);
  }

  lemma FailsAreClosed(s: Shared)
    ensures forall common, id, specific :: Fail(s, common, id, specific).closed
  {
  }

  lemma WriterEndsCalls(c: State, e: Event, id: u64)
    requires QueueOk(c.shared) && Enabled(c, e) && id in c.shared.pending && e.WriterTakes?
    requires !Next(c, e).shared.closed && id !in Next(c, e).shared.pending
    ensures DroppedBy(c, e, id)
  {
    hide IncreasingQueue, Settle;
    assert c.shared.queued[0] in c.shared.queued;
    SettleDrops(c.shared);
  }

  lemma MonitorEndsCalls(c: State, e: Event, id: u64)
    requires Enabled(c, e) && id in c.shared.pending && e.MonitorPasses?
    requires !Next(c, e).shared.closed && id !in Next(c, e).shared.pending
    ensures DroppedBy(c, e, id)
  {
    hide Fail, Settle;
    FailsAreClosed(c.shared);
    SettleDrops(c.shared);
  }

  /** While the session stays open, a call leaves it for its own reason only. */
  lemma CallsEndForTheirOwnReason(c: State, e: Event, id: u64)
    requires Inv(c) && Enabled(c, e) && id in c.shared.pending
    requires !Next(c, e).shared.closed && id !in Next(c, e).shared.pending
    ensures AnsweredBy(c, e, id) || DroppedBy(c, e, id)
  {
    hide Inv, PromisesOk, QueueOk, HandedOk, LifeOk, Next, AnsweredBy, DroppedBy;
    InvParts(c);
    if e.ReaderEnds? {
      ReaderEndsCalls(c, e, id);
    } else if e.WriterTakes? {
      WriterEndsCalls(c, e, id);
    } else if e.MonitorPasses? {
      MonitorEndsCalls(c, e, id);
    } else {
      OthersKeepCalls(c, e, id);
    }
  }

  /** A call that leaves an open session disturbs no other: every call still pending keeps its
      phase, entry and promise, ended ones keep their result, the rest of the queue keeps its order,
      and nothing is handed over. A monitor pass may drop several calls, each for its own reason. */
  lemma LeavingIsLocal(c: State, e: Event, id: u64)
    requires Inv(c) && Enabled(c, e) && id in c.shared.pending
    requires !Next(c, e).shared.closed && id !in Next(c, e).shared.pending
    ensures var s, t := c.shared, Next(c, e).shared;
            && t == s.(promises := t.promises, pending := t.pending, queued := t.queued)
            && t.promises.Keys == s.promises.Keys
            && (forall k :: k in t.pending ==>
                  k in s.pending && t.pending[k] == s.pending[k] && t.promises[k] == s.promises[k])
            && (forall k :: k in s.promises && k !in s.pending ==> t.promises[k] == s.promises[k])
            && (forall k :: k in s.pending && k !in t.pending ==> AnsweredBy(c, e, k) || DroppedBy(c, e, k))
            && t.queued == Without(s.queued, s.pending.Keys - t.pending.Keys)
  {
    hide Inv, LifeOk, HandedOk, QueueOk, Fail, Settle, PromisesOk, Matches;
    InvParts(c);
    CallsEndForTheirOwnReason(c, e, id);
    var s, t := c.shared, Next(c, e).shared;
    var results := LeavingResults(c, e, id);
    SettleIsLocal(s, results);
    forall k | k in s.pending && k !in t.pending ensures AnsweredBy(c, e, k) || DroppedBy(c, e, k) {
      CallsEndForTheirOwnReason(c, e, k);
    }
  }

  /** What the step gives to the calls it ends. */
  lemma LeavingResults(c: State, e: Event, id: u64) returns (results: map<u64, CallResult>)
    requires QueueOk(c.shared) && Enabled(c, e) && (e.WriterTakes? || e.MonitorPasses? || e.ReaderEnds?)
    requires !Next(c, e).shared.closed && id in c.shared.pending && id !in Next(c, e).shared.pending
    ensures results.Keys <= c.shared.pending.Keys && Next(c, e).shared == Settle(c.shared, results)
  {
    hide Fail, Settle, IncreasingQueue, Matches;
    var s := c.shared;
    FailsAreClosed(s);
    if e.WriterTakes? {
      assert s.queued[0] in s.queued;
      var first := s.queued[0].request.id;
      results := map[first := Failed(CauseOf(first in c.stops || e.stopLate))];
    } else if e.ReaderEnds? {
      results := ReplyResults(c, e, id);
    } else {
      results := Expiries(e.seen, OverdueQueued(s, e.seen, c.now));
    }
  }

  lemma ReplyResults(c: State, e: Event, id: u64) returns (results: map<u64, CallResult>)
    requires Enabled(c, e) && e.ReaderEnds?
    requires !Next(c, e).shared.closed && id in c.shared.pending && id !in Next(c, e).shared.pending
    ensures results.Keys <= c.shared.pending.Keys && Next(c, e).shared == Settle(c.shared, results)
  {
    hide Fail, Settle, Matches;
    FailsAreClosed(c.shared);
    results := map[e.arrival.decoded.value.id := Answered(e.arrival.decoded.value)];
  }

  lemma SettleIsLocal(s: Shared, results: map<u64, CallResult>)
    requires PromisesOk(s) && results.Keys <= s.pending.Keys
    ensures var t := Settle(s, results);
            && t == s.(promises := t.promises, pending := t.pending, queued := t.queued)
            && t.promises.Keys == s.promises.Keys && s.pending.Keys - t.pending.Keys == results.Keys
            && (forall k :: k in t.pending ==>
                  k in s.pending && t.pending[k] == s.pending[k] && t.promises[k] == s.promises[k])
            && (forall k :: k in s.promises && k !in s.pending ==> t.promises[k] == s.promises[k])
            && t.queued == Without(s.queued, results.Keys)
  {
    hide Without;
  }

  ghost predicate NeverHanded(s: Shared, id: u64) { forall h :: h in s.handed ==> h.id != id }

  lemma {:induction false} EndedStaysUnsent(states: seq<State>, i: nat, j: nat, id: u64)
    requires Run(states) && i <= j < |states|
    requires id in states[i].shared.promises && id !in states[i].shared.pending && NeverHanded(states[i].shared, id)
    ensures NeverHanded(states[j].shared, id)
    decreases j
  {
    hide Next, Enabled, Inv, HandedOk, PromisesOk, LifeOk, IncreasingQueue;
    if i < j {
      EndedStaysUnsent(states, i, j - 1, id);
      var c := states[j - 1];
      RunKeepsInv(states, j - 1);
      InvParts(c);
      RunGrows(states, i, j - 1);
      assert Steps(c, states[j]);
      var e :| Enabled(c, e) && states[j] == Next(c, e);
      HandsOverFront(c, e);
      if c.shared.queued != [] {
        assert c.shared.queued[0] in c.shared.queued;
      }
    }
  }

  /** A call that failed while the session was open failed by its own deadline or token, and its
      request was not handed to the channel and never will be. */
  lemma LocalFailuresAreUnsent(states: seq<State>, i: nat, j: nat, id: u64)
    requires Run(states) && i <= j < |states| && !states[i].shared.closed
    requires id in states[i].shared.promises && states[i].shared.promises[id] != []
    requires states[i].shared.promises[id][0].Failed?
    ensures var kind := states[i].shared.promises[id][0].cause.kind; kind == Timeout || kind == Cancelled
    ensures NeverHanded(states[j].shared, id)
  {
    hide Next, Enabled, QueueOk, HandedOk, WriterOk, LifeOk;
    RunKeepsInv(states, i);
    var s := states[i].shared;
    assert Expected(id, s.promises[id][0], s.handed);
    EndedStaysUnsent(states, i, j, id);
  }

  /** The cause of a local failure is true: a call reported as timed out was past its deadline with
      no stop seen before, one reported as cancelled had its token stopped. */
  lemma LocalCausesAreTrue(c: State, e: Event, id: u64)
    requires Inv(c) && Enabled(c, e) && id in c.shared.pending && !Next(c, e).shared.closed
    requires id !in Next(c, e).shared.pending && DroppedBy(c, e, id)
    ensures id in Next(c, e).shared.promises && |Next(c, e).shared.promises[id]| == 1
    ensures var result := Next(c, e).shared.promises[id][0];
            && result.Failed?
            && (result.cause.kind == Timeout ==> c.now >= c.shared.pending[id].entry.until && id !in c.stops)
            && (result.cause.kind == Cancelled ==> id in Next(c, e).stops || (e.WriterTakes? && e.stopLate))
  {
    hide Inv, PromisesOk, LifeOk, HandedOk, QueueOk, Settle, Fail;
    InvParts(c);
    FailsAreClosed(c.shared);
    SettleDrops(c.shared);
    SettleGives(c.shared, id);
  }

  lemma SettleGives(s: Shared, id: u64)
    requires PromisesOk(s) && id in s.pending
    ensures forall results :: id in results ==>
      id in Settle(s, results).promises && Settle(s, results).promises[id] == [results[id]]
  {
    hide Without;
  }

  // ---- admission, publication and the final verdicts ----------------------------------------

  /** A call is admitted exactly in an open session, in time, uncancelled, within both quotas and
      with an encodable request; it waits behind the queue with the caller's own deadline. A refused
      call changes nothing and is told the first reason that applies. */
  lemma AdmissionIsExact(s: Shared, op: Operation, until: int, stopped: bool, now: int)
    ensures var a := Submit(s, op, until, stopped, now);
            var request := Request(s.nextId, op, VERSION);
            && (a.immediate.None? <==> s.connected && !s.closed && !stopped && now < until
                                       && |s.pending| < MAX_PENDING_CALLS && s.nextId < U64_MAX
                                       && EncodeRequest(request).Ok?)
            && (a.immediate.Some? ==> a.shared == s && a.immediate.value.Failed? && a.immediate.value.cause.native == 0)
            && (a.immediate.Some? ==>
                  var kind := a.immediate.value.cause.kind;
                  && (kind == NotConnected <==> !s.connected || s.closed)
                  && (kind == Cancelled <==> s.connected && !s.closed && stopped)
                  && (kind == Timeout <==> s.connected && !s.closed && !stopped && now >= until)
                  && (kind == QuotaExceeded <==> s.connected && !s.closed && !stopped && now < until
                                                 && (|s.pending| >= MAX_PENDING_CALLS || s.nextId == U64_MAX))
                  && kind in {NotConnected, Cancelled, Timeout, QuotaExceeded, InvalidRequest})
            && (a.immediate.None? ==>
                  && s.nextId in a.shared.pending && a.shared.nextId == s.nextId + 1
                  && var entry := a.shared.pending[s.nextId].entry;
                     && entry.request == request && EncodeRequest(request) == Ok(entry.payload) && entry.until == until
                     && a.shared.queued == s.queued + [entry])
  {
    hide EncodeRequest;
  }

  /** The connection is published exactly by an opening that ends with a channel and in time, on a
      session that is neither closed nor asked to stop. */
  lemma PublishedExactly(c: State, e: Event)
    requires Inv(c) && Enabled(c, e) && !c.shared.connected
    ensures Next(c, e).shared.connected
            <==> e == OpenEnds(HasChannel) && !c.shared.closed && !c.shared.shutdown && c.now < c.writer.until
  {
    hide Inv, PromisesOk, QueueOk, HandedOk, Fail, EncodeRequest, Matches, Overdue, Settle;
    InvParts(c);
    FailKeepsConnected(c.shared);
    FailKeepsConnected(c.shared.(started := true));
  }

  lemma FailKeepsConnected(s: Shared)
    ensures forall common, id, specific :: Fail(s, common, id, specific).connected == s.connected
    ensures forall results :: Settle(s, results).connected == s.connected
  {
    hide Without;
  }

  predicate Awaited(s: Shared, decoded: Checked<Response>) {
    decoded.Ok? && decoded.value.id in s.pending && s.pending[decoded.value.id].phase != Queued
    && Matches(s.pending[decoded.value.id].entry.request.body, decoded.value.body)
  }

  /** Who is told what when a step ends the session. */
  ghost function FinalVerdict(c: State, e: Event, id: u64): Cause
    requires Enabled(c, e)
  {
    match e
    case CloseCall => Cause(Cancelled, 0)
    case SendEnds(Some(fault)) => if id == c.writer.entry.request.id then Translate(fault) else Cause(Disconnected, 0)
    case ReaderEnds(Lost(fault), _) => Translate(fault)
    case ReaderEnds(Got(decoded), stopLate) =>
      if !Awaited(c.shared, decoded) then Cause(ProtocolViolation, 0)
      else if id == decoded.value.id then CauseOf(id in c.stops || stopLate)
      else Cause(Disconnected, 0)
    case MonitorPasses(seen) =>
      var late := OverdueInFlight(c.shared, seen, c.now);
      if late != {} && id == Least(late) then CauseOf(id in seen) else Cause(Disconnected, 0)
    case _ => Cause(InternalFailure, 0)
  }

  /** The step that ends a session gives every pending call exactly its verdict: the call at fault
      its own cause, every other one the common cause. */
  lemma ClosingVerdicts(c: State, e: Event, id: u64)
    requires Inv(c) && Enabled(c, e) && !c.shared.closed && Next(c, e).shared.closed && id in c.shared.pending
    ensures id in Next(c, e).shared.promises
    ensures Next(c, e).shared.promises[id] == [Failed(FinalVerdict(c, e, id))]
  {
    hide Inv, PromisesOk, QueueOk, HandedOk, Fail, EncodeRequest, Matches, Overdue, Settle;
    InvParts(c);
    var s := c.shared;
    PendingId(s, id);
    forall common, k, specific
      ensures id in Fail(s, common, k, specific).promises
      ensures Fail(s, common, k, specific).promises[id] == [Failed(if id == k then specific else common)]
    {
      FailResolves(s, common, k, specific);
    }
    SettleStaysOpen(s);
  }

  lemma SettleStaysOpen(s: Shared)
    ensures forall results :: Settle(s, results).closed == s.closed
  {
    hide Without;
  }

  // ---- deadlines ----------------------------------------------------------------------------

  /** The transport itself reported this kind in the step. */
  predicate Reports(e: Event, kind: Streams.Kind) {
    || (e.SendEnds? && e.fault.Some? && e.fault.value.kind == kind)
    || (e.ReaderEnds? && e.arrival.Lost? && e.arrival.fault.kind == kind)
  }

  /** What a step may do to a pending call, seen from its deadline: an answer comes in time and
      uncancelled, a monitor pass after the deadline ends it, and a verdict of timeout or
      cancellation is true. */
  ghost predicate KeepsDeadline(c: State, e: Event, id: u64, until: int)
    requires Enabled(c, e)
  {
    var d := Next(c, e);
    && (e.MonitorPasses? && c.now >= until ==> id !in d.shared.pending)
    && id in d.shared.promises
    && (d.shared.promises[id] != [] ==>
          var result := d.shared.promises[id][0];
          && (result.Answered? ==> c.now < until && id !in c.stops)
          && (result.Failed? && result.cause.kind == Timeout ==> c.now >= until || Reports(e, Streams.TimedOut))
          && (result.Failed? && result.cause.kind == Cancelled ==>
                || id in d.stops || e.CloseCall? || Reports(e, Streams.Cancelled)
                || (e.WriterTakes? && e.stopLate) || (e.ReaderEnds? && e.stopLate)))
  }

  lemma ClosingKeepsDeadline(c: State, e: Event, id: u64)
    requires Inv(c) && Enabled(c, e) && id in c.shared.pending && Next(c, e).shared.closed
    ensures KeepsDeadline(c, e, id, c.shared.pending[id].entry.until)
  {
    hide Inv, PromisesOk, QueueOk, HandedOk, Fail, Settle, Matches, EncodeRequest;
    InvParts(c);
    SettleStaysOpen(c.shared);
    ClosingVerdicts(c, e, id);
    NextKeepsInv(c, e);
    InvParts(Next(c, e));
  }

  lemma OpenStepKeepsDeadline(c: State, e: Event, id: u64)
    requires Inv(c) && Enabled(c, e) && id in c.shared.pending && !Next(c, e).shared.closed
    ensures KeepsDeadline(c, e, id, c.shared.pending[id].entry.until)
  {
    hide Inv, QueueOk, HandedOk, LifeOk, Matches, Next;
    InvParts(c);
    NextKeepsInv(c, e);
    InvParts(Next(c, e));
    NextGrows(c, e);
    if id in Next(c, e).shared.pending {
      if e.MonitorPasses? {
        NoOverdueCallSurvives(c, e.seen, id);
      }
    } else {
      CallsEndForTheirOwnReason(c, e, id);
      if AnsweredBy(c, e, id) {
        AnswerIsTheResponse(c, e, id);
      } else {
        LocalCausesAreTrue(c, e, id);
      }
    }
  }

  lemma AnswerIsTheResponse(c: State, e: Event, id: u64)
    requires Inv(c) && Enabled(c, e) && id in c.shared.pending && AnsweredBy(c, e, id) && !c.shared.closed
    ensures id in Next(c, e).shared.promises
    ensures Next(c, e).shared.promises[id] == [Answered(e.arrival.decoded.value)]
  {
    hide Inv, PromisesOk, QueueOk, HandedOk, LifeOk, Settle, Matches;
    InvParts(c);
    SettleGives(c.shared, id);
  }

  /** Step `j` admitted this call. */
  ghost predicate AdmittedAt(states: seq<State>, j: nat, op: Operation, until: int, stopped: bool) {
    && j + 1 < |states|
    && states[j + 1] == Next(states[j], SubmitCall(op, until, stopped))
    && Submit(states[j].shared, op, until, stopped, states[j].now).immediate.None?
  }

  /** The deadline of a pending call is the one its caller gave. */
  lemma DeadlineIsTheCallers(states: seq<State>, j: nat, k: nat, op: Operation, until: int, stopped: bool)
    requires Run(states) && AdmittedAt(states, j, op, until, stopped) && j < k < |states|
    ensures var id := states[j].shared.nextId;
            && id in states[k].shared.promises
            && (id in states[k].shared.pending ==>
                  states[k].shared.pending[id].entry.until == until
                  && states[k].shared.pending[id].entry.request == Request(id, op, VERSION))
  {
    hide Run, Submit, EncodeRequest, Inv, QueueOk, HandedOk, LifeOk;
    AdmissionIsExact(states[j].shared, op, until, stopped, states[j].now);
    RunKeepsInv(states, j + 1);
    InvParts(states[j + 1]);
    RunGrows(states, j + 1, k);
  }

  /** In every run, for a call admitted with deadline `until`: whichever step answers it happens
      before `until` and before its token was seen stopped, no monitor pass at or after `until`
      leaves it pending, and it is told of a timeout only at or after `until` or when the transport
      itself timed out. */
  lemma CallersDeadlinesAreKept(states: seq<State>, j: nat, k: nat, op: Operation, until: int, stopped: bool, e: Event)
    requires Run(states) && AdmittedAt(states, j, op, until, stopped) && j < k < |states| - 1
    requires Enabled(states[k], e) && states[k + 1] == Next(states[k], e)
    requires states[j].shared.nextId in states[k].shared.pending
    ensures KeepsDeadline(states[k], e, states[j].shared.nextId, until)
  {
    hide Run, Inv, Next, Enabled, KeepsDeadline, AdmittedAt;
    var id := states[j].shared.nextId;
    DeadlineIsTheCallers(states, j, k, op, until, stopped);
    RunKeepsInv(states, k);
    if states[k + 1].shared.closed {
      ClosingKeepsDeadline(states[k], e, id);
    } else {
      OpenStepKeepsDeadline(states[k], e, id);
    }
  }

  /** Every call that ended did so in one step after its admission, and that step kept its deadline. */
  lemma {:induction false} EveryEndingIsTimely(
      states: seq<State>, j: nat, k: nat, op: Operation, until: int, stopped: bool) returns (m: nat, e: Event)
    requires Run(states) && AdmittedAt(states, j, op, until, stopped) && j < k < |states|
    requires states[j].shared.nextId in states[k].shared.promises
             && states[k].shared.promises[states[j].shared.nextId] != []
    ensures j < m < k && Enabled(states[m], e) && states[m + 1] == Next(states[m], e)
    ensures var id := states[j].shared.nextId;
            && id in states[m].shared.pending && id in states[m + 1].shared.promises
            && states[m + 1].shared.promises[id] == states[k].shared.promises[id]
            && KeepsDeadline(states[m], e, id, until)
    decreases k
  {
    hide Inv, Next, Enabled, KeepsDeadline, QueueOk, HandedOk, LifeOk, Submit;
    var id := states[j].shared.nextId;
    AdmissionIsExact(states[j].shared, op, until, stopped, states[j].now);
    RunKeepsInv(states, j + 1);
    InvParts(states[j + 1]);
    assert states[j + 1].shared == Submit(states[j].shared, op, until, stopped, states[j].now).shared by {
      SubmitStep(states[j], op, until, stopped);
    }
    assert k - 1 > j;
    DeadlineIsTheCallers(states, j, k - 1, op, until, stopped);
    EveryCallEndsOnce(states, k - 1, k, id);
    if id in states[k - 1].shared.pending {
      m := k - 1;
      assert Steps(states[m], states[k]);
      e :| Enabled(states[m], e) && states[k] == Next(states[m], e);
      CallersDeadlinesAreKept(states, j, m, op, until, stopped, e);
    } else {
      EveryCallEndsOnce(states, k - 1, k - 1, id);
      m, e := EveryEndingIsTimely(states, j, k - 1, op, until, stopped);
    }
  }

  lemma SubmitStep(c: State, op: Operation, until: int, stopped: bool)
    ensures Next(c, SubmitCall(op, until, stopped)).shared == Submit(c.shared, op, until, stopped, c.now).shared
  {
    hide Submit;
  }

  /** A call the writer hands to the channel is in time, not seen stopped, and at the queue's front. */
  lemma OnlyTimelyCallsAreSent(c: State, e: Event)
    requires Inv(c) && Enabled(c, e) && |Next(c, e).shared.handed| > |c.shared.handed|
    ensures c.shared.queued != []
    ensures var entry := c.shared.queued[0];
            && Next(c, e).shared.handed == c.shared.handed + [entry.request]
            && c.now < entry.until && entry.request.id !in c.stops
            && Next(c, e).writer == Sending(entry) && Next(c, e).shared.queued == c.shared.queued[1..]
  {
    hide Inv, PromisesOk, QueueOk, HandedOk, LifeOk;
    InvParts(c);
    if !e.WriterTakes? && !e.SendEnds? {
      hide Next;
      CallsKeepWriting(c, e);
    } else {
      hide Fail, Settle;
      FailsKeepWriting(c.shared);
      SettleKeepsHanded(c.shared);
    }
  }

  // ---- what the transport and the opening report --------------------------------------------

  /** The client's cause says what the transport reported: the same kind, under the client's name for
      it, and the same native code. */
  predicate Says(cause: Cause, fault: Fault) {
    && cause.native == fault.native
    && (cause.kind == Timeout <==> fault.kind.TimedOut?)
    && (cause.kind == FailureKind.Cancelled <==> fault.kind.Cancelled?)
    && (cause.kind == FailureKind.Disconnected <==> fault.kind.Disconnected?)
    && (cause.kind == FailureKind.AccessDenied <==> fault.kind.AccessDenied?)
    && (cause.kind == FailureKind.ProtocolViolation <==> fault.kind.ProtocolViolation?)
    && (cause.kind == InvalidRequest <==> fault.kind.InvalidConfiguration?)
    && (cause.kind == TransportFailure <==> fault.kind.IoFailure?)
  }

  /** A failed receive tells every pending call what the transport reported; a failed send tells the
      call being written, and every other one only that the session is gone. */
  lemma TransportFailuresAreTold(c: State, e: Event, fault: Fault, id: u64)
    requires Inv(c) && Enabled(c, e) && !c.shared.closed && id in c.shared.pending
    requires e == SendEnds(Some(fault)) || (e.ReaderEnds? && e.arrival == Lost(fault))
    ensures var d := Next(c, e).shared;
            && d.closed && id in d.promises && |d.promises[id]| == 1 && d.promises[id][0].Failed?
            && (if e.ReaderEnds? || c.writer.entry.request.id == id then Says(d.promises[id][0].cause, fault)
                else d.promises[id][0].cause == Cause(Disconnected, 0))
  {
    hide Inv, PromisesOk, QueueOk, HandedOk, LifeOk, Fail, Settle, Matches, Overdue, EncodeRequest;
    InvParts(c);
    PendingId(c.shared, id);
    FailsAreClosed(c.shared);
    ClosingVerdicts(c, e, id);
  }

  /** The result a step gives to the connect promise, if any. */
  ghost predicate OpeningHears(c: State, e: Event, result: ConnectResult)
    requires Enabled(c, e)
  {
    match e
    case ConnectCall(usable, until, stopped, stopLate, spawn) =>
      && usable && !c.shared.started
      && result.Refused?
      && (if stopped || c.now >= until then result.cause == Cause(if stopped || stopLate then Cancelled else Timeout, 0)
          else spawn.SpawnFailed? && result.cause == Cause(InternalFailure, spawn.code))
    case CloseCall => result == Refused(Cause(Cancelled, 0))
    case OpenEnds(OpenFailed(fault)) => result.Refused? && Says(result.cause, fault)
    case OpenEnds(NoChannel) => result == Refused(Cause(InternalFailure, 0))
    case OpenEnds(HasChannel) =>
      result == if c.shared.shutdown then Refused(Cause(Cancelled, 0))
                else if c.now >= c.writer.until then Refused(Cause(Timeout, 0))
                else Connected
    case _ => false
  }

  /** The connect promise is given exactly what happened: the kind the connector reported, a missing
      channel, a stop, a passed deadline, a thread that could not be created, or success. */
  lemma OpeningIsTold(c: State, e: Event)
    requires Inv(c) && Enabled(c, e)
    ensures var after := Next(c, e).shared.opening;
            && (after == c.shared.opening || (c.shared.opening == [] && |after| == 1 && OpeningHears(c, e, after[0])))
            && (e.OpenEnds? ==> |after| == 1)
            && (e.CloseCall? && c.shared.started ==> |after| == 1)
            && (&& e.ConnectCall? && e.usable && !c.shared.started && !c.shared.closed
                && (e.stopped || c.now >= e.until || e.spawn.SpawnFailed?)
                ==> |after| == 1)
  {
    hide Inv, PromisesOk, QueueOk, HandedOk, Fail, EncodeRequest, Matches, Overdue, Settle;
    InvParts(c);
    FailTellsTheOpening(c.shared);
    FailTellsTheOpening(c.shared.(started := true));
  }

  lemma FailTellsTheOpening(s: Shared)
    ensures forall common, id, specific :: Fail(s, common, id, specific).opening ==
              if !s.closed && s.started && !s.openingDone then s.opening + [Refused(common)] else s.opening
    ensures forall results :: Settle(s, results).opening == s.opening
  {
    hide Without;
  }

  // ---- replies ------------------------------------------------------------------------------

  /** The kind of answer an operation asks for, and the kind an outcome is. */
  datatype Kind = OfClasses | OfDescription | OfRecord | OfRecords | OfObject | OfRelease | OfValue | OfError

  function AskedKind(op: Operation): Kind {
    if op.ListClasses? then OfClasses
    else if op.DescribeClass? then OfDescription
    else if op.PutValue? || op.GetValue? then OfRecord
    else if op.ListValues? then OfRecords
    else if op.CreateObject? || op.GetObject? then OfObject
    else if op.ReleaseObject? then OfRelease
    else OfValue
  }
  function GivenKind(o: Outcome): Kind {
    match o
    case ClassesPage(_, _) => OfClasses
    case Description(_) => OfDescription
    case Stored(_) => OfRecord
    case ValuesPage(_, _) => OfRecords
    case Snapshot(_, _, _) => OfObject
    case Released => OfRelease
    case Result(_) => OfValue
    case Error(_, _) => OfError
  }

  /** A value comes back as it was put: a NaN never does, a zero may change its sign. */
  predicate ComesBack(put: Value, got: Value) {
    || (got == put && !(put.Real? && IsNan(put.bits)))
    || (put.Real? && got.Real? && IsZero(put.bits) && IsZero(got.bits))
  }

  /** An error, or an answer of the asked kind about what was asked: the named class, the put value,
      or the ID. */
  predicate Acceptable(op: Operation, o: Outcome) {
    !o.Error? ==>
    && AskedKind(op) == GivenKind(o)
    && (op.DescribeClass? ==> o.description.name == op.name)
    && (op.CreateObject? ==> o.className == op.className)
    && (op.PutValue? ==> ComesBack(op.data, o.record.data))
    && (op.GetValue? ==> o.record.id == op.id)
    && (op.GetObject? ==> o.id == op.id)
  }

  lemma MatchingIsExact(op: Operation, o: Outcome)
    ensures Matches(op, o) <==> Acceptable(op, o)
  {
  }

  /** Whatever a peer replies: a call on the wire is answered only by an acceptable outcome under its
      own ID. A reply to nothing on the wire, or of another kind, or about something else, closes the
      session, and every pending call is told of a protocol violation. */
  lemma RepliesMustFit(c: State, response: Response, stopLate: bool)
    requires Inv(c) && c.reader.Receiving? && !c.shared.closed
    ensures var d := Next(c, ReaderEnds(Got(Ok(response)), stopLate)).shared;
            var id := response.id;
            var fits := id in c.shared.pending && c.shared.pending[id].phase != Queued
                        && Acceptable(c.shared.pending[id].entry.request.body, response.body);
            && (!fits ==> d.closed && forall k :: k in c.shared.pending ==>
                            k in d.promises && d.promises[k] == [Failed(Cause(ProtocolViolation, 0))])
            && (fits && id !in c.stops && c.now < c.shared.pending[id].entry.until ==>
                  !d.closed && id in d.promises && d.promises[id] == [Answered(response)] && id !in d.pending)
            && (forall k :: k in c.shared.pending && k in d.promises && d.promises[k] != [] ==>
                  d.promises[k][0].Answered? ==> fits && k == id && d.promises[k] == [Answered(response)])
  {
    hide Inv, PromisesOk, QueueOk, HandedOk, LifeOk, Settle, Fail, FailAll, Matches, Acceptable;
    InvParts(c);
    var s, id := c.shared, response.id;
    FailAllResolves(s, ProtocolViolation);
    if id in s.pending {
      MatchingIsExact(s.pending[id].entry.request.body, response.body);
      SettleGives(s, id);
      FailResolves(s, Cause(Disconnected, 0), id, CauseOf(id in c.stops || stopLate));
      PendingId(s, id);
      SettleOne(s, id, Answered(response));
    }
  }

  lemma FailAllResolves(s: Shared, kind: FailureKind)
    requires PromisesOk(s) && !s.closed
    ensures var t := FailAll(s, kind);
            t.closed && forall k :: k in s.pending ==> k in t.promises && t.promises[k] == [Failed(Cause(kind, 0))]
  {
    hide Fail;
    FailResolves(s, Cause(kind, 0), 0, Cause(TransportFailure, 0));
  }

  lemma SettleOne(s: Shared, id: u64, result: CallResult)
    requires PromisesOk(s) && id in s.pending
    ensures var t := Settle(s, map[id := result]);
            && t.closed == s.closed && id !in t.pending
            && forall k :: k in s.pending && k != id ==> k in t.promises && t.promises[k] == []
  {
    hide Without;
  }

  // ---- the monitor --------------------------------------------------------------------------

  /** A call overdue on the wire ends the session: the lowest such call gets its own cause, every
      other pending call, overdue in the queue or not, only learns that the session is gone. */
  lemma OverdueOnTheWireEndsTheSession(c: State, seen: set<u64>, id: u64) returns (blamed: u64)
    requires Inv(c) && Enabled(c, MonitorPasses(seen)) && !c.shared.closed
    requires id in OverdueInFlight(c.shared, seen, c.now)
    ensures blamed in OverdueInFlight(c.shared, seen, c.now) && blamed <= id
    ensures forall e :: e in c.shared.queued ==> blamed < e.request.id
    ensures var t := Next(c, MonitorPasses(seen)).shared;
            && t.closed && blamed in t.promises && t.promises[blamed] == [Failed(CauseOf(blamed in seen))]
            && forall k :: k in c.shared.pending && k != blamed ==>
                 k in t.promises && t.promises[k] == [Failed(Cause(Disconnected, 0))]
  {
    hide Inv, PromisesOk, IncreasingQueue, IncreasingRequests, LifeOk, Fail, Settle;
    InvParts(c);
    blamed := Least(OverdueInFlight(c.shared, seen, c.now));
    PendingId(c.shared, blamed);
    FailResolves(c.shared, Cause(Disconnected, 0), blamed, CauseOf(blamed in seen));
  }

  /** Closing gives every pending call exactly its verdict. */
  lemma FailResolves(s: Shared, common: Cause, id: u64, specific: Cause)
    requires PromisesOk(s) && !s.closed
    ensures var t := Fail(s, common, id, specific);
            t.closed && forall k :: k in s.pending ==>
              k in t.promises && t.promises[k] == [Failed(if k == id then specific else common)]
  {
    hide Without;
  }

  /** A pass that leaves the session open leaves no overdue call in it. */
  lemma NoOverdueCallSurvives(c: State, seen: set<u64>, id: u64)
    requires Enabled(c, MonitorPasses(seen)) && !Next(c, MonitorPasses(seen)).shared.closed
    requires id in Next(c, MonitorPasses(seen)).shared.pending
    ensures id in c.shared.pending && id !in seen && c.now < c.shared.pending[id].entry.until
  {
    hide Fail, Without;
    FailsAreClosed(c.shared);
    assert id !in OverdueInFlight(c.shared, seen, c.now) && id !in OverdueQueued(c.shared, seen, c.now);
  }
}
