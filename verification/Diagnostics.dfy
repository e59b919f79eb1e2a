/** Bounded profiling: scopes of many threads end as events of one well-formed trace document. */
module Diagnostics {
  import opened Contracts

  const TRACE_THREAD_LIMIT := 128
  const TRACE_HEADER := "{\"traceEvents\":[\n"
  const EVENT_SEPARATOR := "\n,"

  function Decimal(n: nat): string {
    if n < 10 then [(n + 48) as char] else Decimal(n / 10) + [(n % 10 + 48) as char]
  }

  /** The number a row of decimal digits denotes. */
  function Denoted(digits: string): nat
    requires forall i :: 0 <= i < |digits| ==> '0' <= digits[i] <= '9'
  {
    if digits == "" then 0 else 10 * Denoted(digits[..|digits| - 1]) + (digits[|digits| - 1] as nat - 48)
  }

  lemma {:induction false} DecimalDenotes(n: nat)
    ensures forall i :: 0 <= i < |Decimal(n)| ==> '0' <= Decimal(n)[i] <= '9'
    ensures Denoted(Decimal(n)) == n && Decimal(n) != "" && (Decimal(n)[0] == '0' ==> n == 0)
  {
    if n >= 10 {
      DecimalDenotes(n / 10);
      assert Decimal(n)[..|Decimal(n)| - 1] == Decimal(n / 10);
    }
  }

  function Trailer(dropped: nat): string {
    "],\"displayTimeUnit\":\"ms\",\"otherData\":{\"droppedEvents\":" + Decimal(dropped) + "}}\n"
  }

  /** The elements of an array with a separator between every two. */
  ghost function Joined(items: seq<string>): string {
    if items == [] then ""
    else if |items| == 1 then items[0]
    else items[0] + EVENT_SEPARATOR + Joined(items[1..])
  }

  /** The document before its trailer; every item ends its line. */
  ghost function Body(items: seq<string>): string
    requires items != []
  {
    TRACE_HEADER + Joined(items) + "\n"
  }

  lemma {:induction false} JoinedAppend(items: seq<string>, item: string)
    requires items != []
    ensures Joined(items + [item]) == Joined(items) + EVENT_SEPARATOR + item
  {
    var all := items + [item];
    if |items| == 1 {
      assert all[1..] == [item];
    } else {
      JoinedAppend(items[1..], item);
      assert all[1..] == items[1..] + [item];
      assert items[0] + EVENT_SEPARATOR + (Joined(items[1..]) + EVENT_SEPARATOR + item)
             == items[0] + EVENT_SEPARATOR + Joined(items[1..]) + EVENT_SEPARATOR + item;
    }
  }

  /** Appending one line keeps the document's body well separated. */
  lemma BodyAppend(items: seq<string>, item: string)
    requires items != []
    ensures Body(items + [item]) == Body(items) + "," + item + "\n"
  {
    JoinedAppend(items, item);
    assert TRACE_HEADER + (Joined(items) + EVENT_SEPARATOR + item) + "\n"
           == TRACE_HEADER + Joined(items) + "\n" + "," + item + "\n";
  }

  /** Lanes are numbered from one without gaps or sharing. */
  ghost predicate Lanes(threads: map<int, nat>) {
    && (forall t :: t in threads ==> 1 <= threads[t] <= |threads|)
    && (forall t, u :: t in threads && u in threads && t != u ==> threads[t] != threads[u])
  }

  lemma NewLane(threads: map<int, nat>, thread: int)
    requires Lanes(threads) && thread !in threads
    ensures Lanes(threads[thread := |threads| + 1]) && |threads[thread := |threads| + 1]| == |threads| + 1
  {
    var more := threads[thread := |threads| + 1];
    assert more.Keys == threads.Keys + {thread};
    assert |more| == |more.Keys| && |threads| == |threads.Keys|;
  }

  /** The state behind one diagnostic session. Sink failures only raise `failed`; `file` is what was
      handed to the trace sink, `events` lists the serialized events in it, and `open` names the
      scopes that were admitted and have not ended. */
  class DiagnosticState {
    const eventLimit: nat
    const tracing: bool
    var trace: bool
    var log: bool
    var failed: bool
    var closing: bool
    var firstEvent: bool
    var threads: map<int, nat>
    var active: nat
    var admitted: nat
    var dropped: nat
    var file: string
    ghost var events: seq<string>
    ghost var open: set<nat>

    /** One process event and one event per ended scope, well separated, in a document that is
        sealed exactly once, when the session is closing and no scope is open any more. */
    ghost predicate Valid()
      reads this
    {
      && active <= admitted <= eventLimit
      && |open| == active && (forall scope :: scope in open ==> scope < admitted)
      && |threads| <= TRACE_THREAD_LIMIT && Lanes(threads)
      && (trace ==> tracing) && (active > 0 ==> trace)
      && (tracing ==> !firstEvent && |events| == 1 + admitted - active && (!trace ==> closing)
                      && file == if trace then Body(events) else Body(events) + Trailer(dropped))
      && (!tracing ==> file == "" && events == [] && admitted == 0 && dropped == 0)
    }

    constructor (tracing: bool, logging: bool, limit: nat, process: string)
      ensures Valid() && this.tracing == tracing && trace == tracing && log == logging && eventLimit == limit
      ensures active == admitted == dropped == 0 && !closing && !failed && threads == map[] && open == {}
      ensures tracing ==> events == [process]
    {
      eventLimit, this.tracing := limit, tracing;
      trace, log, failed, closing := tracing, logging, false, false;
      threads, active, admitted, dropped := map[], 0, 0, 0;
      firstEvent, file, events, open := true, "", [], {};
      new;
      if tracing {
        file := TRACE_HEADER;
        WriteEvent(process);
      }
    }

    /** The sink's error handler. */
    method SinkFails()
      requires Valid()
      modifies this`failed
      ensures Valid() && failed
    {
      failed := true;
    }

    method WriteEvent(serialized: string)
      requires trace && (if firstEvent then events == [] && file == TRACE_HEADER else events != [] && file == Body(events))
      modifies this`file, this`firstEvent, this`events
      ensures events == old(events) + [serialized] && file == Body(events) && !firstEvent
    {
      if firstEvent {
        assert Joined([serialized]) == serialized;
      } else {
        BodyAppend(events, serialized);
      }
      file := file + (if firstEvent then "" else ",") + serialized + "\n";
      events := events + [serialized];
      firstEvent := false;
    }

    /** Admits a scope and names its lane, within the event and thread limits. */
    method BeginScope(thread: int) returns (lane: Option<nat>, ghost scope: nat)
      requires Valid()
      modifies this`threads, this`active, this`admitted, this`dropped, this`open
      ensures Valid()
      ensures lane.Some? <==> old(trace && !closing && !failed && admitted < eventLimit
                                  && (thread in threads || |threads| < TRACE_THREAD_LIMIT))
      ensures lane.Some? ==> thread in threads && threads[thread] == lane.value && 1 <= lane.value <= TRACE_THREAD_LIMIT
      ensures forall t :: t in old(threads) ==> t in threads && threads[t] == old(threads)[t]
      ensures scope !in old(open) && open == if lane.Some? then old(open) + {scope} else old(open)
      ensures active == old(active) + (if lane.Some? then 1 else 0)
      ensures admitted == old(admitted) + (if lane.Some? then 1 else 0)
      ensures dropped == old(dropped) + (if lane.None? && old(trace && !closing && !failed) then 1 else 0)
    {
      scope := admitted;
      if !trace || closing || failed {
        lane := None;
        return;
      }
      if admitted >= eventLimit {
        dropped := dropped + 1;
        lane := None;
        return;
      }
      if thread !in threads {
        if |threads| >= TRACE_THREAD_LIMIT {
          dropped := dropped + 1;
          lane := None;
          return;
        }
        NewLane(threads, thread);
        threads := threads[thread := |threads| + 1];
      }
      active, admitted := active + 1, admitted + 1;
      open := open + {scope};
      lane := Some(threads[thread]);
    }

    /** Ends an admitted scope: its event is written even when the session is already closing, and
        the last one seals the document. */
    method EndScope(ghost scope: nat, serialized: string)
      requires Valid() && scope in open
      modifies this
      ensures Valid() && events == old(events) + [serialized] && active == old(active) - 1
      ensures open == old(open) - {scope}
      ensures trace == (active > 0 || !closing) && (!trace ==> !log)
      ensures unchanged(`closing) && unchanged(`failed) && unchanged(`admitted) && unchanged(`dropped)
      ensures unchanged(`threads)
    {
      WriteEvent(serialized);
      active := active - 1;
      open := open - {scope};
      if closing {
        var _ := Finalize();
      }
    }

    method Finish() returns (complete: bool)
      requires Valid()
      modifies this
      ensures Valid() && closing && events == old(events)
      ensures complete <==> active == 0 && !failed
      ensures active == 0 ==> !trace && !log
      ensures !old(trace) ==> file == old(file)
      ensures unchanged(`active) && unchanged(`failed) && unchanged(`admitted) && unchanged(`dropped)
      ensures unchanged(`threads) && unchanged(`open)
    {
      closing := true;
      complete := Finalize();
    }

    method Finalize() returns (complete: bool)
      requires closing && (trace ==> events != [] && file == Body(events))
      modifies this`trace, this`log, this`file
      ensures complete <==> active == 0 && !failed
      ensures if active == 0 && old(trace) then !trace && !log && file == Body(events) + Trailer(dropped)
              else file == old(file) && trace == old(trace)
      ensures if active == 0 then !log else log == old(log)
    {
      if active != 0 {
        return false;
      }
      if trace {
        file := file + Trailer(dropped);
        trace := false;
      }
      log := false;
      return !failed;
    }
  }

  const PROFILE_NAME_BYTES := 256

  /** A scope on a thread's stack: it begins when constructed and ends when destroyed, exactly once,
      if it was admitted. */
  class ProfileScope {
    const state: DiagnosticState
    const name: string
    var lane: Option<nat>
    ghost var scope: nat

    /** An admitted scope is open until it is destroyed. */
    ghost predicate Valid()
      reads this, state
    {
      state.Valid() && |name| <= PROFILE_NAME_BYTES && (lane.Some? ==> scope in state.open)
    }

    constructor (state: DiagnosticState, name: string, thread: int)
      requires state.Valid()
      modifies state
      ensures Valid() && this.state == state
      ensures this.name == if |name| <= PROFILE_NAME_BYTES then name else name[..PROFILE_NAME_BYTES]
      ensures state.open == if lane.Some? then old(state.open) + {scope} else old(state.open)
      ensures scope !in old(state.open) && state.events == old(state.events)
      ensures lane.Some? <==> old(state.trace && !state.closing && !state.failed && state.admitted < state.eventLimit
                                  && (thread in state.threads || |state.threads| < TRACE_THREAD_LIMIT))
    {
      this.state := state;
      this.name := if |name| <= PROFILE_NAME_BYTES then name else name[..PROFILE_NAME_BYTES];
      lane, scope := None, state.admitted;
      new;
      if state.tracing {
        lane, scope := state.BeginScope(thread);
      }
    }

    /** `serialized` is the event made of the name, the lane and the measured times. */
    method Destroy(serialized: string)
      requires Valid()
      modifies this, state
      ensures Valid() && lane == None
      ensures state.open == if old(lane).Some? then old(state.open) - {scope} else old(state.open)
      ensures state.events == if old(lane).Some? then old(state.events) + [serialized] else old(state.events)
    {
      if lane.Some? {
        state.EndScope(scope, serialized);
      }
      lane := None;
    }
  }
}
