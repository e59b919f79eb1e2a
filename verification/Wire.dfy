/** One direction of the byte stream between two ends: frames written piece by piece, bytes under
    way, and bytes the receiving end holds but has not delivered. */
module Wires {
  import opened Contracts
  import opened Framing
  import opened Streams

  /** `broken` after a send gave up: the rest of its frame never follows. */
  datatype Pipe = Pipe(unread: Bytes, flight: Bytes, unwritten: Bytes, broken: bool) {
    function Content(): Bytes { unread + flight + unwritten }
  }

  const EMPTY_PIPE := Pipe([], [], [], false)

  function Begin(p: Pipe, payload: Bytes): Pipe { p.(unwritten := Encode(payload)) }

  function Write(p: Pipe, n: nat): (q: Pipe)
    requires n <= |p.unwritten|
    ensures |q.unwritten| == |p.unwritten| - n && q.broken == p.broken
  {
    p.(flight := p.flight + p.unwritten[..n], unwritten := p.unwritten[n..])
  }

  function Break(p: Pipe): Pipe { p.(unwritten := [], broken := true) }

  function ReadSome(p: Pipe, n: nat): Pipe
    requires n <= |p.flight|
  {
    p.(unread := p.unread + p.flight[..n], flight := p.flight[n..])
  }

  function Popped(p: Pipe): Pipe
    requires HeadOf(p.unread).Frame?
  {
    p.(unread := HeadOf(p.unread).rest)
  }

  /** The pipe holds the frames of these payloads, possibly cut off behind its last byte. */
  ghost predicate Carries(p: Pipe, payloads: seq<Bytes>) {
    && AllFrameable(payloads)
    && p.Content() <= EncodeAll(payloads)
    && (!p.broken ==> p.Content() == EncodeAll(payloads))
  }

  lemma EmptyCarries()
    ensures Carries(EMPTY_PIPE, [])
  {
  }

  lemma BeginCarries(p: Pipe, payloads: seq<Bytes>, payload: Bytes)
    requires Carries(p, payloads) && !p.broken && p.unwritten == [] && GoodLength(|payload|)
    ensures Carries(Begin(p, payload), payloads + [payload])
  {
    hide EncodeAll, Encode;
    EncodeAllAppend(payloads, payload);
    assert Begin(p, payload).Content() == p.Content() + Encode(payload);
  }

  lemma WriteCarries(p: Pipe, payloads: seq<Bytes>, n: nat)
    requires Carries(p, payloads) && n <= |p.unwritten|
    ensures Carries(Write(p, n), payloads)
  {
    hide EncodeAll;
    MovesOver(p.flight, p.unwritten, n);
    assert p.Content() == p.unread + (p.flight + p.unwritten);
    assert Write(p, n).Content() == p.unread + (Write(p, n).flight + Write(p, n).unwritten);
  }

  lemma ReadCarries(p: Pipe, payloads: seq<Bytes>, n: nat)
    requires Carries(p, payloads) && n <= |p.flight|
    ensures Carries(ReadSome(p, n), payloads)
  {
    hide EncodeAll;
    MovesOver(p.unread, p.flight, n);
  }

  lemma MovesOver(a: Bytes, b: Bytes, n: nat)
    requires n <= |b|
    ensures a + b[..n] + b[n..] == a + b
  {
    assert b == b[..n] + b[n..];
  }

  lemma BreakCarries(p: Pipe, payloads: seq<Bytes>)
    requires Carries(p, payloads)
    ensures Carries(Break(p), payloads)
  {
    hide EncodeAll;
    assert Break(p).Content() == p.Content()[..|p.unread + p.flight|];
  }

  /** Whatever part of the frames has arrived, the receiver never sees a bad length, and a complete
      frame at its head is the first payload; behind it the pipe carries the others. */
  lemma HeadIsGenuine(p: Pipe, payloads: seq<Bytes>)
    requires Carries(p, payloads)
    ensures !HeadOf(p.unread).Bad?
    ensures HeadOf(p.unread).Frame? ==>
              payloads != [] && HeadOf(p.unread).payload == payloads[0] && Carries(Popped(p), payloads[1..])
  {
    hide HeadOf, EncodeAll;
    var stream := EncodeAll(payloads);
    var more := stream[|p.unread|..];
    assert stream == p.unread + more;
    HeadIsStable(p.unread, more);
    if payloads == [] {
      NothingEncoded();
      EmptyIsPartial();
    } else {
      assert payloads[0..] == payloads;
      NextFrame(payloads, 0);
      if HeadOf(p.unread).Frame? {
        assert HeadOf(p.unread).rest + more == EncodeAll(payloads[1..]);
        RestCarries(p, payloads, more);
      }
    }
  }

  lemma RestCarries(p: Pipe, payloads: seq<Bytes>, more: Bytes)
    requires Carries(p, payloads) && payloads != [] && HeadOf(p.unread).Frame?
    requires EncodeAll(payloads) == p.unread + more && EncodeAll(payloads[1..]) == HeadOf(p.unread).rest + more
    ensures Carries(Popped(p), payloads[1..])
  {
    hide HeadOf, EncodeAll;
    var behind := p.flight + p.unwritten;
    assert p.Content() == p.unread + behind;
    assert behind <= more by { assert behind == p.Content()[|p.unread|..]; }
    assert Popped(p).Content() == HeadOf(p.unread).rest + behind;
  }

  // ---- the stream object moves the pipe -----------------------------------------------------

  /** The writes of one send, as the schedule cuts them, and the break if one fails. */
  function Writes(p: Pipe, schedule: (nat, nat) -> Streams.Write, i: nat): Pipe
    decreases |p.unwritten|
  {
    if p.unwritten == [] then p
    else
      match schedule(i, |p.unwritten|)
      case WriteFailed(_) => Break(p)
      case Wrote(count) =>
        if count == 0 || count > |p.unwritten| then Break(p) else Writes(Write(p, count), schedule, i + 1)
  }

  /** Together they move what the schedule accepts, and break the pipe exactly if that is not all. */
  lemma {:induction false} WritesArePushed(p: Pipe, schedule: (nat, nat) -> Streams.Write, i: nat)
    requires !p.broken
    ensures var pushed := Pushed(schedule, i, |p.unwritten|);
            Writes(p, schedule, i) == if pushed.loss.None? then Write(p, pushed.count) else Break(Write(p, pushed.count))
    decreases |p.unwritten|
  {
    hide Pushed, Write, Break;
    var left := |p.unwritten|;
    WriteNothing(p);
    if left > 0 {
      PushStep(schedule, i, left);
      var written := schedule(i, left);
      if written.Wrote? && 0 < written.count <= left {
        var rest := Pushed(schedule, i + 1, left - written.count);
        WritesArePushed(Write(p, written.count), schedule, i + 1);
        WriteTwice(p, written.count, rest.count);
      }
    } else {
      NothingPushed(schedule, i);
    }
  }

  lemma WriteNothing(p: Pipe)
    ensures Write(p, 0) == p
  {
  }

  lemma NothingPushed(schedule: (nat, nat) -> Streams.Write, i: nat)
    ensures Pushed(schedule, i, 0) == Push(0, None)
  {
  }

  lemma WriteTwice(p: Pipe, a: nat, b: nat)
    requires a + b <= |p.unwritten|
    ensures Write(Write(p, a), b) == Write(p, a + b)
  {
    assert p.unwritten[..a + b] == p.unwritten[..a] + p.unwritten[a..][..b];
    assert p.unwritten[a..][b..] == p.unwritten[a + b..];
  }

  /** What a send does to the pipe it writes into. */
  function SentInto(p: Pipe, payload: Bytes, preflight: Option<Kind>, schedule: (nat, nat) -> Streams.Write): Pipe {
    if preflight.Some? || !GoodLength(|payload|) then Break(p) else Writes(Begin(p, payload), schedule, 0)
  }

  /** A send of the stream object is the beginning of a frame, its writes and perhaps a break: the
      bytes it puts on the wire are the ones that entered the pipe, it fails exactly if the pipe is
      broken, and it reports a violation only for an illegal size or if the native write does. */
  method SendMovesPipe(
    stream: PipeStream, payload: Bytes, preflight: Option<Kind>, schedule: (nat, nat) -> Streams.Write, ghost p: Pipe)
    returns (result: Sent, ghost q: Pipe)
    requires stream.Valid() && !stream.failed && !p.broken && p.unwritten == []
    modifies stream
    ensures stream.Valid() && q == SentInto(p, payload, preflight, schedule)
    ensures p.flight <= q.flight && q.unread == p.unread && stream.wire == old(stream.wire) + q.flight[|p.flight|..]
    ensures result.Sent? <==> !q.broken
    ensures result.Sent? ==> q.unwritten == []
    ensures stream.failed == q.broken
    ensures result.SendLost? && result.loss.framing.Some? ==> !GoodLength(|payload|)
    ensures result.SendLost? ==> SendLossIsTrue(result.loss, payload, preflight, schedule)
  {
    hide Encode, Writes, Pushed;
    q := SentInto(p, payload, preflight, schedule);
    WritesArePushed(Begin(p, payload), schedule, 0);
    result := stream.Send(payload, preflight, schedule);
    if result.SendLost? && preflight.None? && GoodLength(|payload|) {
      var w := PushesStopForAReason(schedule, 0, |Encode(payload)|);
    }
  }

  /** The write numbered `w`, asked to move `left` bytes, failed with this kind: natively, or as a
      disconnection because it moved nothing or more than it was given. */
  predicate Stops(schedule: (nat, nat) -> Streams.Write, w: nat, left: nat, kind: Kind) {
    match schedule(w, left)
    case WriteFailed(native) => kind == native
    case Wrote(count) => (count == 0 || count > left) && kind == Disconnected
  }

  /** What a failed send reports happened: first the check before it, then an illegal size, then the
      write that failed. */
  ghost predicate SendLossIsTrue(
    loss: Loss, payload: Bytes, preflight: Option<Kind>, schedule: (nat, nat) -> Streams.Write)
  {
    if preflight.Some? then loss == Loss(preflight.value, None)
    else if !GoodLength(|payload|) then loss.kind == ProtocolViolation && loss.framing.Some?
    else loss.framing.None? && exists w: nat, left: nat :: 0 < left && Stops(schedule, w, left, loss.kind)
  }

  lemma {:induction false} PushesStopForAReason(schedule: (nat, nat) -> Streams.Write, i: nat, left: nat)
    returns (w: nat)
    requires Pushed(schedule, i, left).loss.Some?
    ensures var pushed := Pushed(schedule, i, left);
            && w >= i && pushed.count < left && pushed.loss.value.framing.None?
            && Stops(schedule, w, left - pushed.count, pushed.loss.value.kind)
    decreases left
  {
    var written := schedule(i, left);
    if written.Wrote? && 0 < written.count <= left {
      w := PushesStopForAReason(schedule, i + 1, left - written.count);
    } else {
      w := i;
    }
  }

  /** The stream object holds the bytes the pipe calls unread, and what is under way will arrive. */
  ghost predicate Holds(stream: PipeStream, p: Pipe)
    reads stream, stream.decoder, stream.decoder.header, stream.input
  {
    stream.Valid() && stream.Held() == p.unread && Arriving(stream.script) == p.flight
  }

  /** A receive of the stream object reads bytes from the pipe and then pops the frame at its head,
      or fails. A framing failure is a bad length, or an end inside a frame with nothing under way. */
  method ReceiveMovesPipe(stream: PipeStream, preflight: nat -> Option<Kind>, ghost p: Pipe)
    returns (result: Received, ghost n: nat)
    requires !stream.failed && Holds(stream, p)
    modifies stream, stream.decoder, stream.decoder.header, stream.input
    ensures n <= |p.flight|
    ensures var q := ReadSome(p, n);
            match result
            case Payload(bytes) => HeadOf(q.unread).Frame? && HeadOf(q.unread).payload == bytes && Holds(stream, Popped(q))
            case ReceiveLost(loss) =>
              && ReceiveLossIsTrue(loss, preflight, old(stream.script), p.unread + p.flight)
              && (loss.framing.Some? ==>
                    HeadOf(q.unread).Bad? || (HeadOf(q.unread).Partial? && q.unread != [] && q.flight == []))
  {
    hide HeadOf, Arriving, Decided, Outage, ReceiveLossIsTrue;
    ghost var script, unread := stream.script, stream.Unread();
    result, n := stream.Receive(preflight);
    if result.ReceiveLost? {
      ghost var r: nat :| Clear(preflight, r) && Undecided(unread, script, r)
        && if preflight(r).Some? then result == ReceiveLost(Loss(preflight(r).value, None))
           else Decided(result, unread, Outage(script));
      if preflight(r).Some? {
        InterruptionIsTrue(result.loss, preflight, r, script, unread);
      } else {
        DecisionIsTrue(result.loss, preflight, script, unread);
      }
    }
  }

  /** What a failed receive reports happened: a violation comes from the bytes, any other kind from
      the check before a read or from the read that failed natively. A peer that goes away inside a
      frame violates the protocol; one that goes away between frames just disconnects. */
  ghost predicate ReceiveLossIsTrue(loss: Loss, preflight: nat -> Option<Kind>, script: seq<Read>, unread: Bytes) {
    var gone := Outage(script) == None || Outage(script) == Some(Disconnected);
    if loss.framing.Some? then loss.kind == ProtocolViolation && unread != [] && (gone || HeadOf(unread).Bad?)
    else
      || (exists r: nat :: preflight(r) == Some(loss.kind))
      || (!gone && Outage(script) == Some(loss.kind) && ReadFailed(loss.kind) in script)
      || (gone && loss.kind == Disconnected && unread == [])
  }

  lemma InterruptionIsTrue(loss: Loss, preflight: nat -> Option<Kind>, r: nat, script: seq<Read>, unread: Bytes)
    requires preflight(r).Some? && loss == Loss(preflight(r).value, None)
    ensures ReceiveLossIsTrue(loss, preflight, script, unread)
  {
  }

  lemma DecisionIsTrue(loss: Loss, preflight: nat -> Option<Kind>, script: seq<Read>, unread: Bytes)
    requires Decided(ReceiveLost(loss), unread, Outage(script))
    ensures ReceiveLossIsTrue(loss, preflight, script, unread)
    ensures loss.framing in {None, Some(Failure(LimitExceeded, true, None)), Some(Failure(Truncated, true, None))}
  {
    hide HeadOf, Outage;
    EmptyIsPartial();
    OutageIsARead(script);
  }

  lemma {:induction false} OutageIsARead(script: seq<Read>)
    ensures Outage(script).Some? ==> ReadFailed(Outage(script).value) in script
  {
    if script != [] && script[0].Data? && script[0].bytes != [] {
      OutageIsARead(script[1..]);
    }
  }
}
