/** The byte stream over a pipe: partial writes on one side, a windowed read buffer and the frame
    decoder on the other. The pipe itself is a script of transfer results. */
module Streams {
  import opened Contracts
  import opened Framing

  const BUFFER_BYTES := 16 * 1024

  datatype Kind = InvalidConfiguration | TimedOut | Cancelled | Disconnected | AccessDenied | IoFailure
                | ProtocolViolation

  datatype Loss = Loss(kind: Kind, framing: Option<Failure>)
  datatype Sent = Sent(bytes: nat) | SendLost(loss: Loss)
  datatype Received = Payload(bytes: Bytes) | ReceiveLost(loss: Loss)

  /** Result of one write of a remaining span, and of one read into the whole buffer. */
  datatype Write = Wrote(count: nat) | WriteFailed(kind: Kind)
  datatype Read = Data(bytes: Bytes) | ReadFailed(kind: Kind)

  /** Bytes that will still arrive: everything before the peer's end or a failed read. */
  function Arriving(script: seq<Read>): Bytes {
    if script == [] || script[0].ReadFailed? || script[0].bytes == [] then []
    else script[0].bytes + Arriving(script[1..])
  }

  /** How the readable part ends: by end of stream, or by a failed read. */
  function Outage(script: seq<Read>): Option<Kind> {
    if script == [] then None
    else if script[0].ReadFailed? then Some(script[0].kind)
    else if script[0].bytes == [] then None
    else Outage(script[1..])
  }

  /** Loss reported when the stream ends with `residue` unread: inside a frame it is a violation. */
  function EndOfStream(outage: Option<Kind>, residue: Bytes): Loss {
    if outage.Some? && outage.value != Disconnected then Loss(outage.value, None)
    else if residue != [] then Loss(ProtocolViolation, Some(Failure(Truncated, true, None)))
    else Loss(Disconnected, None)
  }

  /** How far a span of `left` bytes gets under this schedule, and why it stops short. */
  datatype Push = Push(count: nat, loss: Option<Loss>)

  function Pushed(schedule: (nat, nat) -> Write, writes: nat, left: nat): (p: Push)
    ensures p.count <= left && (p.loss.None? <==> p.count == left)
    decreases left
  {
    if left == 0 then Push(0, None)
    else
      match schedule(writes, left)
      case WriteFailed(kind) => Push(0, Some(Loss(kind, None)))
      case Wrote(count) =>
        if count == 0 || count > left then Push(0, Some(Loss(Disconnected, None)))
        else
          var rest := Pushed(schedule, writes + 1, left - count);
          Push(count + rest.count, rest.loss)
  }

  lemma PushStep(schedule: (nat, nat) -> Write, writes: nat, left: nat)
    requires left > 0
    ensures Pushed(schedule, writes, left)
            == match schedule(writes, left)
               case WriteFailed(kind) => Push(0, Some(Loss(kind, None)))
               case Wrote(count) =>
                 if count == 0 || count > left then Push(0, Some(Loss(Disconnected, None)))
                 else var rest := Pushed(schedule, writes + 1, left - count); Push(count + rest.count, rest.loss)
  {
  }

  lemma {:induction false} AcceptedIsPushed(schedule: (nat, nat) -> Write, writes: nat, left: nat)
    requires Accepting(schedule)
    ensures Pushed(schedule, writes, left) == Push(left, None)
    decreases left
  {
    if left > 0 {
      AcceptedIsPushed(schedule, writes + 1, left - schedule(writes, left).count);
    }
  }

  lemma RestIsSuffix(stream: Bytes)
    requires HeadOf(stream).Frame?
    ensures |HeadOf(stream).rest| <= |stream|
    ensures HeadOf(stream).rest == stream[|stream| - |HeadOf(stream).rest|..]
  {
    hide HeaderLength;
  }

  /** The checks before round `r` found nothing. */
  ghost predicate Clear(preflight: nat -> Option<Kind>, r: nat) { forall q: nat :: q < r ==> preflight(q).None? }

  /** `r` reads were needed: without the last of them the stream's head was still incomplete. */
  ghost predicate Undecided(unread: Bytes, script: seq<Read>, r: nat) {
    && r <= |script|
    && (r > 0 ==> var left := Arriving(script[r - 1..]);
                  |left| <= |unread| && HeadOf(unread[..|unread| - |left|]).Partial?)
  }

  /** Of the bytes that were to arrive, the first `taken` moved behind those already held. */
  ghost predicate Takes(held: Bytes, arriving: Bytes, taken: nat, now: Bytes, left: Bytes) {
    taken <= |arriving| && now == held + arriving[..taken] && left == arriving[taken..]
  }

  /** The head of the whole unread stream decides: the next frame, a violation for a bad length, or
      the way the stream ends. */
  ghost predicate Decided(result: Received, unread: Bytes, outage: Option<Kind>) {
    match HeadOf(unread)
    case Frame(payload, rest) => result == Payload(payload)
    case Bad => result == ReceiveLost(Loss(ProtocolViolation, Some(Failure(LimitExceeded, true, None))))
    case Partial => result == ReceiveLost(EndOfStream(outage, unread))
  }

  /** It is decided by the bytes taken in: a frame and a bad length are seen in them, and truncation
      is reported when nothing more arrives. */
  ghost predicate Justified(result: Received, held: Bytes, arriving: Bytes, taken: nat) {
    && taken <= |arriving|
    && var now := held + arriving[..taken];
       match result
       case Payload(bytes) => HeadOf(now).Frame? && HeadOf(now).payload == bytes
       case ReceiveLost(loss) =>
         && (loss.framing == Some(Failure(LimitExceeded, true, None)) ==> HeadOf(now).Bad?)
         && (loss.framing == Some(Failure(Truncated, true, None)) ==>
               taken == |arriving| && now != [] && HeadOf(now).Partial?)
  }

  lemma TakesNothing(held: Bytes, arriving: Bytes)
    ensures Takes(held, arriving, 0, held, arriving)
  {
  }

  lemma TakesMore(held: Bytes, arriving: Bytes, taken: nat, now: Bytes, left: Bytes, more: nat, later: Bytes, rest: Bytes)
    requires Takes(held, arriving, taken, now, left) && Takes(now, left, more, later, rest)
    ensures Takes(held, arriving, taken + more, later, rest)
  {
    assert arriving[..taken + more] == arriving[..taken] + left[..more];
  }

  lemma StillJustified(result: Received, held: Bytes, arriving: Bytes, taken: nat, now: Bytes, left: Bytes)
    requires Takes(held, arriving, taken, now, left) && Justified(result, now, left, 0)
    ensures Justified(result, held, arriving, taken)
  {
    hide HeadOf;
    assert now + left[..0] == now;
  }

  lemma InterruptionIsJustified(kind: Kind, held: Bytes, arriving: Bytes, taken: nat, now: Bytes, left: Bytes)
    requires Takes(held, arriving, taken, now, left)
    ensures Justified(ReceiveLost(Loss(kind, None)), held, arriving, taken)
  {
  }

  lemma UndecidedAtFirst(unread: Bytes, script: seq<Read>)
    ensures Undecided(unread, script, 0)
  {
  }

  lemma StillUndecided(unread: Bytes, script: seq<Read>, r: nat, now: Bytes, left: Bytes)
    requires r < |script| && unread == now + left && left == Arriving(script[r..]) && HeadOf(now).Partial?
    ensures Undecided(unread, script, r + 1)
  {
    hide HeadOf, Arriving;
    assert unread[..|unread| - |left|] == now;
  }

  lemma TakenAndLeft(held: Bytes, arriving: Bytes, taken: nat, now: Bytes, left: Bytes)
    requires Takes(held, arriving, taken, now, left)
    ensures now + left == held + arriving
    ensures taken <= |arriving| && now == held + arriving[..taken] && left == arriving[taken..]
  {
    assert arriving == arriving[..taken] + arriving[taken..];
  }

  class PipeStream {
    const decoder: FrameDecoder
    const input: array<byte>
    var begin: nat
    var end: nat
    var failed: bool
    var script: seq<Read>
    var wire: Bytes

    ghost predicate Valid() reads this, decoder, decoder.header, input {
      && input.Length == BUFFER_BYTES
      && input != decoder.header
      && begin <= end <= input.Length
      && decoder.Valid()
      && (forall i :: 0 <= i < |script| && script[i].Data? ==> |script[i].bytes| <= BUFFER_BYTES)
      && (!failed ==> !decoder.poisoned)
    }

    ghost function Window(): Bytes
      requires begin <= end <= input.Length
      reads this, input
    {
      input[begin..end]
    }

    /** Every byte this end has taken in and not delivered: remembered and buffered. */
    ghost function Held(): Bytes
      requires Valid()
      reads this, decoder, decoder.header, input
    {
      decoder.Residue() + Window()
    }

    /** Every byte this end has not yet delivered: taken in, and still to arrive. */
    ghost function Unread(): Bytes
      requires Valid()
      reads this, decoder, decoder.header, input
    {
      Held() + Arriving(script)
    }

    constructor (script: seq<Read>)
      requires forall i :: 0 <= i < |script| && script[i].Data? ==> |script[i].bytes| <= BUFFER_BYTES
      ensures Valid() && !failed && wire == [] && this.script == script && Unread() == Arriving(script)
      ensures fresh(decoder) && fresh(decoder.header) && fresh(input)
    {
      decoder := new FrameDecoder();
      input := new byte[BUFFER_BYTES](_ => 0);
      begin, end, failed, wire := 0, 0, false, [];
      this.script := script;
    }

    /** Writes the framed payload piece by piece, as the pipe accepts it. */
    method Send(payload: Bytes, preflight: Option<Kind>, schedule: (nat, nat) -> Write) returns (result: Sent)
      requires Valid()
      modifies this
      ensures Valid() && script == old(script) && begin == old(begin) && end == old(end)
      ensures old(failed) ==> result == SendLost(Loss(Disconnected, None)) && failed && wire == old(wire)
      ensures !old(failed) && preflight.Some? ==>
                result == SendLost(Loss(preflight.value, None)) && failed && wire == old(wire)
      ensures !old(failed) && preflight.None? && !GoodLength(|payload|) ==>
                && result == SendLost(Loss(ProtocolViolation, Some(Failure(LimitExceeded, true, None))))
                && failed && wire == old(wire)
      ensures !old(failed) && preflight.None? && GoodLength(|payload|) ==>
                var pushed := Pushed(schedule, 0, |Encode(payload)|);
                && wire == old(wire) + Encode(payload)[..pushed.count]
                && result == (if pushed.loss.None? then Sent(FRAME_HEADER_BYTES + |payload|)
                              else SendLost(pushed.loss.value))
                && failed == pushed.loss.Some?
    {
      hide Header;
      HeaderSize(|payload|);
      if failed {
        return SendLost(Loss(Disconnected, None));
      }
      if preflight.Some? {
        failed := true;
        return SendLost(Loss(preflight.value, None));
      }
      var framed := FramePayload(payload);
      if framed.Rejected? {
        failed := true;
        return SendLost(Loss(ProtocolViolation, Some(framed.failure)));
      }
      var owned := framed.value;
      var loss := WriteAll(owned, schedule);
      return if loss.None? then Sent(|owned|) else SendLost(loss.value);
    }

    /** Shrinks the remaining span write by write. */
    method WriteAll(owned: Bytes, schedule: (nat, nat) -> Write) returns (loss: Option<Loss>)
      requires Valid() && !failed
      modifies this`wire, this`failed
      ensures Valid() && failed == loss.Some?
      ensures var pushed := Pushed(schedule, 0, |owned|);
              wire == old(wire) + owned[..pushed.count] && loss == pushed.loss
    {
      hide Pushed;
      ghost var pushed := Pushed(schedule, 0, |owned|);
      var done, writes := 0, 0;
      while done < |owned|
        invariant done <= |owned| && wire == old(wire) + owned[..done] && !failed && Valid()
        invariant pushed == var rest := Pushed(schedule, writes, |owned| - done); Push(done + rest.count, rest.loss)
      {
        PushStep(schedule, writes, |owned| - done);
        var written := schedule(writes, |owned| - done);
        if written.WriteFailed? {
          failed := true;
          return Some(Loss(written.kind, None));
        }
        if written.count == 0 || written.count > |owned| - done {
          failed := true;
          return Some(Loss(Disconnected, None));
        }
        assert owned[..done + written.count] == owned[..done] + owned[done..done + written.count];
        wire := wire + owned[done..done + written.count];
        done := done + written.count;
        writes := writes + 1;
      }
      return None;
    }

    /** Returns the next payload of the unread stream and keeps everything behind it. `preflight`
        is the deadline and cancellation check at the top of each round; `taken` counts the bytes
        read. */
    method Receive(preflight: nat -> Option<Kind>) returns (result: Received, ghost taken: nat)
      requires Valid()
      modifies this, decoder, decoder.header, input
      ensures Valid() && wire == old(wire)
      ensures result.Payload? ==> Outage(script) == old(Outage(script))
      ensures old(failed) ==> result == ReceiveLost(Loss(Disconnected, None)) && failed
      ensures result.Payload? ==> !failed && HeadOf(old(Unread())) == Frame(result.bytes, Unread())
      ensures result.ReceiveLost? ==> failed
      ensures !old(failed) ==>
                exists r: nat :: Clear(preflight, r) && Undecided(old(Unread()), old(script), r)
                  && if preflight(r).Some? then result == ReceiveLost(Loss(preflight(r).value, None))
                     else Decided(result, old(Unread()), old(Outage(script)))
      ensures !old(failed) ==> Justified(result, old(Held()), old(Arriving(script)), taken)
      ensures !old(failed) && result.Payload? ==>
                && taken <= |old(Arriving(script))| && Arriving(script) == old(Arriving(script))[taken..]
                && HeadOf(old(Held()) + old(Arriving(script))[..taken]) == Frame(result.bytes, Held())
    {
      hide HeadOf, Arriving, Outage, Takes, Decided, Justified, Undecided, Unread, Held;
      taken := 0;
      if failed {
        result := ReceiveLost(Loss(Disconnected, None));
        return;
      }
      ghost var held, arriving := Held(), Arriving(script);
      UnreadIs();
      TakesNothing(held, arriving);
      UndecidedAtFirst(Unread(), script);
      var rounds: nat := 0;
      while true
        invariant Valid() && !failed && wire == old(wire)
        invariant Outage(script) == old(Outage(script)) && Takes(held, arriving, taken, Held(), Arriving(script))
        invariant Clear(preflight, rounds) && Undecided(old(Unread()), old(script), rounds)
        invariant rounds <= |old(script)| && script == old(script)[rounds..]
        decreases |script|
      {
        ghost var now, left := Held(), Arriving(script);
        UnreadIs();
        TakenAndLeft(held, arriving, taken, now, left);
        var interrupted := preflight(rounds);
        if interrupted.Some? {
          failed := true;
          result := ReceiveLost(Loss(interrupted.value, None));
          InterruptionIsJustified(interrupted.value, held, arriving, taken, now, left);
          return;
        }
        ghost var more: nat;
        var finished: Option<Received>;
        finished, more := Round();
        if finished.Some? {
          result := finished.value;
          StillJustified(result, held, arriving, taken, now, left);
          return;
        }
        TakesMore(held, arriving, taken, now, left, more, Held(), Arriving(script));
        StillUndecided(held + arriving, old(script), rounds, now, left);
        taken, rounds := taken + more, rounds + 1;
      }
    }

    lemma UnreadIs()
      requires Valid()
      ensures Unread() == Held() + Arriving(script)
    {
    }

    /** One round: the window is offered to the decoder, and if that settles nothing the next read
        ends the stream or refills the window. */
    method Round() returns (finished: Option<Received>, ghost more: nat)
      requires Valid() && !failed
      modifies this, decoder, decoder.header, input
      ensures Valid() && wire == old(wire) && Outage(script) == old(Outage(script))
      ensures finished.None? ==>
                && !failed && old(script) != [] && script == old(script)[1..] && HeadOf(old(Held())).Partial?
                && Takes(old(Held()), old(Arriving(script)), more, Held(), Arriving(script))
      ensures finished.Some? ==>
                && Decided(finished.value, old(Unread()), old(Outage(script)))
                && Justified(finished.value, old(Held()), old(Arriving(script)), 0)
                && failed == finished.value.ReceiveLost?
                && (finished.value.Payload? ==>
                      && script == old(script) && HeadOf(old(Held())) == Frame(finished.value.bytes, Held())
                      && HeadOf(old(Unread())) == Frame(finished.value.bytes, Unread()))
    {
      hide HeaderLength, HeadOf, Arriving, Outage;
      more := 0;
      assert old(Held()) + old(Arriving(script))[..0] == old(Held());
      finished := Drain();
      if finished.Some? {
        return;
      }
      // The window is overwritten only once every byte of it has been consumed.
      assert begin == end && Held() == decoder.Residue();
      if script == [] || script[0].ReadFailed? || script[0].bytes == [] {
        var ended := Ended();
        finished := Some(ended);
        return;
      }
      more := |script[0].bytes|;
      Refill();
    }

    /** Offers the window to the decoder; a finished payload or a bad header ends the call. */
    method Drain() returns (result: Option<Received>)
      requires Valid() && !failed
      modifies this, decoder, decoder.header
      ensures Valid() && wire == old(wire) && script == old(script)
      ensures result.None? ==> begin == end && !failed && Held() == old(Held()) && HeadOf(Held()).Partial?
      ensures result.Some? && result.value.Payload? ==>
                && !failed && HeadOf(old(Held())) == Frame(result.value.bytes, Held())
                && HeadOf(old(Unread())) == Frame(result.value.bytes, Unread())
      ensures result.Some? && result.value.ReceiveLost? ==>
                && failed && HeadOf(old(Held())).Bad? && HeadOf(old(Unread())).Bad?
                && result.value.loss == Loss(ProtocolViolation, Some(Failure(LimitExceeded, true, None)))
    {
      hide HeaderLength, HeadOf, Arriving;
      decoder.ResidueIsUnfinished();
      if begin == end {
        assert Held() == decoder.Residue();
        return None;
      }
      ghost var seen := decoder.Residue() + Window();
      ghost var window := Window();
      HeadIsStable(seen, Arriving(script));
      var progress := decoder.Consume(input[begin..end]);
      if progress.Rejected? {
        failed := true;
        return Some(ReceiveLost(Loss(ProtocolViolation, Some(progress.failure))));
      }
      if progress.value.payload.Some? {
        RestIsSuffix(seen);
        assert HeadOf(seen).rest == window[progress.value.consumed..];
      }
      begin := begin + progress.value.consumed;
      if progress.value.payload.Some? {
        return Some(Payload(progress.value.payload.value));
      }
      return None;
    }

    method Refill()
      requires Valid() && !failed && begin == end && script != [] && script[0].Data? && script[0].bytes != []
      modifies this, input
      ensures Valid() && !failed && wire == old(wire) && script == old(script)[1..]
      ensures Held() == old(Held()) + old(script)[0].bytes && Outage(script) == old(Outage(script))
      ensures old(Arriving(script)) == old(script)[0].bytes + Arriving(script)
    {
      var bytes := script[0].bytes;
      forall i | 0 <= i < |bytes| {
        input[i] := bytes[i];
      }
      begin, end := 0, |bytes|;
      script := script[1..];
      assert Window() == bytes;
      assert decoder.Residue() == old(decoder.Residue());
      assert forall i :: 0 <= i < |script| ==> script[i] == old(script)[i + 1];
    }

    method Ended() returns (result: Received)
      requires Valid() && !failed && begin == end && HeadOf(decoder.Residue()).Partial?
      requires script == [] || script[0].ReadFailed? || script[0].bytes == []
      modifies this
      ensures Valid() && failed && wire == old(wire) && script == old(script)
      ensures old(Arriving(script)) == [] && old(Held()) == old(Unread())
      ensures result == ReceiveLost(EndOfStream(old(Outage(script)), old(Unread())))
      ensures HeadOf(old(Unread())).Partial?
    {
      assert Unread() == decoder.Residue();
      failed := true;
      var unfinished := decoder.Finish();
      if script != [] && script[0].ReadFailed? {
        var kind := script[0].kind;
        if kind == Disconnected {
          return ReceiveLost(Loss(if unfinished.Some? then ProtocolViolation else kind, unfinished));
        }
        return ReceiveLost(Loss(kind, None));
      }
      return ReceiveLost(Loss(if unfinished.Some? then ProtocolViolation else Disconnected, unfinished));
    }
  }

  // ---- whole exchanges ----------------------------------------------------------------------

  lemma {:induction false} EncodeAllAppend(payloads: seq<Bytes>, last: Bytes)
    ensures EncodeAll(payloads + [last]) == EncodeAll(payloads) + Encode(last)
    decreases |payloads|
  {
    hide Encode;
    if payloads == [] {
      assert payloads + [last] == [last] && [last][1..] == [];
    } else {
      assert (payloads + [last])[1..] == payloads[1..] + [last];
      EncodeAllAppend(payloads[1..], last);
    }
  }

  ghost predicate AllFrameable(payloads: seq<Bytes>) {
    forall i :: 0 <= i < |payloads| ==> GoodLength(|payloads[i]|)
  }

  /** The pipe takes at least one byte of what is left each time. */
  ghost predicate Accepting(schedule: (nat, nat) -> Write) {
    forall i, left :: left > 0 ==> schedule(i, left).Wrote? && 1 <= schedule(i, left).count <= left
  }

  /** A way the bytes of `wire` may arrive: any split into buffer-sized reads, then the end. */
  ghost predicate Chunking(script: seq<Read>, wire: Bytes) {
    && Arriving(script) == wire && Outage(script).None?
    && forall i :: 0 <= i < |script| && script[i].Data? ==> |script[i].bytes| <= BUFFER_BYTES
  }

  /** Whatever the pattern of partial writes, another one for every payload, the wire carries the frames back to back. */
  method Transmit(payloads: seq<Bytes>, schedules: nat -> ((nat, nat) -> Write)) returns (wire: Bytes)
    requires AllFrameable(payloads) && forall i :: Accepting(schedules(i))
    ensures wire == EncodeAll(payloads)
  {
    hide HeadOf, Encode, EncodeAll;
    var sender := new PipeStream([]);
    assert EncodeAll(payloads[..0]) == [] by { assert payloads[..0] == []; NothingEncoded(); }
    for i := 0 to |payloads|
      invariant fresh(sender) && sender.Valid() && !sender.failed
      invariant sender.wire == EncodeAll(payloads[..i])
    {
      AcceptedIsPushed(schedules(i), 0, |Encode(payloads[i])|);
      assert Encode(payloads[i])[..|Encode(payloads[i])|] == Encode(payloads[i]);
      var sent := sender.Send(payloads[i], None, schedules(i));
      EncodeAllAppend(payloads[..i], payloads[i]);
      assert payloads[..i + 1] == payloads[..i] + [payloads[i]];
    }
    assert payloads[..|payloads|] == payloads;
    return sender.wire;
  }

  lemma NothingEncoded()
    ensures EncodeAll([]) == []
  {
  }

  lemma NextFrame(payloads: seq<Bytes>, i: nat)
    requires i < |payloads| && AllFrameable(payloads)
    ensures HeadOf(EncodeAll(payloads[i..])) == Frame(payloads[i], EncodeAll(payloads[i + 1..]))
  {
    hide HeadOf, Encode;
    assert payloads[i..][1..] == payloads[i + 1..];
    FrameThenHead(payloads[i], EncodeAll(payloads[i + 1..]));
  }

  /** For every list of legal payloads and every chunking of their frames, successive receives
      return exactly that list, in order, and the next one reports a clean disconnection. */
  method Collect(ghost payloads: seq<Bytes>, count: nat, script: seq<Read>)
    returns (received: seq<Bytes>, ending: Received)
    requires AllFrameable(payloads) && count == |payloads| && Chunking(script, EncodeAll(payloads))
    ensures received == payloads
    ensures ending == ReceiveLost(Loss(Disconnected, None))
  {
    hide HeadOf, EncodeAll, Arriving;
    var receiver := new PipeStream(script);
    assert payloads[0..] == payloads;
    received := [];
    for i := 0 to count
      invariant fresh(receiver) && fresh(receiver.decoder) && fresh(receiver.decoder.header) && fresh(receiver.input)
      invariant receiver.Valid() && !receiver.failed
      invariant receiver.Unread() == EncodeAll(payloads[i..]) && Outage(receiver.script).None?
      invariant received == payloads[..i]
    {
      NextFrame(payloads, i);
      var next, _ := receiver.Receive(_ => None);
      received := received + [next.bytes];
    }
    EmptyIsPartial();
    NothingEncoded();
    assert payloads[count..] == [];
    var last, _ := receiver.Receive(_ => None);
    ending := last;
  }
}
