/** Length-prefixed frames: a one-shot reading of a byte stream, and the incremental decoder. */
module Framing {
  import opened Contracts

  /** The little-endian value of a complete header. */
  function HeaderLength(header: Bytes): u32
    requires |header| == FRAME_HEADER_BYTES
  {
    header[0] as int + header[1] as int * 0x100 + header[2] as int * 0x1_0000 + header[3] as int * 0x100_0000
  }

  predicate GoodLength(length: nat) { 0 < length <= MAX_PAYLOAD_BYTES }

  /** How a byte stream begins. */
  datatype Head = Partial | Bad | Frame(payload: Bytes, rest: Bytes)

  function HeadOf(stream: Bytes): Head {
    if |stream| < FRAME_HEADER_BYTES then Partial
    else
      var length := HeaderLength(stream[..FRAME_HEADER_BYTES]);
      var body := stream[FRAME_HEADER_BYTES..];
      if !GoodLength(length) then Bad
      else if |body| < length then Partial
      else Frame(body[..length], body[length..])
  }

  /** The whole stream at once: its payloads, and how it ends. */
  datatype Ending = Clean | Cut | Corrupt
  datatype Parsed = Parsed(payloads: seq<Bytes>, ending: Ending)

  function Parse(stream: Bytes): Parsed
    decreases |stream|
  {
    match HeadOf(stream)
    case Partial => Parsed([], if stream == [] then Clean else Cut)
    case Bad => Parsed([], Corrupt)
    case Frame(payload, rest) =>
      var tail := Parse(rest);
      Parsed([payload] + tail.payloads, tail.ending)
  }

  function Header(size: nat): Bytes {
    [size % 0x100, size / 0x100 % 0x100, size / 0x1_0000 % 0x100, size / 0x100_0000 % 0x100]
  }

  function Encode(payload: Bytes): Bytes { Header(|payload|) + payload }

  function EncodeAll(payloads: seq<Bytes>): Bytes {
    if payloads == [] then [] else Encode(payloads[0]) + EncodeAll(payloads[1..])
  }

  /** The length is written least significant byte first. */
  lemma HeaderIsLittleEndian(a: byte, b: byte, c: byte, d: byte)
    ensures Header(((d * 0x100 + c) * 0x100 + b) * 0x100 + a) == [a, b, c, d]
  {
    var ab := (d * 0x100 + c) * 0x100 + b;
    assert (ab * 0x100 + a) / 0x1_0000 == ab / 0x100 == d * 0x100 + c;
    assert (ab * 0x100 + a) / 0x100_0000 == d;
  }

  lemma HeaderRoundTrip(size: nat)
    requires size < 0x1_0000_0000
    ensures HeaderLength(Header(size)) == size
  {
    var a, b, c, d := size % 0x100, size / 0x100 % 0x100, size / 0x1_0000 % 0x100, size / 0x100_0000 % 0x100;
    assert size == size / 0x100 * 0x100 + a;
    assert size / 0x100 == size / 0x1_0000 * 0x100 + b;
    assert size / 0x1_0000 == size / 0x100_0000 * 0x100 + c;
    assert size / 0x100_0000 == d;
  }

  lemma FrameThenHead(payload: Bytes, rest: Bytes)
    requires GoodLength(|payload|)
    ensures HeadOf(Encode(payload) + rest) == Frame(payload, rest)
  {
    hide HeaderLength, Header;
    var stream := Encode(payload) + rest;
    HeaderSize(|payload|);
    HeaderRoundTrip(|payload|);
    assert stream[..FRAME_HEADER_BYTES] == Header(|payload|);
    assert stream[FRAME_HEADER_BYTES..] == payload + rest;
  }

  lemma HeaderSize(size: nat)
    ensures |Header(size)| == FRAME_HEADER_BYTES
  {
  }

  /** Framed payloads read back as exactly that list, and the stream ends cleanly. */
  lemma {:induction false} ParseOfEncoded(payloads: seq<Bytes>)
    requires forall i :: 0 <= i < |payloads| ==> GoodLength(|payloads[i]|)
    ensures Parse(EncodeAll(payloads)) == Parsed(payloads, Clean)
    decreases |payloads|
  {
    hide HeadOf, Encode;
    if payloads == [] {
      assert HeadOf([]) == Partial by { EmptyIsPartial(); }
    } else {
      FrameThenHead(payloads[0], EncodeAll(payloads[1..]));
      ParseOfEncoded(payloads[1..]);
      assert payloads == [payloads[0]] + payloads[1..];
    }
  }

  lemma EmptyIsPartial()
    ensures HeadOf([]) == Partial
  {
  }

  /** Whatever follows, a complete frame or a bad header at the front stays what it is. */
  lemma HeadIsStable(stream: Bytes, more: Bytes)
    ensures HeadOf(stream).Bad? ==> HeadOf(stream + more).Bad?
    ensures HeadOf(stream).Frame? ==>
              HeadOf(stream + more) == Frame(HeadOf(stream).payload, HeadOf(stream).rest + more)
  {
    hide HeaderLength;
    if |stream| >= FRAME_HEADER_BYTES {
      assert (stream + more)[..FRAME_HEADER_BYTES] == stream[..FRAME_HEADER_BYTES];
      assert (stream + more)[FRAME_HEADER_BYTES..] == stream[FRAME_HEADER_BYTES..] + more;
      if HeadOf(stream).Frame? {
        var length := HeaderLength(stream[..FRAME_HEADER_BYTES]);
        var body := stream[FRAME_HEADER_BYTES..];
        assert (body + more)[..length] == body[..length];
        assert (body + more)[length..] == body[length..] + more;
      }
    }
  }

  /** Adds the four length bytes in a loop, least significant first. */
  method FramePayload(payload: Bytes) returns (framed: Checked<Bytes>)
    ensures framed == if GoodLength(|payload|) then Ok(Encode(payload))
                      else Rejected(Failure(LimitExceeded, true, None))
  {
    if payload == [] || |payload| > MAX_PAYLOAD_BYTES {
      return Rejected(Failure(LimitExceeded, true, None));
    }
    var output, shifted, i := [], |payload|, 0;
    while i < FRAME_HEADER_BYTES
      invariant 0 <= i <= FRAME_HEADER_BYTES
      invariant output == Header(|payload|)[..i]
      invariant shifted == if i == 0 then |payload| else if i == 1 then |payload| / 0x100
                           else if i == 2 then |payload| / 0x1_0000 else if i == 3 then |payload| / 0x100_0000
                           else |payload| / 0x1_0000_0000
    {
      output := output + [shifted % 0x100];
      shifted := shifted / 0x100;
      i := i + 1;
    }
    assert output == Header(|payload|);
    return Ok(output + payload);
  }

  datatype Progress = Progress(consumed: nat, payload: Option<Bytes>)

  /** The bytes of an unfinished frame, which is all a healthy decoder remembers. */
  ghost predicate Unfinished(residue: Bytes) { HeadOf(residue).Partial? }

  class FrameDecoder {
    const header: array<byte>
    var headerUsed: nat
    var expected: nat
    var payload: Bytes
    var poisoned: bool

    ghost function Residue(): Bytes
      requires headerUsed <= header.Length
      reads this, header
    {
      header[..headerUsed] + payload
    }

    ghost predicate Valid() reads this, header {
      && header.Length == FRAME_HEADER_BYTES
      && headerUsed <= FRAME_HEADER_BYTES
      && (!poisoned && headerUsed < FRAME_HEADER_BYTES ==> payload == [] && expected == 0)
      && (!poisoned && headerUsed == FRAME_HEADER_BYTES ==>
            && expected == HeaderLength(header[..])
            && GoodLength(expected)
            && |payload| < expected)
    }

    constructor ()
      ensures Valid() && !poisoned && Residue() == [] && fresh(header)
    {
      header := new byte[FRAME_HEADER_BYTES](_ => 0);
      headerUsed, expected, payload, poisoned := 0, 0, [], false;
    }

    lemma ResidueIsUnfinished()
      requires Valid() && !poisoned
      ensures Unfinished(Residue())
      ensures Residue() == [] <==> headerUsed == 0
    {
      hide HeaderLength;
      if headerUsed == FRAME_HEADER_BYTES {
        assert Residue()[..FRAME_HEADER_BYTES] == header[..];
      }
    }

    /** Copies as much of the input as the header still lacks. */
    method FillHeader(input: Bytes) returns (count: nat)
      requires header.Length == FRAME_HEADER_BYTES && headerUsed <= FRAME_HEADER_BYTES
      modifies `headerUsed, header
      ensures count == Min(|input|, FRAME_HEADER_BYTES - old(headerUsed))
      ensures headerUsed == old(headerUsed) + count
      ensures header[..headerUsed] == old(header[..headerUsed]) + input[..count]
    {
      count := Min(|input|, FRAME_HEADER_BYTES - headerUsed);
      forall i | 0 <= i < count {
        header[headerUsed + i] := input[i];
      }
      headerUsed := headerUsed + count;
    }

    /** Consumes through at most one frame. What happens is fixed by the one-shot reading of the
        remembered bytes followed by the input, however earlier bytes were chunked. */
    method Consume(input: Bytes) returns (result: Checked<Progress>)
      requires Valid()
      modifies this, header
      ensures Valid()
      ensures old(poisoned) ==> result == Rejected(Failure(Malformed, true, None)) && poisoned
      ensures !old(poisoned) ==>
                match HeadOf(old(Residue()) + input)
                case Partial =>
                  !poisoned && result == Ok(Progress(|input|, None)) && Residue() == old(Residue()) + input
                case Bad =>
                  poisoned && result == Rejected(Failure(LimitExceeded, true, None))
                case Frame(complete, rest) =>
                  && !poisoned && Residue() == [] && |rest| <= |input|
                  && result == Ok(Progress(|input| - |rest|, Some(complete)))
    {
      hide HeaderLength;
      if poisoned {
        return Rejected(Failure(Malformed, true, None));
      }
      ghost var stream := Residue() + input;
      var rest := input;
      if headerUsed < FRAME_HEADER_BYTES {
        var count := FillHeader(rest);
        rest := rest[count..];
        if headerUsed != FRAME_HEADER_BYTES {
          return Ok(Progress(count, None));
        }
        assert header[..] == stream[..FRAME_HEADER_BYTES];
        var length := ReadHeader();
        if !GoodLength(length) {
          poisoned := true;
          return Rejected(Failure(LimitExceeded, true, None));
        }
        expected := length;
      }
      assert header[..] == stream[..FRAME_HEADER_BYTES];
      assert payload + rest == stream[FRAME_HEADER_BYTES..];
      var count, completed := FillPayload(rest);
      return Ok(Progress(|input| - |rest| + count, completed));
    }

    /** Extends the payload and gives it out once it is complete. */
    method FillPayload(input: Bytes) returns (count: nat, completed: Option<Bytes>)
      requires Valid() && !poisoned && headerUsed == FRAME_HEADER_BYTES
      modifies this
      ensures Valid() && !poisoned
      ensures var body := old(payload) + input;
              if |body| < old(expected) then
                count == |input| && completed == None && Residue() == old(header[..]) + body
              else
                && count == |input| - (|body| - old(expected)) && completed == Some(body[..old(expected)])
                && Residue() == []
    {
      hide HeaderLength;
      count := Min(|input|, expected - |payload|);
      payload := payload + input[..count];
      if |payload| != expected {
        return count, None;
      }
      assert payload == (old(payload) + input)[..expected];
      completed := Some(payload);
      payload, headerUsed, expected := [], 0, 0;
    }

    /** Assembles the length in a loop over the header bytes. */
    method ReadHeader() returns (length: u32)
      requires header.Length == FRAME_HEADER_BYTES
      ensures length == HeaderLength(header[..])
    {
      var total: int, scale: int, i := 0, 1, 0;
      while i < FRAME_HEADER_BYTES
        invariant 0 <= i <= FRAME_HEADER_BYTES
        invariant scale == if i == 0 then 1 else if i == 1 then 0x100 else if i == 2 then 0x1_0000
                           else if i == 3 then 0x100_0000 else 0x1_0000_0000
        invariant total == (if i > 0 then header[0] as int else 0) + (if i > 1 then header[1] as int * 0x100 else 0)
                           + (if i > 2 then header[2] as int * 0x1_0000 else 0)
                           + (if i > 3 then header[3] as int * 0x100_0000 else 0)
      {
        total := total + header[i] as int * scale;
        scale := scale * 0x100;
        i := i + 1;
      }
      length := total;
    }

    /** At end of input: poisoned, inside a frame, or at a clean boundary. */
    method Finish() returns (failure: Option<Failure>)
      requires Valid()
      ensures failure == if poisoned then Some(Failure(Malformed, true, None))
                         else if Residue() != [] then Some(Failure(Truncated, true, None))
                         else None
    {
      if !poisoned {
        ResidueIsUnfinished();
      }
      return if poisoned || headerUsed != 0
             then Some(Failure(if poisoned then Malformed else Truncated, true, None)) else None;
    }
  }

  function Flatten(chunks: seq<Bytes>): Bytes {
    if chunks == [] then [] else chunks[0] + Flatten(chunks[1..])
  }

  function Verdict(ending: Ending): Option<Failure> {
    match ending
    case Clean => None
    case Cut => Some(Failure(Truncated, true, None))
    case Corrupt => Some(Failure(Malformed, true, None))
  }

  /** `earlier` payloads followed by those of `stream` make up `whole`, with the same ending. */
  ghost predicate Completes(whole: Parsed, earlier: seq<Bytes>, stream: Bytes) {
    whole == Parsed(earlier + Parse(stream).payloads, Parse(stream).ending)
  }

  lemma CompletesStep(whole: Parsed, earlier: seq<Bytes>, stream: Bytes, more: Bytes)
    requires Completes(whole, earlier, stream + more)
    ensures HeadOf(stream).Bad? ==> whole == Parsed(earlier, Corrupt)
    ensures HeadOf(stream).Frame? ==>
              Completes(whole, earlier + [HeadOf(stream).payload], HeadOf(stream).rest + more)
  {
    hide HeadOf;
    HeadIsStable(stream, more);
    if HeadOf(stream).Frame? {
      var tail := Parse(HeadOf(stream).rest + more).payloads;
      assert earlier + ([HeadOf(stream).payload] + tail) == earlier + [HeadOf(stream).payload] + tail;
    }
  }

  lemma SuffixOfInput(residue: Bytes, input: Bytes)
    requires Unfinished(residue) && HeadOf(residue + input).Frame?
    ensures var rest := HeadOf(residue + input).rest; |rest| < |input| && rest == input[|input| - |rest|..]
  {
    hide HeaderLength;
    HeadIsStable(residue, input);
    if |residue| >= FRAME_HEADER_BYTES {
      assert (residue + input)[..FRAME_HEADER_BYTES] == residue[..FRAME_HEADER_BYTES];
    }
  }

  /** Feeding a stream in any chunks yields the payloads, and at the end the verdict, that reading
      it in one piece gives; every call on a nonempty suffix consumes something. */
  method DecodeChunks(chunks: seq<Bytes>) returns (payloads: seq<Bytes>, failure: Option<Failure>)
    ensures payloads == Parse(Flatten(chunks)).payloads
    ensures failure == Verdict(Parse(Flatten(chunks)).ending)
  {
    hide HeadOf, Parse, Flatten;
    var decoder := new FrameDecoder();
    ghost var whole := Parse(Flatten(chunks));
    payloads := [];
    assert chunks[0..] == chunks;
    assert decoder.Residue() + Flatten(chunks) == Flatten(chunks);
    for i := 0 to |chunks|
      invariant fresh(decoder) && fresh(decoder.header) && decoder.Valid() && !decoder.poisoned
      invariant Completes(whole, payloads, decoder.Residue() + Flatten(chunks[i..]))
    {
      var input := chunks[i];
      ghost var later := Flatten(chunks[i + 1..]);
      assert Flatten(chunks[i..]) == input + later by { FlattenStep(chunks, i); }
      assert decoder.Residue() + (input + later) == decoder.Residue() + input + later;
      while input != []
        invariant decoder.Valid() && !decoder.poisoned
        invariant Completes(whole, payloads, decoder.Residue() + input + later)
        decreases |input|
      {
        ghost var residue := decoder.Residue();
        ghost var stream := residue + input;
        decoder.ResidueIsUnfinished();
        CompletesStep(whole, payloads, stream, later);
        var result := decoder.Consume(input);
        if result.Rejected? {
          failure := decoder.Finish();
          return;
        }
        if result.value.payload.Some? {
          SuffixOfInput(residue, input);
          payloads := payloads + [result.value.payload.value];
        }
        input := input[result.value.consumed..];
        assert decoder.Residue() + input + later
               == if result.value.payload.Some? then HeadOf(stream).rest + later else stream + later;
      }
      assert decoder.Residue() + [] + later == decoder.Residue() + later;
    }
    assert chunks[|chunks|..] == [];
    assert decoder.Residue() + [] == decoder.Residue();
    FlattenNothing();
    decoder.ResidueIsUnfinished();
    UnfinishedParse(decoder.Residue());
    failure := decoder.Finish();
  }

  lemma FlattenStep(chunks: seq<Bytes>, i: nat)
    requires i < |chunks|
    ensures Flatten(chunks[i..]) == chunks[i] + Flatten(chunks[i + 1..])
  {
    assert chunks[i..][1..] == chunks[i + 1..];
  }

  lemma FlattenNothing()
    ensures Flatten([]) == []
  {
  }

  lemma UnfinishedParse(residue: Bytes)
    requires Unfinished(residue)
    ensures Parse(residue) == Parsed([], if residue == [] then Clean else Cut)
  {
  }
}
