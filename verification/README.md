# PipeForge verification

PipeForge is a local client/server IPC stack. A client connection with three worker
threads multiplexes calls over one framed byte stream. A server gives every accepted
peer its own session store, and all sessions draw IDs from one source. This project
models that stack in Dafny and proves what it promises over all inputs and all
interleavings.

| layer | files | what is proved |
|---|---|---|
| contracts | `Contracts`, `Utf8`, `Validation` | argument matching, metadata checks, exactly the UTF-8 texts |
| session store | `Registry`, `Store`, `StoreTheorems`, `OperationTheorems`, `SessionStore`, `Builtins` | accounting, atomicity, paging, what every operation gives back later, plugins; the cached store refines a recounting one |
| framing and stream | `Framing`, `Stream` | chunk-independent decoding, delivery under every read and write schedule |
| codec | `Messages`, `Budgets`, `Codec`, `CodecTheorems`, `Replies` | exact budgets, round trips both ways, every reply encodes |
| client | `Client`, `ClientRuns`, `ClientTheorems`, `Connection` | a joint invariant over five kinds of step, and what it gives every run |
| server | `Server` | dispatch, and isolation of all workers' sessions |
| whole system | `System`, `SystemTheorems` | callers get the outcome of what they asked for, no call is lost |
| bytes | `Wire`, `ByteSystem`, `Serializer` | the same system over byte pipes with partial writes and reads, down to the proto3 encoding |
| diagnostics | `Diagnostics` | one well-formed trace document |

How the layers are modelled:

- Objects that update fields are classes with a `Valid()` or `View()`; their methods, loops
  included, are proved against pure functions. `SessionStores.SessionStore` caches charges and a
  running total and is proved equal, operation by operation, to `Store.Execute`, which recounts.
- `Connections.Connection` has one method per critical section of the client's mutex. The same
  sections, as functions on `Client.Shared`, are the steps of the interleaving model `ClientRuns`:
  its events are the workers' lock acquisitions, clock ticks, token stops and I/O completions, in
  any order and with any result. A promise is the list of values it was given, so "set twice"
  would be visible.
- A registered class is a record of functions (create, clone, state, invoke) over an arbitrary
  instance type. Theorems quantify over these functions, so they hold for plugins that return no
  clone, mutate the candidate and then fail, or report a wrong state or kind.
- Messages are typed trees with unknown fields and exact serialized sizes; a payload is its size
  and its tree, if the bytes parse. Doubles are 64-bit patterns.
- `Systems` runs one client against one server session over an ordered channel: arbitrary client
  events, transport failures at any time, the server leaving at any time, and other sessions
  issuing IDs in between. `ByteSystems` replaces the channel by two byte pipes on which frames are
  written and read in arbitrary pieces, and is proved to be a run of `Systems` step by step. The
  message library enters as functions between packets and bytes; what is expected of them is that
  encoder output takes its computed size and parses back, and the proto3 encoding is shown to do so.

`ValidSession`, `ClientRuns.Inv`, `Server.Inv` and `Systems.SystemInv` are the four invariants.
Each holds initially and is kept by every step; the run theorems follow from them.

## Model

| member | source | states |
|---|---|---|
| `SystemTheorems.CallersGetWhatTheyAskedFor` | src/client/client.cpp:147-184 | In every run of client, channel and server: if a call of an operation was admitted in some step and is ever answered, the answer carries the ID it was admitted under and the outcome of that very operation, executed at the call's place in the submission order. |
| `SystemTheorems.AnswersBelongToTheirCalls` | src/client/client.cpp:380-401 | The answer to a call that was ever pending is the outcome of the request it was admitted with, which is also the request handed to the channel. |
| `SystemTheorems.EveryAnswerIsItsOwn` | src/client/client.cpp:351-409 | In every state of every run a caller holds at most one result. An answer carries the ID and the outcome of the request handed over under it, obtained by replaying the executed operations in submission order. A failure names a protocol violation only if the transport reported one. |
| `SystemTheorems.ClientOfARunRuns` | src/client/client.cpp:257-454 | The client states of a system run form a client run, so every client theorem applies to it. |
| `SystemTheorems.ExecutedInSubmissionOrder` | src/server/dispatcher.cpp:44-62 | The server executes a prefix of the requests handed to the channel, each at most once and in increasing ID order; its session is exactly the replay of that prefix and is always valid. |
| `SystemTheorems.NoCallIsLost` | src/client/client.cpp:304-349 | While both ends hold the session, every pending call is queued, being written, decodable in the channel to the server, or the outcome of its own execution is decodable in the channel back. |
| `SystemTheorems.QuietMeansAnswered` | src/client/client.cpp:399-401 | When queue, writer and channel are empty and the session is open, every admitted call has its one result. |
| `SystemTheorems.WhySessionsEnd` | src/client/client.cpp:388-397 | With this server a connected session ends only by `close`, by a transport failure, or because a call on the wire is past its deadline or cancelled. |
| `SystemTheorems.WorkerStepIsMove` | src/transport/windows/server.cpp:117-172 | A step of any worker is a system move as long as the mirrored worker keeps its session: its own request serves, its leaving leaves, and any other worker's step issues IDs. |
| `SystemTheorems.ConnectionsAreSystemRuns` | src/transport/windows/server.cpp:174-229 | Take a server with any number of workers and one connection, from its acceptance for as long as the worker keeps the session. With all workers, the client and the channel interleaved, the connection is a run of the system, starting from the shared ID source as it stood. |
| `SystemTheorems.CallersGetWhatTheyAskedForOnTheServer` | src/transport/windows/server.cpp:191-229 | On such a server a caller of any connection gets the outcome of the operation asked for, and that worker's session is the replay of its own log. |
| `Systems.MoveKeepsInv` | src/client/client.cpp:257-454 | Every move of client, channel and server keeps the system invariant: channel contents are the encodings of the unexecuted requests and unreceived replies in order, and exactly the unanswered handed-over calls are on the wire. |
| `Systems.RunKeepsInv` | src/client/client.cpp:257-454 | That invariant holds in every reachable system state. |
| `Systems.ServeKeepsChannel` | src/transport/windows/server.cpp:123-171 | An accepted request decodes to what was submitted, is executed, and its reply encodes and queues in order. |
| `Systems.FairStepsAreBlameless` | src/client/client.cpp:25-43 | No client step turns a transport failure, expiry, cancellation or close into a protocol violation unless the transport reported one. |
| `ByteSystems.ByteRunsAreSystemRuns` | src/transport/windows/stream.cpp:81-174 | Under every pattern of partial writes, partial reads and broken sends on both directions, a run of the bytes is a run of the packets with the same client, session and log. |
| `ByteSystems.ByteMoveIsAMove` | src/transport/windows/stream.cpp:81-174 | Each byte move is one system move or none. |
| `ByteSystems.CallersGetWhatTheyAskedForInBytes` | src/client/client.cpp:147-184 | The caller theorem stated over the byte system. |
| `ByteSystems.FramesAreGenuine` | src/protocol/framing.cpp:26-73 | In every byte run neither end sees a bad length; a complete frame at the server's end decodes to the oldest unexecuted request, one at the client's end to the reply to the oldest call whose reply was not taken. |
| `ByteSystems.ViolationsAreTruncations` | src/transport/windows/stream.cpp:147-169 | In every byte run a caller is told of a protocol violation only if the server is gone, everything it wrote was read, and the client's stream ends inside a frame: never while the server serves and never because of what it sent. |
| `ByteSystems.CutsAreFinal` | src/transport/windows/stream.cpp:147-169 | Once a receive reported a violation the stream stays cut inside a frame with the server gone. |
| `Wires.HeadIsGenuine` | src/protocol/framing.cpp:26-73 | Whatever prefix of the frames has arrived, its head is incomplete or exactly the first payload, and the rest carries the others. |
| `Wires.SendMovesPipe` | src/transport/windows/stream.cpp:81-118 | A send of the stream object is the beginning of a frame, its writes and perhaps a break of the pipe: the same bytes enter and it fails exactly if the pipe is broken. The failure it reports is the check before it, else a violation for an illegal size, else the kind of the write that failed, a write of nothing or too much counting as a disconnection. |
| `Wires.ReceiveMovesPipe` | src/transport/windows/stream.cpp:120-174 | A receive of the stream object reads from the pipe and pops the frame at its head, or fails. The failure it reports is a check before a read, the kind of the read that failed, a violation for a bad length or an end inside a frame with nothing under way, or a disconnection at an end between frames. |
| `Wires.WritesArePushed` | src/transport/windows/stream.cpp:99-117 | The writes of one send, cut as the schedule cuts them, together move what it accepts and break the pipe exactly if that is not all. |
| `Wires.PushesStopForAReason` | src/transport/windows/stream.cpp:99-115 | Writing stops short only at a write that failed, and reports its kind. |
| `Wires.DecisionIsTrue` | src/transport/windows/stream.cpp:133-163 | An undecided stream that ends is reported as its native failure, as a truncation inside a frame, or as a disconnection between frames. |
| `Serializer.Proto3Serializes` | src/protocol/codec.cpp:563-576 | The proto3 encoding of every accepted request and response has the size the encoder computed and parses back to it. |
| `Serializer.OperationFollowsSchema` | proto/pipeforge/v1/protocol.proto:138-153 | Every operation has the field number of the schema, and each argument is found under its own. |
| `Serializer.OutcomeFollowsSchema` | proto/pipeforge/v1/protocol.proto:155-168 | Every outcome has the field number of the schema, and each part is found under its own. |
| `Serializer.DescriptionFollowsSchema` | proto/pipeforge/v1/protocol.proto:62-67 | A description's name, attributes, methods and constructor parameters are found under their numbers. |
| `Serializer.EnvelopeBytes` | src/protocol/codec.cpp:563-576 | An envelope is the version under key 8, the ID under key 16 and its one alternative, delimited. |
| `Serializer.GoldenRequest` | tests/unit/protocol_tests.cpp:262-268 | The golden bytes of version 1. |
| `Serializer.LittleDenotes` | src/protocol/codec.cpp:563-576 | A double's bit pattern is written least significant byte first. |
| `Serializer.RequestInjective` | proto/pipeforge/v1/protocol.proto:138-153 | Different requests have different proto3 bytes. |
| `Serializer.ResponseInjective` | proto/pipeforge/v1/protocol.proto:155-168 | Different responses have different proto3 bytes. |
| `Serializer.SerializedInjective` | proto/pipeforge/v1/protocol.proto:30-168 | Field lists are determined by their bytes: every field ends where its own bytes say. |
| `Serializer.OperationSize` | src/protocol/codec.cpp:237-280 | The bytes of an operation's field take exactly the size computed from its message tree. |
| `Serializer.OutcomeSize` | src/protocol/codec.cpp:477-519 | The bytes of an outcome's field take exactly the size computed from its message tree. |
| `ClientRuns.NextKeepsInv` | src/client/client.cpp:257-454 | Every step of writer, reader, monitor, submitters and controller keeps the joint invariant: promises empty exactly while pending, the queue is the queued part of the pending calls in ID order, requests handed over precede queued ones, at most one call is being written and the writer holds it, at most 16 pending, and the connection lifecycle. |
| `ClientTheorems.RunKeepsInv` | src/client/client.cpp:257-454 | The joint invariant holds in every reachable client state, for any clock, tokens and I/O results. |
| `ClientTheorems.EveryCallEndsOnce` | src/client/client.cpp:227-247 | In every run an admitted call's promise is set at most once, is unset exactly while the call is pending, never changes afterwards, and is set once the session is closed. |
| `ClientTheorems.ClosedForever` | src/client/client.cpp:227-247 | After the session closed nothing of it changes any more, and nothing is pending or queued. |
| `ClientTheorems.OpeningEndsOnce` | src/client/client.cpp:257-302 | The connect promise is set at most once and never changes; it says connected exactly when the connection is; a started and closed session has set it; a connected open session was never asked to shut down. |
| `ClientTheorems.NextGrows` | src/client/client.cpp:147-184 | A step only appends to promises, requests and openings, only raises flags, and keeps a pending call's entry. |
| `ClientTheorems.RequestsArriveAsSubmitted` | src/client/client.cpp:168-181 | Whatever is ever handed to the channel under a call's ID is the request admitted under that ID. |
| `ClientTheorems.SubmissionOrder` | src/client/client.cpp:304-331 | Requests reach the channel in strictly increasing ID order, the list is never rewritten, and nothing overtakes a queued call. |
| `ClientTheorems.CallsEndForTheirOwnReason` | src/client/client.cpp:315-325 | While the session stays open, a call leaves it only by its own matching response, in time and uncancelled, or unsent by its own deadline or token. |
| `ClientTheorems.LeavingIsLocal` | src/client/client.cpp:440-449 | A call that leaves an open session disturbs no other: calls still pending keep phase, entry and promise, ended ones keep their result, the rest of the queue keeps its order, nothing is handed over, and whatever else leaves in that step leaves for its own reason. |
| `ClientTheorems.LocalFailuresAreUnsent` | src/client/client.cpp:317-325 | A call that failed while the session was open failed by timeout or cancellation and is never handed to the channel, before or later. |
| `ClientTheorems.LocalCausesAreTrue` | src/client/client.cpp:319-323 | A call dropped as timed out was past its deadline with no stop seen; one dropped as cancelled had its token stopped. |
| `ClientTheorems.ClosingVerdicts` | src/client/client.cpp:338-397 | The step that ends a session gives every pending call exactly one verdict: the call at fault its own cause, every other call the common one, event by event. |
| `ClientTheorems.AdmissionIsExact` | src/client/client.cpp:147-184 | A call is admitted exactly in an open session, in time, uncancelled, within both quotas and if its request encodes. It then waits at the end of the queue with its encoded request and the caller's own deadline. A refused call changes nothing and is told the first of these reasons that applies. |
| `ClientTheorems.DeadlineIsTheCallers` | src/client/client.cpp:174-182 | In every run, as long as a call is pending, its deadline and operation are the ones its caller submitted. |
| `ClientTheorems.CallersDeadlinesAreKept` | src/client/client.cpp:388-397 | In every run, for a call submitted with deadline `until`: a step answers it only before `until` and before its token was seen stopped, no monitor pass at or after `until` leaves it pending, and a verdict of timeout or cancellation is true of that deadline and token or was reported by the transport. |
| `ClientTheorems.EveryEndingIsTimely` | src/client/client.cpp:304-454 | Every call that has a result got it in exactly such a step after its submission. |
| `ClientTheorems.OnlyTimelyCallsAreSent` | src/client/client.cpp:304-330 | Whatever is handed to the channel is the queue's front, in time and not seen stopped. |
| `ClientTheorems.RepliesMustFit` | src/client/client.cpp:376-401 | Whatever a peer replies: a call on the wire is answered only under its own ID by an error or by the outcome kind of its operation with the class, value or ID asked for, and such a reply in time does answer it. Any other reply closes the session and tells every pending call of a protocol violation. |
| `ClientTheorems.MatchingIsExact` | src/client/client.cpp:45-88 | The response check accepts exactly an error or an answer of the asked kind about what was asked; a put NaN never comes back as equal, a zero may change its sign. |
| `ClientTheorems.TransportFailuresAreTold` | src/client/client.cpp:25-43 | A failed receive tells every pending call the kind and native code the transport reported; a failed send tells them the call being written, and every other one of a disconnection. |
| `ClientTheorems.PublishedExactly` | src/client/client.cpp:271-302 | The connection becomes connected exactly by an opening that ends with a channel, in time, on a session neither closed nor asked to stop. |
| `ClientTheorems.OpeningIsTold` | src/client/client.cpp:108-145 | The connect promise is given exactly what happened: the connector's kind and code, a missing channel, a stop, a passed deadline, the code of a thread that could not be created, or success; and it is given something whenever one of these happens. |
| `ClientTheorems.OverdueOnTheWireEndsTheSession` | src/client/client.cpp:429-438 | A call overdue on the wire closes the session in that pass; the lowest such call gets its own cause, every other pending call, overdue in the queue or not, gets the common one. |
| `ClientTheorems.NoOverdueCallSurvives` | src/client/client.cpp:427-450 | A monitor pass that leaves the session open leaves no call that was past its deadline or cancelled as seen. |
| `Connections.Connection.constructor` | src/client/client.cpp:456-470 | A fresh connection satisfies the shared-data invariant. |
| `Connections.Connection.FailLocked` | src/client/client.cpp:227-247 | Closing resolves the opening and every pending call once, the named call with its own cause, and empties both collections; a second call does nothing. |
| `Connections.Connection.ResolveAll` | src/client/client.cpp:240-242 | The loop in ID order fulfils each pending promise exactly once and no other. |
| `Connections.Connection.ConnectAsync` | src/client/client.cpp:108-145 | Starts at most once; expiry, cancellation and failed thread creation close the session through the connect promise. |
| `Connections.Connection.CallAsync` | src/client/client.cpp:147-184 | The admission `ClientTheorems.AdmissionIsExact` describes, on the object's fields: an admitted call enters promises, pending calls and queue under a fresh ID with the caller's operation and deadline. |
| `Connections.Connection.Close` | src/client/client.cpp:186-191 | Closing by the controller cancels everything pending. |
| `Connections.Connection.FinishOpening` | src/client/client.cpp:271-302 | The writer's first section publishes the connection only if it is not closed, has a channel, was not asked to stop and is in time. |
| `Connections.Connection.PopFront` | src/client/client.cpp:305-328 | The writer completes an overdue front locally or hands it over; popping the front equals removing that call. |
| `Connections.Connection.FinishSending` | src/client/client.cpp:333-347 | After a send the call is marked only if it is still pending; a failed send closes the session blaming that call. |
| `Connections.Connection.Receive` | src/client/client.cpp:364-401 | The delivery `ClientTheorems.RepliesMustFit` describes, on the object's fields: a response completes its call only if it is awaited on the wire, fits the operation and is in time; everything else closes the session. |
| `Connections.Connection.MonitorPass` | src/client/client.cpp:427-450 | The loop that erases while iterating computes the declarative sweep: close for the lowest overdue call on the wire, otherwise remove exactly the overdue queued calls. If still open, the wake time is after now, at most one slice later and no later than any remaining deadline. |
| `Connections.Connection.DropQueued` | src/client/client.cpp:440-444 | Completing an overdue queued call advances the pass by exactly that call. |
| `Connections.Connection.Fulfil` | src/client/client.cpp:399-401 | A promise is fulfilled only while unset, and its call leaves the pending calls. |
| `Connections.PassMeetsTheWire` | src/client/client.cpp:429-438 | ID order puts calls on the wire before queued ones, so a pass that closes the session has removed nothing individually. |
| `Server.NextKeepsInv` | src/transport/windows/server.cpp:191-229 | Every worker step keeps the server invariant (IDs issued once and increasing, sessions valid and disjoint, the active counter equals the busy workers) and touches its own slot only. A usable request whose reply leaves keeps the session served. A slot accepts a peer with an empty session, and is free again only after its store was closed, empty and uncharged. |
| `Server.RunKeepsInv` | src/transport/windows/server.cpp:191-229 | The server invariant holds in every reachable state of any number of workers. |
| `Server.RunIssues` | src/domain/domain.cpp:106-115 | Over any stretch of a run the list of issued IDs only grows and the source only moves forward. |
| `Server.SessionsAreIsolated` | src/transport/windows/server.cpp:206-219 | An ID held by one session, or issued before a session was accepted, is not found in that other session, and the attempt changes nothing. |
| `Server.Dispatcher.Dispatch` | src/server/dispatcher.cpp:44-62 | The dispatcher object mutates its store exactly by the specified execution and correlates the reply. |
| `Server.RepliesAreCorrelated` | src/server/dispatcher.cpp:64-80 | A payload gets a reply exactly when it parses and names a call; the reply carries that ID and version 1; a rejected request is answered by an error or ends the session, and changes nothing. |
| `Server.RejectionsAreExplained` | src/server/dispatcher.cpp:64-80 | A correlated peer is told the outcome of a sound request, otherwise the reason: version before budgets before fields. A broken limit with clean texts is a quota error, a text that is not UTF-8 within the limits a bad request, and both together one of the two. |
| `Server.OtherVersionsAreRefused` | src/server/dispatcher.cpp:44-62 | A request of another version is refused by name and one without an ID ends the session; neither reaches the store. |
| `Server.ForeignIdIsNotFound` | src/domain/domain.cpp:193-202 | An operation naming an ID the session does not hold is answered not found and changes nothing. |
| `Server.StaysOpen` | src/domain/domain.cpp:127-138 | No operation closes a session. |
| `Server.EveryDispatchEncodes` | src/transport/windows/server.cpp:154-163 | Whatever a peer sends to a reachable session, the session stays valid and the reply encodes and decodes back to itself, so the encoding failure branch is never taken. |
| `Server.OutcomesMatch` | src/client/client.cpp:45-88 | Every outcome of an operation passes the client's response check for that operation; `ClientTheorems.MatchingIsExact` says what else does. |
| `Replies.EveryReplyEncodes` | src/protocol/codec.cpp:629-644 | Every outcome of every operation on every reachable session is accepted by the response encoder: entry, node, text and byte limits, page order and cursor rules. |
| `Replies.MetadataBoundIsTight` | src/contracts/validation.cpp:101-118 | Among otherwise valid class descriptions, those admitted by the node bound are exactly those whose reply encodes. |
| `Replies.ExecuteIsSendable` | src/domain/domain.cpp:127-138 | Outcomes of reachable sessions meet the cost and shape conditions of the wire. |
| `CodecTheorems.EncodedRequestDecodes` | src/protocol/codec.cpp:612-627 | Every request the encoder accepts decodes to itself. |
| `CodecTheorems.EncodedResponseDecodes` | src/protocol/codec.cpp:629-644 | Every response the encoder accepts decodes to itself. |
| `CodecTheorems.DecodedRequestReencodes` | src/protocol/codec.cpp:584-596 | A payload that decodes is written back as its own tree without unknown fields: same nodes, no more bytes, and read back equal. It is accepted again exactly if it fits, and always if the payload was no shorter than the tree it parsed to. |
| `CodecTheorems.DecodedResponseReencodes` | src/protocol/codec.cpp:598-610 | A payload that decodes is written back as its own tree without unknown fields: same nodes, no more bytes, and read back equal. It is accepted again exactly if it fits, and always if the payload was no shorter than the tree it parsed to. |
| `CodecTheorems.OperationRewrites` | src/protocol/codec.cpp:160-280 | Writing a read operation restores its message up to unknown fields. |
| `CodecTheorems.OutcomeRewrites` | src/protocol/codec.cpp:394-519 | Writing a read outcome restores its message up to unknown fields. |
| `Codec.ReadNamedEntries` | src/protocol/codec.cpp:129-148 | The reading loop accepts exactly lists of readable values under valid distinct names. |
| `Budgets.CheckIsExact` | src/protocol/codec.cpp:43-91 | The recursive walk accepts a tree exactly when every list, text and unknown field is within bounds and both totals fit, spends exactly those totals, and otherwise reports a limit or invalid fields. |
| `Budgets.CodeIsTheReason` | src/protocol/codec.cpp:43-91 | The walk names a reason that applies: a limit if every text is UTF-8, invalid fields if every limit is kept. |
| `Budgets.ValidateMessage` | src/protocol/codec.cpp:43-91 | The walk with shared counters decremented in loops computes that verdict. |
| `Budgets.ValidateField` | src/protocol/codec.cpp:58-88 | The loop over a field's entries checks cardinality, texts and children as specified. |
| `Budgets.BoundedUnknowns` | src/protocol/codec.cpp:19-40 | The loop over unknown fields and nested groups spends exactly the specified budget. |
| `Budgets.StripIsSmaller` | src/protocol/codec.cpp:43-91 | Dropping unknown fields keeps the node count, leaves none, and never grows a message. |
| `Framing.DecodeChunks` | src/protocol/framing.cpp:26-83 | For every chunking the incremental decoder yields the payloads and the final verdict of a one-shot parser of the whole stream. |
| `Framing.FrameDecoder.Consume` | src/protocol/framing.cpp:26-73 | One call does what the first frame of remembered bytes plus input dictates: progress, poisoning or completion, with nothing read beyond the frame. |
| `Framing.FrameDecoder.FillHeader` | src/protocol/framing.cpp:33-41 | Copies exactly the missing header bytes into the fixed buffer. |
| `Framing.FrameDecoder.ReadHeader` | src/protocol/framing.cpp:43-49 | The shifting loop reads the little-endian length the encoder wrote. |
| `Framing.FrameDecoder.FillPayload` | src/protocol/framing.cpp:60-72 | Takes no byte beyond the declared length and resets the decoder when the frame is complete. |
| `Framing.FrameDecoder.Finish` | src/protocol/framing.cpp:75-83 | Truncation is reported exactly off frame boundaries, and poisoning before that. |
| `Framing.FramePayload` | src/protocol/framing.cpp:7-24 | The header loop produces the frame the parser reads, for 1 byte to 1 MiB, and rejects other sizes. |
| `Framing.ParseOfEncoded` | src/protocol/framing.cpp:7-24 | Concatenated frames parse to exactly the framed payloads with a clean end. |
| `Framing.HeaderIsLittleEndian` | src/protocol/framing.cpp:14-21 | The length is written least significant byte first. |
| `Framing.HeadIsStable` | src/protocol/framing.cpp:26-73 | More bytes never change a verdict already reached. |
| `Streams.PipeStream.Send` | src/transport/windows/stream.cpp:81-118 | A failed stream, a preflight failure and an illegal size are reported as such and write nothing; otherwise exactly the part of the frame the schedule accepts is on the wire, and the result is success or the loss that stopped it. |
| `Streams.PipeStream.WriteAll` | src/transport/windows/stream.cpp:99-117 | The loop over the remaining span pushes exactly what the schedule accepts and stops at the first failed, empty or excessive write. |
| `Streams.PipeStream.Receive` | src/transport/windows/stream.cpp:120-174 | Either the first preflight that fails is reported, in a round that was needed, or the head of the unread stream decides: the next frame, a violation for a bad length, truncation inside a frame, a plain disconnect at a boundary. Frame and bad length are seen in the bytes taken in so far, truncation when nothing more arrives. |
| `Streams.PipeStream.Round` | src/transport/windows/stream.cpp:126-173 | One round settles the receive from the bytes held, ends it, or takes in exactly the next read while the head is incomplete. |
| `Streams.PipeStream.Drain` | src/transport/windows/stream.cpp:132-145 | Offering the window yields a finished frame or a bad header, or consumes the window completely; no unread byte is lost. |
| `Streams.PipeStream.Refill` | src/transport/windows/stream.cpp:171-172 | The window is overwritten only when fully consumed, and the unread stream stays the same. |
| `Streams.PipeStream.Ended` | src/transport/windows/stream.cpp:147-169 | The end of input is a protocol violation exactly inside a frame. |
| `Streams.Transmit` | src/transport/windows/stream.cpp:99-117 | Any list of payloads, each under its own accepting write schedule, goes out as the concatenation of its frames. |
| `Streams.Collect` | src/transport/windows/stream.cpp:126-173 | Any read chunking of that byte stream delivers exactly the list, in order, then a clean disconnect. |
| `SessionStores.SessionStore.Execute` | src/domain/domain.cpp:127-138 | The store with cached charges, a running byte total and loops reaches exactly the state, ID source and outcome of the recounting specification, whose every operation is pinned in `OperationTheorems`, and stays valid; no unsigned subtraction underflows. |
| `SessionStores.SessionStore.constructor` | src/domain/domain.cpp:117-125 | A new store is valid, empty, and each of its quotas is the smaller of the requested one and the hard maximum. |
| `SessionStores.SessionStore.Close` | src/domain/domain.cpp:140-146 | Closing leaves a valid, empty, uncharged, closed store. |
| `SessionStores.SessionStore.ApplyPut` | src/domain/domain.cpp:172-191 | Checks, charge and ID use of a put agree with the specification. |
| `SessionStores.SessionStore.ApplyListValues` | src/domain/domain.cpp:204-229 | The paging loop with both bounds yields the specified page; its last element exists whenever a cursor is returned. |
| `SessionStores.SessionStore.ApplyCreate` | src/domain/domain.cpp:231-278 | Creation agrees with the specification for every factory. |
| `SessionStores.SessionStore.Retain` | src/domain/domain.cpp:255-277 | A fresh instance is retained only with matching state, within budget and with an ID left; nothing is consumed otherwise. |
| `SessionStores.SessionStore.ApplyGetObject` | src/domain/domain.cpp:280-298 | Reading an object agrees with the specification and changes nothing. |
| `SessionStores.SessionStore.ApplyGetAttribute` | src/domain/domain.cpp:316-331 | Reading an attribute agrees with the specification and changes nothing. |
| `SessionStores.SessionStore.ApplyRelease` | src/domain/domain.cpp:300-314 | A held object, and only that, is released: it leaves the map and the running total falls by exactly its cached charge, as the recounting store says. |
| `SessionStores.SessionStore.ApplyInvoke` | src/domain/domain.cpp:333-384 | Invocation works on a clone and agrees with the specification for every plugin. |
| `SessionStores.SessionStore.Publish` | src/domain/domain.cpp:367-383 | The candidate replaces the object only if result, state and quota hold, exchanging old for new charge. |
| `SessionStores.IdentifierSource.Next` | src/domain/domain.cpp:106-115 | IDs are issued upwards once each and the source never wraps. |
| `SessionStores.ChargeState` | src/domain/domain.cpp:23-31 | The loop computes the specified state charge. |
| `Store.ExecuteKeepsValid` | src/domain/domain.cpp:153-384 | Every operation keeps the session valid: counts and bytes within quota, IDs issued and unshared, values valid, objects registered with matching state. |
| `StoreTheorems.RunKeepsValid` | src/domain/domain.cpp:127-138 | Every session reachable by any operations, with other sessions moving the ID source in between, is valid and its values only grow upwards. |
| `StoreTheorems.FailureIsAtomic` | src/domain/domain.cpp:355-384 | An operation that reports an error changed neither session nor ID source, for every plugin behaviour. |
| `StoreTheorems.IdentifiersAreConsumedOnce` | src/domain/domain.cpp:183-191 | The source moves exactly when a value or object is retained, and the new key is the old head. |
| `StoreTheorems.RetainedObjectsRead` | src/domain/domain.cpp:280-298 | In a reachable session every retained object reads as its snapshot; reads never fail internally. |
| `StoreTheorems.AttributesReadExactly` | src/domain/domain.cpp:316-331 | A declared attribute always reads with its declared kind, an undeclared one is always not found. |
| `StoreTheorems.OnlyItsInvocationTouches` | src/domain/domain.cpp:333-384 | An object changes only by its own invocation and never returns after release. |
| `StoreTheorems.PageIsMaximalSegment` | src/domain/domain.cpp:210-222 | A page is the longest run of stored values behind its cursor that fits both bounds. |
| `StoreTheorems.NonfinalPagesProgress` | src/domain/domain.cpp:224-226 | A page with a cursor is never empty and its cursor is its last ID. |
| `StoreTheorems.WalkDeliversEverything` | src/domain/domain.cpp:204-229 | Following cursors to the end, with any limits and any puts in between, takes at most one page more than there are values and delivers exactly the values stored at the last page, each once, in ID order. |
| `StoreTheorems.PagingDeliversEverything` | src/domain/domain.cpp:204-229 | In every run of a session, following `list_values` cursors from zero with any operations of this and other sessions in between takes at most one page more than there are values and, once a cursor is zero, has delivered exactly the values stored at the last page. |
| `OperationTheorems.PutIsExact` | src/domain/domain.cpp:172-191 | A put is accepted exactly if the value is valid, a slot and its charge are free and an ID is left. It stores the value under the next ID; otherwise nothing changes and the reason is named. |
| `OperationTheorems.GetReturnsWhatWasPut` | src/domain/domain.cpp:193-202 | In every run, once a put was answered, every later get of its ID in the open session returns that very value, whatever happens in between. |
| `OperationTheorems.GetFindsOnlyValues` | src/domain/domain.cpp:193-202 | A get finds an ID exactly if a value is stored under it, and returns that value. |
| `OperationTheorems.ReleaseIsExact` | src/domain/domain.cpp:300-314 | A nonzero ID is released exactly if an object is held under it; then exactly that object is gone and the used bytes fall by exactly its charge. |
| `OperationTheorems.ReleasedIsNeverFound` | src/domain/domain.cpp:311-313 | In every run, once a release was answered, every later operation that names the ID is not found. |
| `OperationTheorems.CreateRetainsTheInstance` | src/domain/domain.cpp:231-278 | An answered creation retained, under the reported ID and with its charge, what the factory of the registered class made of valid arguments. |
| `OperationTheorems.CreateAccepts` | src/domain/domain.cpp:231-278 | A factory that makes an object within the bounds of its class is never refused within the quotas. |
| `OperationTheorems.CreateRefuses` | src/domain/domain.cpp:231-278 | What a refused creation is told, reason by reason; nothing changes. |
| `OperationTheorems.GetReturnsWhatWasCreated` | src/domain/domain.cpp:280-298 | In every run, until its first invocation or release, an object reads as it was reported when created. |
| `OperationTheorems.InvokePublishesTheCandidate` | src/domain/domain.cpp:333-384 | An answered invocation called a declared method with valid arguments on a clone, returned its result of the declared kind, and replaced the object by that clone within the quota. |
| `OperationTheorems.InvokeAccepts` | src/domain/domain.cpp:333-384 | A declared method that keeps its declaration and the bounds of class and session is never refused, and exactly its object changes. |
| `OperationTheorems.InvokeRefuses` | src/domain/domain.cpp:333-384 | What a refused invocation is told, reason by reason; the object stays as it was. |
| `OperationTheorems.UndeclaredIsNotFound` | src/domain/domain.cpp:231-240 | Classes and methods that nobody declared are not found. |
| `OperationTheorems.DescribeIsExact` | src/domain/domain.cpp:158-170 | A class is described exactly as it was registered; any other name is not found or invalid. |
| `OperationTheorems.PagesLieBehindTheirCursor` | src/domain/domain.cpp:87-95 | Every name of an answered `list_classes` lies strictly behind the cursor the operation named. |
| `OperationTheorems.ListingDeliversEveryClass` | src/domain/domain.cpp:81-102 | In every run, following `list_classes` cursors from the empty name with any limits and any operations in between delivers exactly the registered names, once and in order, within one page more than there are classes. |
| `OperationTheorems.ClassPagesAreFull` | src/domain/domain.cpp:81-102 | A page of class names is as long as the limit or the last one, its cursor is its last name, and a bad cursor or limit is refused. |
| `OperationTheorems.ValuePagesAreFull` | src/domain/domain.cpp:204-229 | A page of values keeps limit and byte budget, and ends early only at the last value or where the next one would break the budget. |
| `OperationTheorems.ClosedSessionsDeny` | src/domain/domain.cpp:140-146 | A closed session denies every operation and changes no more. |
| `StoreTheorems.RunSplits` | src/domain/domain.cpp:127-138 | A run is its first part followed by the rest, in session, ID source and pacing. |
| `Registry.ClassRegistry.Add` | src/domain/domain.cpp:50-70 | A definition is admitted exactly if admissible, new and within 64, is inserted in name order, and is otherwise refused with the specified error and no change. |
| `Registry.ClassRegistry.ListClasses` | src/domain/domain.cpp:81-102 | The loop yields the page the listing theorems below are about: the names behind the cursor up to the limit, and the last of them as cursor if more follow. |
| `Registry.WalkCovers` | src/domain/domain.cpp:87-101 | Pages of a fixed list of names, followed with any limits, enumerate everything behind the start once and in order; `OperationTheorems.ListingDeliversEveryClass` is the same for operations. |
| `Registry.InsertKeepsOrder` | src/domain/domain.cpp:62-68 | Inserting at the lower bound keeps names strictly increasing. |
| `Builtins.CounterLifetime` | src/domain/builtins.cpp:36-119 | In every run a counter that was created and still exists equals its constructor argument plus the deltas accepted since. |
| `Builtins.TextBufferLifetime` | src/domain/builtins.cpp:78-136 | In every run a text buffer that was created and still exists equals its constructor argument plus the suffixes accepted since. |
| `Builtins.CreateCounterIsExact` | src/domain/builtins.cpp:104-119 | Creating a counter needs exactly one integer named `initial` and then only quota; it holds that integer. |
| `Builtins.CreateTextBufferIsExact` | src/domain/builtins.cpp:121-136 | Creating a text buffer needs exactly one valid text named `initial` and then only quota; it holds that text. |
| `Builtins.CounterAccumulates` | src/domain/builtins.cpp:36-58 | From any session on, a counter equals the value it holds there plus the deltas accepted since. |
| `Builtins.TextBufferAccumulates` | src/domain/builtins.cpp:78-97 | From any session on, a text buffer equals the text it holds there plus the suffixes accepted since. |
| `Builtins.IncrementIsExact` | src/domain/builtins.cpp:49-57 | An increment succeeds exactly if the true sum is a 64-bit integer, else reports overflow and changes nothing. |
| `Builtins.AppendIsExact` | src/domain/builtins.cpp:85-96 | An append succeeds exactly within 64 KiB and the session budget and stays valid UTF-8; it never fails internally. |
| `Builtins.OverflowIsExact` | src/domain/builtins.cpp:51-54 | The two guarded comparisons detect exactly the sums outside 64 bits. |
| `Builtins.BuiltinsAreAdmissible` | src/domain/builtins.cpp:104-136 | The registry accepts both built-in classes. |
| `Builtins.RetainedBuiltins` | src/domain/domain.cpp:260-263 | An object retained under a built-in definition really is of that class. |
| `Validation.ArgumentsExact` | src/contracts/validation.cpp:80-90 | Against duplicate-free parameters the asymmetric scan accepts exactly the argument lists whose names and kinds are the declared set, in any order. |
| `Validation.ValidNames` | include/pipeforge/validation.hpp:31-37 | The scan with set insertion accepts exactly lists of valid, pairwise distinct names. |
| `Validation.CheckDescription` | src/contracts/validation.cpp:92-119 | The accumulating loop decides the description predicate, node bound included. |
| `Contracts.MakeError` | src/contracts/validation.cpp:121-146 | Every error carries a declared code and a short ASCII text; undeclared codes become internal failures. |
| `Utf8.Concatenation` | src/contracts/validation.cpp:44-46 | Behind valid text, a suffix is valid exactly if the concatenation is. |
| `Utf8.CharactersAreValid` | src/contracts/validation.cpp:44-46 | Every sequence of Unicode scalar values is encoded as valid text. |
| `Utf8.ValidIsCharacters` | src/contracts/validation.cpp:44-46 | Valid text is the encoding of some sequence of Unicode scalar values: no surrogates, no overlong forms, nothing above U+10FFFF. |
| `Diagnostics.DecimalDenotes` | src/diagnostics/diagnostics.cpp:227 | The trailer's count is its decimal numeral, without leading zeros. |
| `Diagnostics.DiagnosticState.constructor` | src/diagnostics/diagnostics.cpp:92-125 | A tracing session starts with the header and one process event. |
| `Diagnostics.DiagnosticState.BeginScope` | src/diagnostics/diagnostics.cpp:145-171 | A scope is admitted exactly within the event and thread limits of an open, healthy trace; lanes stay distinct and stable; every refusal by a limit is counted. |
| `Diagnostics.DiagnosticState.EndScope` | src/diagnostics/diagnostics.cpp:173-194 | A scope that was admitted and has not ended finds the sink present, appends one event and is closed; the last one of a closing session seals the document. |
| `Diagnostics.ProfileScope.constructor` | src/diagnostics/diagnostics.cpp:305-318 | A scope is admitted exactly within the limits of an open trace, is then among the open scopes under a fresh name, and keeps a bounded label. |
| `Diagnostics.ProfileScope.Destroy` | src/diagnostics/diagnostics.cpp:322-327 | Destroying a scope writes its event and closes it exactly if it was admitted, and once. |
| `Diagnostics.DiagnosticState.Finish` | src/diagnostics/diagnostics.cpp:196-201 | Completion is reported exactly with no open scope and no sink failure; a sealed file never changes. |
| `Diagnostics.DiagnosticState.Finalize` | src/diagnostics/diagnostics.cpp:220-240 | The trailer with the dropped count is written exactly once, after the last event. |
| `Diagnostics.DiagnosticState.WriteEvent` | src/diagnostics/diagnostics.cpp:211-218 | The file stays the header and the comma-joined events, the new one last. |
| `Diagnostics.DiagnosticState.SinkFails` | src/diagnostics/diagnostics.cpp:204-209 | A sink error only raises the failure flag. |
| `Diagnostics.BodyAppend` | src/diagnostics/diagnostics.cpp:211-218 | Writing a separator before every event but the first keeps the file a comma-joined array. |

## Left out

- Win32 handles, security descriptors, overlapped I/O and endpoint retries: `open`, `send`, `receive`, `read_some` and `write_some` are arbitrary results.
- Protobuf byte parsing and generated code: a payload is its size and, if it parses, its message tree; the parser's recursion limit is part of "parses". The byte system takes the library as functions and expects `ByteSystems.Serializes` of them. `Serializer` gives the proto3 encoding of encoder output and the parser that encoding determines; parsing of other bytes is left open.
- Identity of shared call records: the client's pending call is a value found by ID, not a pointer held by map, queue and writer at once.
- The worker loops as running threads: they are steps of a transition system between critical sections; waiting, wake-ups and scheduling progress are not modelled.
- Joining threads and closing the channel in `close`, and the assertion that a channel outlives its I/O.
- Plugins with hidden state shared between clones, nondeterminism or exceptions, and variants left valueless by an exception.
- Server counters other than the active count, the gate's time slices, and `start`/`stop` of the worker set.
- Conversion loops other than `read_named` that only map element by element are functions on sequences.
- Logging, log levels, rotation, paths, JSON escaping and lost sink lines: an event is its serialized text, and the file is what was handed to the sink with one newline per line.
- Command-line parsing, demos, entry points, scripts and packaging.
- Access control and real-time latency.
