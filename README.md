# Deliver handler model

A Dafny model of the Hyperledger Fabric orderer's block-delivery handler,
`deliverServer.Handle` in `orderer/common/deliver/deliver.go`, together with its
reply helpers `sendStatusReply` and `sendBlockReply`.

A deliver session runs on one bidirectional stream. The client sends signed
envelopes, and each envelope carries a `SeekInfo`: a start position, a stop
position and a behaviour (`BLOCK_UNTIL_READY` or `FAIL_IF_NOT_READY`). For
each envelope the handler does the following:

1. It checks the envelope, in this order: the payload, its header, the
   channel header, the channel lookup, the readers' authorization, the seek
   info, and that both a start and a stop are present.
2. It opens a ledger cursor at the start position and resolves the stop number.
3. It sends blocks until it has sent the block whose number is the stop number.
4. It then sends `SUCCESS` and waits for the next envelope.

A failed check, a failed pull from the ledger, or a `FAIL_IF_NOT_READY`
cursor that has nothing ready ends the whole call once its one status is
sent, or with the send's error when that send fails.
A failed send ends the call with the send's error.

The project has five modules:

- `wire.dfy` (module `Wire`) holds the messages. Each protobuf decode step is
  reduced to its outcome: `Some` when the value decoded, `None` when it did
  not. `Status` is an `int32` newtype. Go's `uint64` is the subset type `u64`.
  `Response` has one Status variant and one Block variant, so every
  response carries exactly one of the two by construction.
- `ledger.dfy` (module `LedgerModel`) is a reference ledger reader over a
  finite snapshot of committed blocks. `Iterator` gives the pulls a fresh
  cursor yields and the start number it reports. `Cursor` is a class whose
  `Next` advances it.
- `transport.dfy` (module `Transport`) is the stream. `Stream` is a class
  with these parts:
  - a script of inbound messages and a receive position;
  - the responses sent so far;
  - a capacity after which every send fails with a fixed error.
- `deliver.dfy` (module `Deliver`) holds two things:
  - the specification of a session as functions: `Validate`, `ResolveStop`,
    `DeliverRange`, `Serve`, `Session`/`SessionTurn`, `Sent` and `Ending`;
  - the handler as methods over `Stream` and `Cursor`: `Handle` with its two
    loops, `SendStatusReply` and `SendBlockReply`. Each method is proved to
    send exactly what the specification says and to end as it says.
  
  The bodies of `Handle`'s two loops are their own methods:
  `HandleNext`/`HandleStep` for the request loop and
  `DeliverNext`/`DeliverStep` for the block loop. Each has a contract.
  The lemmas `DeliverRangeStep` and `SessionOnMessage` unfold
  `DeliverRange` and `Session` by one step for these methods; they are
  proof helpers and have no row below.
- `properties.dfy` (module `DeliverProperties`) holds lemmas. They cover
  receiving, the check order, refused requests, the shape and order of a
  delivered range, and how a session goes on or returns.

The script and the snapshot are finite, so a session can run out where the
real handler would block. The model gives such a session one of two extra
exits:

- `AwaitingRequest`: `Recv` has no message left.
- `AwaitingBlock`: under `BLOCK_UNTIL_READY`, the cursor has no ready pull
  left.

Two behaviours of the code worth noting:

- A `FAIL_IF_NOT_READY` cursor with nothing ready sends `NOT_FOUND` and ends
  the whole `Handle` call (`return` at line 148), not just the current request.
- `stop = Oldest` resolves to the start number that `Iterator` reports
  (line 130). The stop-below-start check covers only a specified stop
  (lines 133-138). `StopBehindStartNeverCompletes` shows a consequence: a
  `Newest` stop, or a stop position with no type, that resolves below the
  start never completes.

`Height() - 1` is computed in `uint64` arithmetic: when the height is 0 (no
block was ever committed) it wraps to 2^64 - 1. A stop position whose `oneof` is empty matches no case of
the switch, so it leaves `stopNum` at its zero value 0.

## Model

| member | source | states |
|---|---|---|
| Deliver.Handle | orderer/common/deliver/deliver.go:66-177 | The responses appended to the stream are exactly `Session(...).sent` over the unread messages and the stream's sending side, the call receives exactly `Session(...).consumed` messages, and it ends with `Session(...).exit` |
| Deliver.HandleStep | orderer/common/deliver/deliver.go:68-176 | One pass of the request loop keeps the loop invariant: the whole session is what was sent and received so far followed by the session over the unread messages. Otherwise the call ends exactly as the whole session says |
| Deliver.HandleNext | orderer/common/deliver/deliver.go:69-175 | One receive-and-serve turn either ends the call as the session says, having received the messages the session reads, or receives one envelope, sends `served`, and leaves a session whose outcome completes the old one |
| Deliver.HandleRequest | orderer/common/deliver/deliver.go:81-173 | For one envelope the stream gains the part of `Serve(sm, env)` that the link carries, and the turn ends as `Ending` says (`None`: receive again) |
| Deliver.DeliverBlocks | orderer/common/deliver/deliver.go:141-173 | The block loop plus the final SUCCESS send exactly the part of `DeliverRange(cursor.pulls, ...)` that the link carries, and end as `Ending` says |
| Deliver.DeliverStep | orderer/common/deliver/deliver.go:141-168 | One pass of the block loop keeps the invariant that the reply is what was emitted followed by the range over the cursor's remaining pulls. It sends one more block (and, at the stop block, leaves only SUCCESS), or ends the request as the reply says |
| Deliver.DeliverNext | orderer/common/deliver/deliver.go:142-167 | Readiness test or wait, `Next`, status check and block send. Either a SUCCESS pull's block is sent and the cursor advances by one, or the request ends exactly as the rest of the range says |
| Deliver.Refuse | orderer/common/deliver/deliver.go:84-155 | Every `return sendStatusReply(srv, …)` in `Handle` (lines 84, 89, 95, 103, 110, 116, 121, 137, 148 and 155): sends the one status the link carries and ends the call with the send's error, or with nil |
| Deliver.SendStatusReply | orderer/common/deliver/deliver.go:179-184 | Sends exactly one Status response when the link has room and fails with the stream's error otherwise. Nothing else changes |
| Deliver.SendBlockReply | orderer/common/deliver/deliver.go:186-190 | Sends exactly one Block response when the link has room and fails with the stream's error otherwise. Nothing else changes |
| Deliver.Validate | orderer/common/deliver/deliver.go:81-122 | A refusal is always BAD_REQUEST, NOT_FOUND or FORBIDDEN. A request that passes is authorized and names a channel the node serves |
| Deliver.ResolveStop | orderer/common/deliver/deliver.go:126-139 | Refused (BAD_REQUEST) iff the stop is specified below the start number. `Oldest` gives the start number and `Specified(n)` gives `n`. `Newest` gives the number one below the height, modulo 2^64. An untyped stop gives 0 |
| Deliver.Sent | orderer/common/deliver/deliver.go:160-173 | What a link carries of a reply is a prefix of it. It is the whole reply iff the reply fits the link |
| Deliver.Ending | orderer/common/deliver/deliver.go:160-176 | The handler receives again iff the whole reply went out and the range completed. A reply that does not fit ends the call with the send error |
| Deliver.DeliverRange | orderer/common/deliver/deliver.go:141-173 | The block loop as a function of the cursor's pulls: at most one response per pull plus one status, it waits only under BLOCK_UNTIL_READY, and otherwise answers with at least one response. `DeliverRangeShape` and `RangeCompletes` characterize it completely |
| Deliver.Serve | orderer/common/deliver/deliver.go:81-173 | One request: every request is answered unless it passed the checks and waits under BLOCK_UNTIL_READY. `ValidationOrder`, `RefusedRequests` and `ReplyShape` characterize its replies |
| Deliver.Session | orderer/common/deliver/deliver.go:68-176 | The request loop over the scripted messages: it reads no more messages than there are, and it waits for a request only after reading all of them. `LimitedLinkPrefix`, `ReceiveFailureEndsSession` and `CompletedRangeReceivesAgain` characterize it |
| Deliver.SessionTurn | orderer/common/deliver/deliver.go:81-176 | The request loop from a received envelope on: it reads that envelope and at most the messages after it, all of them when it waits for a request. `StoppedRequestEndsSession`, `RefusalEndsSession` and `SendFailureReturnsError` characterize it |
| LedgerModel.Iterator | orderer/common/deliver/deliver.go:126 | The start number is the lowest block's for `Oldest` and `n` for a servable `Specified(n)`. On a consecutively numbered ledger, the i-th successful pull carries start number + i |
| LedgerModel.OpenIterator | orderer/common/deliver/deliver.go:126 | Returns a fresh cursor positioned at the first of `Iterator`'s pulls, and `Iterator`'s start number |
| LedgerModel.Cursor.Ready | orderer/common/deliver/deliver.go:142-150 | `ReadyChan()` has fired exactly when the cursor has another pull to yield |
| LedgerModel.Cursor.Next | orderer/common/deliver/deliver.go:152 | Yields the next pull and advances by one |
| Transport.Stream.Recv | orderer/common/deliver/deliver.go:70 | Yields the next scripted message and advances, or yields nothing when the script has run out |
| Transport.Stream.Send | orderer/common/deliver/deliver.go:180-182 | Appends the response iff the link has room. Otherwise it fails with the stream's error and appends nothing |
| DeliverProperties.ReceiveFailureEndsSession | orderer/common/deliver/deliver.go:70-79 | EOF returns nil and any other receive error is returned unchanged, both with nothing sent and no further message read |
| DeliverProperties.ValidationOrder | orderer/common/deliver/deliver.go:81-122 | Each outcome is characterized iff by the earlier checks: NOT_FOUND for an unknown channel and FORBIDDEN for an unauthorized request, whatever the seek info holds. BAD_REQUEST for a decode failure or a malformed seek info. A pass carries the named channel and the seek range |
| DeliverProperties.RefusedRequests | orderer/common/deliver/deliver.go:81-122 | Each refused request is answered by exactly one status (BAD_REQUEST, NOT_FOUND or FORBIDDEN as its case says) and no block |
| DeliverProperties.StopBeforeStartRefused | orderer/common/deliver/deliver.go:133-138 | A specified stop below the cursor's start number is answered by one BAD_REQUEST before any block |
| DeliverProperties.Halt | orderer/common/deliver/deliver.go:152-167 | Where the loop stops pulling: every pull before it succeeded with a number other than the stop number, and the pull at it failed or is the stop block |
| DeliverProperties.DeliverRangeShape | orderer/common/deliver/deliver.go:141-168 | The loop sends every pull before the halting one as a block, in cursor order, then closes: it waits, sends NOT_FOUND, forwards the ledger status, or sends the stop block and SUCCESS |
| DeliverProperties.RangeCompletes | orderer/common/deliver/deliver.go:165-173 | A range completes iff the loop reaches a successful pull of the stop block. Its reply is then the blocks up to and including the stop block, then SUCCESS |
| DeliverProperties.NotReady | orderer/common/deliver/deliver.go:142-149 | A cursor that runs dry before the stop block: FAIL_IF_NOT_READY sends the blocks so far, then NOT_FOUND, and ends the session. BLOCK_UNTIL_READY waits after the blocks |
| DeliverProperties.LedgerErrorForwarded | orderer/common/deliver/deliver.go:152-156 | A failed pull's status is sent verbatim as the one terminal status after the blocks before it |
| DeliverProperties.RangeReplyShape | orderer/common/deliver/deliver.go:141-173 | Every reply of the loop is a run of blocks and, unless it waits, exactly one final status. That status is SUCCESS iff the range completed, and a completed range holds at least one block |
| DeliverProperties.ReplyShape | orderer/common/deliver/deliver.go:81-173 | The same shape holds for every reply to a request, refusals included |
| DeliverProperties.RangeInOrder | orderer/common/deliver/deliver.go:152-163 | When every successful pull carries `first` + its position, so does every block the loop sends |
| DeliverProperties.DeliveredInOrder | orderer/common/deliver/deliver.go:126-168 | On a consecutively numbered ledger the blocks of a reply carry consecutive numbers from the cursor's start number |
| DeliverProperties.SingleBlockRange | orderer/common/deliver/deliver.go:126-173 | Start = stop = a committed block: exactly that block, then SUCCESS, and the session receives again |
| DeliverProperties.WholeLedger | orderer/common/deliver/deliver.go:126-173 | Oldest to Newest on a non-empty, consecutively numbered ledger: every block in order, then SUCCESS |
| DeliverProperties.StopBehindStartNeverCompletes | orderer/common/deliver/deliver.go:127-139 | A stop that resolves below the start number without being refused never completes the range on a consecutively numbered ledger |
| DeliverProperties.StoppedRequestEndsSession | orderer/common/deliver/deliver.go:81-162 | A request that stops without completing (a refusal, a FAIL_IF_NOT_READY miss, or a failed pull) ends the session whatever follows, and no later message is read. The call returns nil when the whole reply went out and the send error otherwise. A BLOCK_UNTIL_READY request that waits for a block is not covered: it ends in `AwaitingBlock` |
| DeliverProperties.RefusalEndsSession | orderer/common/deliver/deliver.go:81-122 | A refused request sends its one status and returns nil, or sends nothing and returns the send error, and reads no later message |
| DeliverProperties.CompletedRangeReceivesAgain | orderer/common/deliver/deliver.go:170-176 | After a completed and acknowledged range, the session goes on with the next message on the same stream |
| DeliverProperties.SendFailureReturnsError | orderer/common/deliver/deliver.go:160-173 | When a block send or the SUCCESS send fails, the call returns that error after the responses that fit, and no later message is read |
| DeliverProperties.LimitedLinkPrefix | orderer/common/deliver/deliver.go:160-173 | A connection that fails part way delivers a prefix of what a reliable one delivers for the same messages and reads no more of them. It ends the same way unless it ends with the send error |

## Left out

- gRPC stream mechanics and protobuf decoding (`UnmarshalPayload`, `UnmarshalChannelHeader`, `proto.Unmarshal`) are reduced to decode outcomes. The decoders are foreign code.
- The signature filter and policy evaluation (`sigfilter`, `policies.Manager`) are reduced to one boolean per envelope. They are a library outside this file.
- Ledger storage is modelled by `LedgerModel.Iterator` and `LedgerModel.Height` (`Reader.Iterator` and `Reader.Height()`, lines 126 and 132), a reference reader over a finite snapshot, because the reader is an interface. `Reader.Iterator` with an unservable or untyped start is modelled as an always-ready cursor that reports NOT_FOUND with start number 0.
- The ledger's own concurrency is not modelled: `ReadyChan` is "the snapshot holds another pull".
- Deliver.Handle: the blocking waits on `Recv` and on `ReadyChan` under BLOCK_UNTIL_READY are not modelled as waits. A finite script ends in `AwaitingRequest` or `AwaitingBlock` there instead. Liveness and concurrency are out of scope.
- Transport.Stream.Send: transport failure is modelled as a capacity after which every send fails with one fixed error. A transport that fails once and then recovers is not modelled. `Handle` returns on the first failed send anyway.
- Logging is not modelled. It is a side effect only.
- `NewHandlerImpl` and the `Handler`, `Support` and `SupportManager` interface declarations are not modelled. They are construction and wiring; a channel's support is reduced to its ledger reader.
- `SeekInfo.Behavior` values other than the two named ones are not modelled. The source treats any value other than BLOCK_UNTIL_READY like FAIL_IF_NOT_READY.
- A cursor that reports SUCCESS with a nil block is not modelled: every pull carries a block. The source would dereference nil there.
- The context and cancellation of the underlying gRPC stream are not modelled. They are outside this file.
