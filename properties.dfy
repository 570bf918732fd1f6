/**
 * What the deliver handler promises, stated over the session specification:
 * how receiving ends a session, the order of the request checks, the
 * requests refused with one status, the shape of a delivered range, and how
 * a session goes on or returns after each request.
 */
module DeliverProperties {
  import opened Wire
  import opened LedgerModel
  import opened Transport
  import opened Deliver

  // ---------------------------------------------------------------------------
  // Receiving
  // ---------------------------------------------------------------------------

  /**
   * End of stream returns nil and any other receive error returns that error,
   * both with nothing sent and no further message read.
   */
  lemma ReceiveFailureEndsSession(sm: SupportManager, inbox: seq<Inbound>, link: Link)
    requires |inbox| > 0 && !inbox[0].Message?
    ensures inbox[0].Eof? ==> Session(sm, inbox, link) == Outcome([], 1, Returned(None))
    ensures inbox[0].RecvError? ==> Session(sm, inbox, link) == Outcome([], 1, Returned(Some(inbox[0].err)))
  {
  }

  // ---------------------------------------------------------------------------
  // The request checks
  // ---------------------------------------------------------------------------

  /** The payload, its header and the channel header all decoded. */
  predicate HeaderDecodes(env: Envelope) {
    && env.payload.Some?
    && env.payload.value.header.Some?
    && env.payload.value.header.value.channelHeader.Some?
  }

  /** The channel the request names. */
  function ChannelId(env: Envelope): string
    requires HeaderDecodes(env)
  {
    env.payload.value.header.value.channelHeader.value.channelId
  }

  /** The seek info decoded and carries both a start and a stop position. */
  predicate SeekInfoComplete(env: Envelope)
    requires env.payload.Some?
  {
    var si := env.payload.value.seekInfo;
    si.Some? && si.value.start.Some? && si.value.stop.Some?
  }

  /**
   * The checks run in a fixed order, so each outcome is decided by the
   * earlier checks alone: an unknown channel is NOT_FOUND and an unauthorized
   * request FORBIDDEN whatever its seek info holds, and a malformed seek info
   * is only noticed for a known channel and an authorized request.
   */
  lemma ValidationOrder(sm: SupportManager, env: Envelope)
    ensures Validate(sm, env) == Reject(BAD_REQUEST) <==>
              !HeaderDecodes(env) || (ChannelId(env) in sm && env.forward && !SeekInfoComplete(env))
    ensures Validate(sm, env) == Reject(NOT_FOUND) <==> HeaderDecodes(env) && ChannelId(env) !in sm
    ensures Validate(sm, env) == Reject(FORBIDDEN) <==> HeaderDecodes(env) && ChannelId(env) in sm && !env.forward
    ensures Validate(sm, env).Pass? <==>
              HeaderDecodes(env) && ChannelId(env) in sm && env.forward && SeekInfoComplete(env)
    ensures Validate(sm, env).Pass? ==>
              var si := env.payload.value.seekInfo.value;
              Validate(sm, env).value == SeekRequest(sm[ChannelId(env)], si.start.value, si.stop.value, si.behavior)
  {
  }

  /** Each refused request is answered by exactly one status and no block. */
  lemma RefusedRequests(sm: SupportManager, env: Envelope)
    ensures !HeaderDecodes(env) ==> Serve(sm, env) == Reply([StatusReply(BAD_REQUEST)], Stop)
    ensures HeaderDecodes(env) && ChannelId(env) !in sm ==> Serve(sm, env) == Reply([StatusReply(NOT_FOUND)], Stop)
    ensures HeaderDecodes(env) && ChannelId(env) in sm && !env.forward ==>
              Serve(sm, env) == Reply([StatusReply(FORBIDDEN)], Stop)
    ensures HeaderDecodes(env) && ChannelId(env) in sm && env.forward && !SeekInfoComplete(env) ==>
              Serve(sm, env) == Reply([StatusReply(BAD_REQUEST)], Stop)
  {
    ValidationOrder(sm, env);
  }

  /** A stop position specified below the cursor's start number is refused before any block is read. */
  lemma StopBeforeStartRefused(sm: SupportManager, env: Envelope)
    requires Validate(sm, env).Pass?
    requires var req := Validate(sm, env).value;
      req.stop.Specified? && req.stop.number < Iterator(req.chain.reader, req.start).number
    ensures Serve(sm, env) == Reply([StatusReply(BAD_REQUEST)], Stop)
  {
  }

  // ---------------------------------------------------------------------------
  // The delivery loop
  // ---------------------------------------------------------------------------

  /**
   * Where the delivery loop stops pulling: the first pull that failed or
   * carries the stop block, or `|pulls|` when no pull does.
   */
  function Halt(pulls: seq<Pull>, stopNum: u64): (k: nat)
    ensures k <= |pulls|
    ensures forall i :: 0 <= i < k ==> pulls[i].status == SUCCESS && pulls[i].block.number != stopNum
    ensures k < |pulls| ==> pulls[k].status != SUCCESS || pulls[k].block.number == stopNum
    decreases |pulls|
  {
    if |pulls| == 0 || pulls[0].status != SUCCESS || pulls[0].block.number == stopNum then 0
    else 1 + Halt(pulls[1..], stopNum)
  }

  /** The Block responses for the pulls `ps`, in order. */
  function Blocks(ps: seq<Pull>): seq<Response> {
    seq(|ps|, i requires 0 <= i < |ps| => BlockReply(ps[i].block))
  }

  /**
   * How the loop ends at pull `k`: with no pull left it waits
   * (BLOCK_UNTIL_READY) or answers NOT_FOUND (FAIL_IF_NOT_READY); a failed
   * pull's status is sent as it is; the stop block is sent, then SUCCESS.
   */
  function Closing(pulls: seq<Pull>, k: nat, behavior: Behavior): Reply
    requires k <= |pulls|
  {
    if k == |pulls| then
      if behavior == BlockUntilReady then Reply([], AwaitBlock) else Reply([StatusReply(NOT_FOUND)], Stop)
    else if pulls[k].status != SUCCESS then Reply([StatusReply(pulls[k].status)], Stop)
    else Reply([BlockReply(pulls[k].block), StatusReply(SUCCESS)], Continue)
  }

  /**
   * The delivery loop sends every pull before the halting one as a block, in
   * cursor order, and then closes the range at the halting pull.
   */
  lemma {:induction false} DeliverRangeShape(pulls: seq<Pull>, stopNum: u64, behavior: Behavior)
    ensures var k := Halt(pulls, stopNum);
      DeliverRange(pulls, stopNum, behavior) == Prepend(Blocks(pulls[..k]), Closing(pulls, k, behavior))
  {
    var k := Halt(pulls, stopNum);
    if k == 0 {
      assert Blocks(pulls[..k]) == [];
    } else {
      DeliverRangeShape(pulls[1..], stopNum, behavior);
      assert Halt(pulls[1..], stopNum) == k - 1;
      assert Blocks(pulls[..k]) == [BlockReply(pulls[0].block)] + Blocks(pulls[1..][..k - 1]);
    }
  }

  /**
   * The range completes exactly when the loop reaches a successful pull of
   * the stop block: every block before it has another number, and the reply
   * is those blocks, the stop block and SUCCESS.
   */
  lemma RangeCompletes(pulls: seq<Pull>, stopNum: u64, behavior: Behavior)
    ensures var r, k := DeliverRange(pulls, stopNum, behavior), Halt(pulls, stopNum);
      && (r.next == Continue <==> k < |pulls| && pulls[k].status == SUCCESS)
      && (r.next == Continue ==>
            pulls[k].block.number == stopNum && r.responses == Blocks(pulls[..k + 1]) + [StatusReply(SUCCESS)])
  {
    var k := Halt(pulls, stopNum);
    DeliverRangeShape(pulls, stopNum, behavior);
    if k < |pulls| && pulls[k].status == SUCCESS {
      assert Blocks(pulls[..k + 1]) == Blocks(pulls[..k]) + [BlockReply(pulls[k].block)];
    }
  }

  /**
   * A FAIL_IF_NOT_READY request whose cursor runs out before the stop block
   * answers NOT_FOUND after the blocks it had, and the session returns; a
   * BLOCK_UNTIL_READY request waits instead.
   */
  lemma NotReady(pulls: seq<Pull>, stopNum: u64)
    requires Halt(pulls, stopNum) == |pulls|
    ensures DeliverRange(pulls, stopNum, FailIfNotReady) == Reply(Blocks(pulls) + [StatusReply(NOT_FOUND)], Stop)
    ensures DeliverRange(pulls, stopNum, BlockUntilReady) == Reply(Blocks(pulls), AwaitBlock)
  {
    DeliverRangeShape(pulls, stopNum, FailIfNotReady);
    DeliverRangeShape(pulls, stopNum, BlockUntilReady);
    assert pulls[..|pulls|] == pulls;
  }

  /** A failed pull's status is sent as it is, as the one status after the blocks before it. */
  lemma LedgerErrorForwarded(pulls: seq<Pull>, stopNum: u64, behavior: Behavior)
    requires Halt(pulls, stopNum) < |pulls| && pulls[Halt(pulls, stopNum)].status != SUCCESS
    ensures var k := Halt(pulls, stopNum);
      DeliverRange(pulls, stopNum, behavior) == Reply(Blocks(pulls[..k]) + [StatusReply(pulls[k].status)], Stop)
  {
    DeliverRangeShape(pulls, stopNum, behavior);
  }

  /**
   * A run of blocks followed, unless the request waits for a block, by
   * exactly one status: SUCCESS when the range completed (after at least one
   * block), another status when the session returns.
   */
  ghost predicate WellFormed(r: Reply) {
    var n := |r.responses|;
    && (r.next == AwaitBlock ==> forall i :: 0 <= i < n ==> r.responses[i].BlockReply?)
    && (r.next != AwaitBlock ==>
          && n > 0 && r.responses[n - 1].StatusReply?
          && (forall i :: 0 <= i < n - 1 ==> r.responses[i].BlockReply?)
          && (r.responses[n - 1].status == SUCCESS <==> r.next == Continue))
    && (r.next == Continue ==> n >= 2)
  }

  /** Blocks sent before a well-formed reply keep it well formed. */
  lemma PrependBlocks(bs: seq<Response>, r: Reply)
    requires forall i :: 0 <= i < |bs| ==> bs[i].BlockReply?
    requires WellFormed(r)
    ensures WellFormed(Prepend(bs, r))
  {
    var all := Prepend(bs, r).responses;
    assert forall i :: 0 <= i < |bs| ==> all[i] == bs[i];
    assert forall i :: |bs| <= i < |all| ==> all[i] == r.responses[i - |bs|];
  }

  /** Every reply of the delivery loop is well formed. */
  lemma RangeReplyShape(pulls: seq<Pull>, stopNum: u64, behavior: Behavior)
    ensures WellFormed(DeliverRange(pulls, stopNum, behavior))
  {
    var k := Halt(pulls, stopNum);
    DeliverRangeShape(pulls, stopNum, behavior);
    assert WellFormed(Closing(pulls, k, behavior));
    PrependBlocks(Blocks(pulls[..k]), Closing(pulls, k, behavior));
  }

  /** Every reply to a request is well formed. */
  lemma ReplyShape(sm: SupportManager, env: Envelope)
    ensures WellFormed(Serve(sm, env))
  {
    match Validate(sm, env)
    case Reject(s) =>
    case Pass(req) =>
      var it := Iterator(req.chain.reader, req.start);
      match ResolveStop(req.stop, it.number, Height(req.chain.reader))
      case Reject(s) =>
      case Pass(stopNum) =>
        RangeReplyShape(it.pulls, stopNum, req.behavior);
  }

  /**
   * When every successful pull carries the number `first` plus its position,
   * so does every block the delivery loop sends.
   */
  lemma RangeInOrder(pulls: seq<Pull>, stopNum: u64, behavior: Behavior, first: int)
    requires forall i :: 0 <= i < |pulls| && pulls[i].status == SUCCESS ==> pulls[i].block.number == first + i
    ensures var r := DeliverRange(pulls, stopNum, behavior);
      forall i :: 0 <= i < |r.responses| && r.responses[i].BlockReply? ==> r.responses[i].block.number == first + i
  {
    var k := Halt(pulls, stopNum);
    DeliverRangeShape(pulls, stopNum, behavior);
    var r, c := DeliverRange(pulls, stopNum, behavior), Closing(pulls, k, behavior);
    forall i | 0 <= i < |r.responses| && r.responses[i].BlockReply?
      ensures r.responses[i].block.number == first + i
    {
      if i < k {
        assert r.responses[i] == BlockReply(pulls[i].block);
      } else {
        assert r.responses[i] == c.responses[i - k];
      }
    }
  }

  /**
   * On a ledger that numbers its blocks consecutively, the blocks of a reply
   * carry consecutive numbers from the start number the cursor reported.
   */
  lemma DeliveredInOrder(sm: SupportManager, env: Envelope)
    requires Validate(sm, env).Pass? && Numbered(Validate(sm, env).value.chain.reader)
    ensures var req, r := Validate(sm, env).value, Serve(sm, env);
      var first := Iterator(req.chain.reader, req.start).number;
      forall i :: 0 <= i < |r.responses| && r.responses[i].BlockReply? ==> r.responses[i].block.number == first + i
  {
    var req := Validate(sm, env).value;
    var it := Iterator(req.chain.reader, req.start);
    match ResolveStop(req.stop, it.number, Height(req.chain.reader))
    case Reject(s) =>
    case Pass(stopNum) =>
      assert Serve(sm, env) == DeliverRange(it.pulls, stopNum, req.behavior);
      RangeInOrder(it.pulls, stopNum, req.behavior, it.number);
  }

  /** A range whose start and stop are the same committed block delivers that block alone, then SUCCESS. */
  lemma SingleBlockRange(sm: SupportManager, env: Envelope, n: u64)
    requires Validate(sm, env).Pass?
    requires var req := Validate(sm, env).value;
      && req.start == Specified(n) && req.stop == Specified(n)
      && Numbered(req.chain.reader) && req.chain.reader.low <= n < Height(req.chain.reader)
    ensures var l := Validate(sm, env).value.chain.reader;
      Serve(sm, env) == Reply([BlockReply(l.blocks[n - l.low]), StatusReply(SUCCESS)], Continue)
  {
    var l := Validate(sm, env).value.chain.reader;
    assert l.blocks[n - l.low].number == n;
  }

  /**
   * From the oldest to the newest block of a non-empty ledger that numbers
   * its blocks consecutively: every block, in order, then SUCCESS.
   */
  lemma WholeLedger(sm: SupportManager, env: Envelope)
    requires Validate(sm, env).Pass?
    requires var req := Validate(sm, env).value;
      req.start == Oldest && req.stop == Newest && Numbered(req.chain.reader) && |req.chain.reader.blocks| > 0
    ensures var l := Validate(sm, env).value.chain.reader;
      Serve(sm, env) == Reply(Blocks(Committed(l.blocks)) + [StatusReply(SUCCESS)], Continue)
  {
    var req := Validate(sm, env).value;
    var l := req.chain.reader;
    var pulls := Committed(l.blocks);
    var stopNum: u64 := Height(l) - 1;
    var last := |l.blocks| - 1;
    assert pulls[last].block.number == stopNum;
    assert Halt(pulls, stopNum) == last;
    RangeCompletes(pulls, stopNum, req.behavior);
    assert pulls[..last + 1] == pulls;
  }

  /**
   * A stop number below the start number is refused only when the stop is
   * specified. Any other stop that resolves below the start (`Newest` with
   * the start at the next block to come, or a stop position with no type)
   * lets the request through, and on a ledger that numbers its blocks
   * consecutively such a range never completes.
   */
  lemma StopBehindStartNeverCompletes(sm: SupportManager, env: Envelope)
    requires Validate(sm, env).Pass? && Numbered(Validate(sm, env).value.chain.reader)
    requires var req := Validate(sm, env).value;
      var it := Iterator(req.chain.reader, req.start);
      var stop := ResolveStop(req.stop, it.number, Height(req.chain.reader));
      stop.Pass? && stop.value < it.number
    ensures Serve(sm, env).next != Continue
  {
    var req := Validate(sm, env).value;
    var it := Iterator(req.chain.reader, req.start);
    var stopNum := ResolveStop(req.stop, it.number, Height(req.chain.reader)).value;
    RangeCompletes(it.pulls, stopNum, req.behavior);
  }

  // ---------------------------------------------------------------------------
  // The session
  // ---------------------------------------------------------------------------

  /**
   * A request that stops without completing (a refusal, a FAIL_IF_NOT_READY
   * miss, or a failed pull) ends the session: `Handle` returns nil once the
   * whole reply went out, the send's error otherwise, and reads no later
   * message. A request that waits for a block is not of this kind.
   */
  lemma StoppedRequestEndsSession(sm: SupportManager, env: Envelope, later: seq<Inbound>, link: Link)
    requires Serve(sm, env).next == Stop
    ensures var r := Serve(sm, env);
      Session(sm, [Message(env)] + later, link)
        == Outcome(Sent(r, link), 1, Returned(if Fits(link, |r.responses|) then None else Some(link.fault)))
  {
    assert ([Message(env)] + later)[0] == Message(env);
  }

  /**
   * A refused request: its one status goes out, or the send fails with
   * nothing sent, and the session returns without reading another message.
   */
  lemma RefusalEndsSession(sm: SupportManager, env: Envelope, later: seq<Inbound>, link: Link)
    requires Validate(sm, env).Reject?
    ensures var s := Validate(sm, env).status;
      Session(sm, [Message(env)] + later, link)
        == if Fits(link, 1) then Outcome([StatusReply(s)], 1, Returned(None)) else Outcome([], 1, Returned(Some(link.fault)))
  {
    StoppedRequestEndsSession(sm, env, later, link);
  }

  /** After a completed and acknowledged range the session receives the next request on the same stream. */
  lemma CompletedRangeReceivesAgain(sm: SupportManager, env: Envelope, later: seq<Inbound>, link: Link)
    requires Serve(sm, env).next == Continue && Fits(link, |Serve(sm, env).responses|)
    ensures var r := Serve(sm, env);
      Session(sm, [Message(env)] + later, link) == After(r.responses, 1, Session(sm, later, Consume(link, |r.responses|)))
  {
    assert ([Message(env)] + later)[0] == Message(env);
    assert ([Message(env)] + later)[1..] == later;
  }

  /** A failed send of a block or of a status returns that error; what was sent before it went out. */
  lemma SendFailureReturnsError(sm: SupportManager, env: Envelope, later: seq<Inbound>, link: Link)
    requires !Fits(link, |Serve(sm, env).responses|)
    ensures link.capacity.Some?
    ensures var r := Serve(sm, env);
      Session(sm, [Message(env)] + later, link) == Outcome(r.responses[..Room(link)], 1, Returned(Some(link.fault)))
  {
    assert ([Message(env)] + later)[0] == Message(env);
  }

  /**
   * A connection that fails part way delivers a prefix of what a reliable one
   * delivers for the same messages, reads no more of them, and ends the same
   * way unless it ends with the send error.
   */
  lemma {:induction false} LimitedLinkPrefix(sm: SupportManager, inbox: seq<Inbound>, link: Link)
    ensures var got, full := Session(sm, inbox, link), Session(sm, inbox, link.(capacity := None));
      && got.sent <= full.sent && got.consumed <= full.consumed
      && (got.exit != full.exit ==> got.exit == Returned(Some(link.fault)))
    decreases |inbox|
  {
    if |inbox| > 0 && inbox[0].Message? {
      var reply := Serve(sm, inbox[0].env);
      var reliable := link.(capacity := None);
      var n := |reply.responses|;
      if Fits(link, n) && reply.next == Continue {
        LimitedLinkPrefix(sm, inbox[1..], Consume(link, n));
        assert Consume(link, n).(capacity := None) == Consume(reliable, n);
      }
    }
  }
}
