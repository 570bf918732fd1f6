/**
 * The deliver handler (`deliverServer.Handle`): the specification of one
 * session as functions (`Validate`, `ResolveStop`, `DeliverRange`, `Serve`,
 * `Session`), and the handler itself as a method over a stream that is proved
 * to send exactly what `Session` says and to end the way it says.
 */
module Deliver {
  import opened Wire
  import opened LedgerModel
  import opened Transport

  /** What a channel's Support gives the handler; its policy manager is reduced to `Envelope.forward`. */
  datatype Support = Support(reader: Ledger)

  /** `SupportManager.GetChain`: the channels this node serves, by channel id. */
  type SupportManager = map<string, Support>

  /** The outcome of a check: go on with a value, or answer with a terminal status. */
  datatype Check<T> = Pass(value: T) | Reject(status: Status)

  /** A request that passed every check: the channel it names and its seek range. */
  datatype SeekRequest = SeekRequest(chain: Support, start: SeekPosition, stop: SeekPosition, behavior: Behavior)

  /**
   * The checks of one envelope, in the order the handler runs them: payload
   * decode, header present, channel header decode, channel lookup,
   * authorization, seekInfo decode, start and stop present.
   */
  function Validate(sm: SupportManager, env: Envelope): (r: Check<SeekRequest>)
    ensures r.Reject? ==> r.status == BAD_REQUEST || r.status == NOT_FOUND || r.status == FORBIDDEN
    ensures r.Pass? ==> env.forward && r.value.chain in sm.Values
  {
    match env.payload
    case None => Reject(BAD_REQUEST)
    case Some(payload) =>
      match payload.header
      case None => Reject(BAD_REQUEST)
      case Some(header) =>
        match header.channelHeader
        case None => Reject(BAD_REQUEST)
        case Some(chdr) =>
          if chdr.channelId !in sm then Reject(NOT_FOUND)
          else if !env.forward then Reject(FORBIDDEN)
          else
            match payload.seekInfo
            case None => Reject(BAD_REQUEST)
            case Some(seekInfo) =>
              if seekInfo.start.None? || seekInfo.stop.None? then Reject(BAD_REQUEST)
              else Pass(SeekRequest(sm[chdr.channelId], seekInfo.start.value, seekInfo.stop.value, seekInfo.behavior))
  }

  /**
   * The stop number of a range whose cursor reported start number `number`,
   * on a ledger of height `height`. `Newest` is `height - 1` in `uint64`
   * arithmetic; a position with no type leaves the stop number at its zero
   * value.
   */
  function ResolveStop(stop: SeekPosition, number: u64, height: u64): (r: Check<u64>)
    ensures r.Reject? <==> stop.Specified? && stop.number < number
    ensures r.Reject? ==> r.status == BAD_REQUEST
    ensures stop.Specified? && r.Pass? ==> number <= r.value == stop.number
    ensures stop.Oldest? ==> r == Pass(number)
    ensures stop.Newest? ==> r.Pass? && (r.value + 1) % 0x1_0000_0000_0000_0000 == height
    ensures stop.Unset? ==> r == Pass(0)
  {
    match stop
    case Oldest => Pass(number)
    case Newest => Pass(if height == 0 then MAX_U64 else height - 1)
    case Specified(n) => if n < number then Reject(BAD_REQUEST) else Pass(n)
    case Unset => Pass(0)
  }

  /** How a request ends: back to receiving, the session returns, or the session waits for a block. */
  datatype Next = Continue | Stop | AwaitBlock

  /** The responses one request produces, in order, and how it ends. */
  datatype Reply = Reply(responses: seq<Response>, next: Next)

  /**
   * The delivery loop over the pulls a cursor yields: each successful pull is
   * sent as a block, the block numbered `stopNum` completes the range with
   * SUCCESS, a failed pull's status is sent as it is, and running out of
   * ready pulls waits (BLOCK_UNTIL_READY) or answers NOT_FOUND
   * (FAIL_IF_NOT_READY).
   */
  function DeliverRange(pulls: seq<Pull>, stopNum: u64, behavior: Behavior): (r: Reply)
    ensures |r.responses| <= |pulls| + 1
    ensures r.next == AwaitBlock ==> behavior == BlockUntilReady
    ensures r.next != AwaitBlock ==> |r.responses| > 0
    decreases |pulls|
  {
    if |pulls| == 0 then
      if behavior == BlockUntilReady then Reply([], AwaitBlock) else Reply([StatusReply(NOT_FOUND)], Stop)
    else if pulls[0].status != SUCCESS then Reply([StatusReply(pulls[0].status)], Stop)
    else if pulls[0].block.number == stopNum then Reply([BlockReply(pulls[0].block), StatusReply(SUCCESS)], Continue)
    else
      var rest := DeliverRange(pulls[1..], stopNum, behavior);
      Reply([BlockReply(pulls[0].block)] + rest.responses, rest.next)
  }

  /** `r` with the responses `rs` sent before its own. */
  function Prepend(rs: seq<Response>, r: Reply): Reply {
    Reply(rs + r.responses, r.next)
  }

  /**
   * A delivered block is followed by the rest of the range, or, when it is
   * the stop block, by SUCCESS alone.
   */
  lemma DeliverRangeStep(reply: Reply, sent: seq<Response>, pulls: seq<Pull>, stopNum: u64, behavior: Behavior)
    requires |pulls| > 0 && pulls[0].status == SUCCESS
    requires reply == Prepend(sent, DeliverRange(pulls, stopNum, behavior))
    ensures pulls[0].block.number != stopNum ==>
      reply == Prepend(sent + [BlockReply(pulls[0].block)], DeliverRange(pulls[1..], stopNum, behavior))
    ensures pulls[0].block.number == stopNum ==>
      reply == Prepend(sent + [BlockReply(pulls[0].block)], Reply([StatusReply(SUCCESS)], Continue))
  {
    var rest := DeliverRange(pulls[1..], stopNum, behavior);
    assert sent + ([BlockReply(pulls[0].block)] + rest.responses) == (sent + [BlockReply(pulls[0].block)]) + rest.responses;
  }

  /** Sending a reply after the responses `rs` is sending `rs` and then the reply on what is left of the link. */
  lemma SendPrepended(before: seq<Response>, rs: seq<Response>, r: Reply, link: Link)
    requires Fits(link, |rs|)
    ensures before + rs + Sent(r, Consume(link, |rs|)) == before + Sent(Prepend(rs, r), link)
    ensures Ending(Prepend(rs, r), link) == Ending(r, Consume(link, |rs|))
  {
    if !Fits(link, |rs| + |r.responses|) {
      assert Sent(Prepend(rs, r), link) == rs + Sent(r, Consume(link, |rs|));
    }
  }

  /**
   * One request, from the envelope to the terminal status. Every request is
   * answered unless it passed the checks and waits for a block.
   */
  function Serve(sm: SupportManager, env: Envelope): (r: Reply)
    ensures r.next != AwaitBlock ==> |r.responses| > 0
    ensures r.next == AwaitBlock ==> Validate(sm, env).Pass? && Validate(sm, env).value.behavior == BlockUntilReady
  {
    match Validate(sm, env)
    case Reject(s) => Reply([StatusReply(s)], Stop)
    case Pass(req) =>
      var it := Iterator(req.chain.reader, req.start);
      match ResolveStop(req.stop, it.number, Height(req.chain.reader))
      case Reject(s) => Reply([StatusReply(s)], Stop)
      case Pass(stopNum) => DeliverRange(it.pulls, stopNum, req.behavior)
  }

  /**
   * How a `Handle` call ends: it returned (nil or an error), or the script ran
   * out where the handler waits for the client's next message or for the
   * ledger's next block.
   */
  datatype Exit = Returned(err: Option<StreamError>) | AwaitingRequest | AwaitingBlock

  /** The part of `reply` that `link` carries: all of it, or as much as fits before the failing send. */
  function Sent(reply: Reply, link: Link): (s: seq<Response>)
    ensures |s| <= |reply.responses| && s == reply.responses[..|s|]
    ensures Fits(link, |reply.responses|) <==> s == reply.responses
  {
    if Fits(link, |reply.responses|) then reply.responses else reply.responses[..Room(link)]
  }

  /**
   * How the handler goes on after sending `reply` over `link`: `None` when the
   * range completed and was acknowledged, so it receives again; otherwise how
   * the call ends. A failed send ends it with that send's error.
   */
  function Ending(reply: Reply, link: Link): (e: Option<Exit>)
    ensures e.None? <==> Fits(link, |reply.responses|) && reply.next == Continue
    ensures !Fits(link, |reply.responses|) ==> e == Some(Returned(Some(link.fault)))
  {
    if !Fits(link, |reply.responses|) then Some(Returned(Some(link.fault)))
    else
      match reply.next
      case Stop => Some(Returned(None))
      case AwaitBlock => Some(AwaitingBlock)
      case Continue => None
  }

  /** What a session sends, in order, how many messages it receives, and how it ends. */
  datatype Outcome = Outcome(sent: seq<Response>, consumed: nat, exit: Exit)

  /** The outcome `o` after the responses `rs` were sent and `n` messages received. */
  function After(rs: seq<Response>, n: nat, o: Outcome): Outcome {
    Outcome(rs + o.sent, n + o.consumed, o.exit)
  }

  lemma AfterAfter(a: seq<Response>, m: nat, b: seq<Response>, n: nat, o: Outcome)
    ensures After(a, m, After(b, n, o)) == After(a + b, m + n, o)
  {
    assert a + (b + o.sent) == (a + b) + o.sent;
  }

  /**
   * A whole session over the messages `inbox` and the sending side `link`:
   * each envelope is served in turn until one of them, or the stream, ends it.
   */
  function Session(sm: SupportManager, inbox: seq<Inbound>, link: Link): (o: Outcome)
    ensures o.consumed <= |inbox|
    ensures o.exit == AwaitingRequest ==> o.consumed == |inbox|
    decreases |inbox|, 1
  {
    if |inbox| == 0 then Outcome([], 0, AwaitingRequest)
    else
      match inbox[0]
      case Eof => Outcome([], 1, Returned(None))
      case RecvError(e) => Outcome([], 1, Returned(Some(e)))
      case Message(env) => SessionTurn(sm, env, inbox[1..], link)
  }

  /**
   * The session from a received envelope on: serve it, and go on with the
   * messages `later` only if the range completed and was acknowledged.
   */
  function SessionTurn(sm: SupportManager, env: Envelope, later: seq<Inbound>, link: Link): (o: Outcome)
    ensures 1 <= o.consumed <= |later| + 1
    ensures o.exit == AwaitingRequest ==> o.consumed == |later| + 1
    decreases |later| + 1, 0
  {
    var reply := Serve(sm, env);
    match Ending(reply, link)
    case Some(exit) => Outcome(Sent(reply, link), 1, exit)
    case None => After(reply.responses, 1, Session(sm, later, Consume(link, |reply.responses|)))
  }

  /** A session whose next message is an envelope serves it, then goes on only if the range completed. */
  lemma SessionOnMessage(sm: SupportManager, inbox: seq<Inbound>, link: Link)
    requires |inbox| > 0 && inbox[0].Message?
    ensures var reply := Serve(sm, inbox[0].env);
      match Ending(reply, link)
      case Some(exit) => Session(sm, inbox, link) == Outcome(Sent(reply, link), 1, exit)
      case None => Session(sm, inbox, link) == After(reply.responses, 1, Session(sm, inbox[1..], Consume(link, |reply.responses|)))
  {
  }

  /** `sendStatusReply`: sends one Status response and returns the send's error. */
  method SendStatusReply(srv: Stream, status: Status) returns (err: Option<StreamError>)
    requires srv.Valid()
    modifies srv`outbox
    ensures srv.Valid()
    ensures err.None? <==> Fits(old(srv.CurrentLink()), 1)
    ensures err.Some? ==> err.value == srv.fault
    ensures srv.outbox == if err.None? then old(srv.outbox) + [StatusReply(status)] else old(srv.outbox)
    ensures err.None? ==> srv.CurrentLink() == Consume(old(srv.CurrentLink()), 1)
  {
    err := srv.Send(StatusReply(status));
  }

  /** `sendBlockReply`: sends one Block response and returns the send's error. */
  method SendBlockReply(srv: Stream, block: Block) returns (err: Option<StreamError>)
    requires srv.Valid()
    modifies srv`outbox
    ensures srv.Valid()
    ensures err.None? <==> Fits(old(srv.CurrentLink()), 1)
    ensures err.Some? ==> err.value == srv.fault
    ensures srv.outbox == if err.None? then old(srv.outbox) + [BlockReply(block)] else old(srv.outbox)
    ensures err.None? ==> srv.CurrentLink() == Consume(old(srv.CurrentLink()), 1)
  {
    err := srv.Send(BlockReply(block));
  }

  /**
   * A request answered by one terminal status (`return sendStatusReply(srv, status)`):
   * the call ends with the send's error, or with nil once the status went out.
   */
  method Refuse(srv: Stream, status: Status) returns (exit: Option<Exit>)
    requires srv.Valid()
    modifies srv`outbox
    ensures srv.Valid()
    ensures var reply := Reply([StatusReply(status)], Stop);
      srv.outbox == old(srv.outbox) + Sent(reply, old(srv.CurrentLink())) && exit == Ending(reply, old(srv.CurrentLink()))
  {
    var err := SendStatusReply(srv, status);
    exit := Some(Returned(err));
  }

  /** One pass of the delivery loop: a block was sent, or the call ends as `exit` says (`None`: never). */
  datatype Turn = Delivered(block: Block) | Over(exit: Option<Exit>)

  /**
   * One pass of `Handle`'s delivery loop: waits for (BLOCK_UNTIL_READY) or
   * tests (FAIL_IF_NOT_READY) the cursor's readiness, pulls, and sends the
   * block, or sends the status that ends the request.
   */
  method DeliverNext(srv: Stream, cursor: Cursor, stopNum: u64, behavior: Behavior) returns (turn: Turn)
    requires srv.Valid() && cursor.pos <= |cursor.pulls|
    modifies srv`outbox, cursor`pos
    ensures srv.Valid() && cursor.pos <= |cursor.pulls|
    ensures var tail, link := DeliverRange(old(cursor.Rest()), stopNum, behavior), old(srv.CurrentLink());
      turn.Over? ==> srv.outbox == old(srv.outbox) + Sent(tail, link) && turn.exit == Ending(tail, link)
    ensures turn.Delivered? ==>
      && old(cursor.Ready()) && turn.block == old(cursor.Rest())[0].block && old(cursor.Rest())[0].status == SUCCESS
      && cursor.Rest() == old(cursor.Rest())[1..]
      && Fits(old(srv.CurrentLink()), 1) && srv.CurrentLink() == Consume(old(srv.CurrentLink()), 1)
      && srv.outbox == old(srv.outbox) + [BlockReply(turn.block)]
  {
    if behavior == BlockUntilReady {
      if !cursor.Ready() {
        return Over(Some(AwaitingBlock));
      }
    } else {
      if !cursor.Ready() {
        var exit := Refuse(srv, NOT_FOUND);
        return Over(exit);
      }
    }

    var pull := cursor.Next();
    if pull.status != SUCCESS {
      var exit := Refuse(srv, pull.status);
      return Over(exit);
    }

    var err := SendBlockReply(srv, pull.block);
    if err.Some? {
      return Over(Some(Returned(err)));
    }
    return Delivered(pull.block);
  }

  /**
   * One pass of the delivery loop, tied to the range it delivers: after the
   * responses `emitted` went out over `link`, the rest of `reply` is the range
   * over the cursor's remaining pulls. The pass either ends the request as
   * `reply` says or sends one more block of it.
   */
  method DeliverStep(srv: Stream, cursor: Cursor, stopNum: u64, behavior: Behavior,
                     ghost reply: Reply, ghost link: Link, ghost before: seq<Response>, ghost emitted: seq<Response>)
    returns (turn: Turn)
    requires srv.Valid() && cursor.pos <= |cursor.pulls|
    requires srv.outbox == before + emitted
    requires Fits(link, |emitted|) && srv.CurrentLink() == Consume(link, |emitted|)
    requires reply == Prepend(emitted, DeliverRange(cursor.Rest(), stopNum, behavior))
    modifies srv`outbox, cursor`pos
    ensures srv.Valid() && cursor.pos <= |cursor.pulls|
    ensures turn.Over? ==> srv.outbox == before + Sent(reply, link) && turn.exit == Ending(reply, link)
    ensures turn.Delivered? ==>
      var sent := emitted + [BlockReply(turn.block)];
      && old(cursor.pos) < cursor.pos
      && srv.outbox == before + sent
      && Fits(link, |sent|) && srv.CurrentLink() == Consume(link, |sent|)
      && reply == Prepend(sent, if turn.block.number == stopNum then Reply([StatusReply(SUCCESS)], Continue)
                                else DeliverRange(cursor.Rest(), stopNum, behavior))
  {
    ghost var rest := cursor.Rest();
    turn := DeliverNext(srv, cursor, stopNum, behavior);
    if turn.Over? {
      SendPrepended(before, emitted, DeliverRange(rest, stopNum, behavior), link);
    } else {
      DeliverRangeStep(reply, emitted, rest, stopNum, behavior);
    }
  }

  /**
   * The delivery loop of `Handle`: pulls from `cursor` until a block numbered
   * `stopNum` has been sent, then sends SUCCESS. `None` means the range
   * completed and the handler receives again.
   */
  method DeliverBlocks(srv: Stream, cursor: Cursor, stopNum: u64, behavior: Behavior) returns (exit: Option<Exit>)
    requires srv.Valid() && cursor.pos == 0
    modifies srv`outbox, cursor`pos
    ensures srv.Valid()
    ensures var reply, link := DeliverRange(cursor.pulls, stopNum, behavior), old(srv.CurrentLink());
      srv.outbox == old(srv.outbox) + Sent(reply, link) && exit == Ending(reply, link)
  {
    ghost var reply, link, before := DeliverRange(cursor.pulls, stopNum, behavior), srv.CurrentLink(), srv.outbox;
    ghost var emitted: seq<Response> := [];
    while true
      invariant srv.Valid() && cursor.pos <= |cursor.pulls|
      invariant srv.outbox == before + emitted
      invariant Fits(link, |emitted|) && srv.CurrentLink() == Consume(link, |emitted|)
      invariant reply == Prepend(emitted, DeliverRange(cursor.Rest(), stopNum, behavior))
      decreases |cursor.pulls| - cursor.pos
    {
      var turn := DeliverStep(srv, cursor, stopNum, behavior, reply, link, before, emitted);
      if turn.Over? {
        return turn.exit;
      }
      emitted := emitted + [BlockReply(turn.block)];
      if stopNum == turn.block.number {
        break;
      }
    }

    var err := SendStatusReply(srv, SUCCESS);
    SendPrepended(before, emitted, Reply([StatusReply(SUCCESS)], Continue), link);
    if err.Some? {
      return Some(Returned(err));
    }
    return None;
  }

  /**
   * The body of `Handle`'s loop for one received envelope: the checks, the
   * stop-number resolution and the delivery loop. `None` means the range
   * completed and the handler receives again.
   */
  method HandleRequest(sm: SupportManager, srv: Stream, envelope: Envelope) returns (exit: Option<Exit>)
    requires srv.Valid()
    modifies srv`outbox
    ensures srv.Valid()
    ensures var reply, link := Serve(sm, envelope), old(srv.CurrentLink());
      srv.outbox == old(srv.outbox) + Sent(reply, link) && exit == Ending(reply, link)
  {
    if envelope.payload.None? {
      exit := Refuse(srv, BAD_REQUEST);
      return;
    }
    var payload := envelope.payload.value;
    if payload.header.None? {
      exit := Refuse(srv, BAD_REQUEST);
      return;
    }
    if payload.header.value.channelHeader.None? {
      exit := Refuse(srv, BAD_REQUEST);
      return;
    }
    var chdr := payload.header.value.channelHeader.value;
    if chdr.channelId !in sm {
      exit := Refuse(srv, NOT_FOUND);
      return;
    }
    var chain := sm[chdr.channelId];
    if !envelope.forward {
      exit := Refuse(srv, FORBIDDEN);
      return;
    }
    if payload.seekInfo.None? {
      exit := Refuse(srv, BAD_REQUEST);
      return;
    }
    var seekInfo := payload.seekInfo.value;
    if seekInfo.start.None? || seekInfo.stop.None? {
      exit := Refuse(srv, BAD_REQUEST);
      return;
    }

    var cursor, number := OpenIterator(chain.reader, seekInfo.start.value);
    var stopNum: u64 := 0;
    match seekInfo.stop.value {
      case Oldest =>
        stopNum := number;
      case Newest =>
        var height := Height(chain.reader);
        stopNum := if height == 0 then MAX_U64 else height - 1;
      case Specified(n) =>
        stopNum := n;
        if stopNum < number {
          exit := Refuse(srv, BAD_REQUEST);
          return;
        }
      case Unset =>
    }
    exit := DeliverBlocks(srv, cursor, stopNum, seekInfo.behavior);
  }

  /**
   * One turn of `Handle`'s loop: receives a message and, for an envelope,
   * serves it. The turn either ends the call as the session over the unread
   * messages says, or has received one envelope, sent `served` and left a
   * session whose outcome completes that one.
   */
  method HandleNext(sm: SupportManager, srv: Stream) returns (exit: Option<Exit>, ghost served: seq<Response>)
    requires srv.Valid()
    modifies srv`received, srv`outbox
    ensures srv.Valid()
    ensures var whole := Session(sm, old(srv.Unread()), old(srv.CurrentLink()));
      exit.Some? ==>
        && srv.outbox == old(srv.outbox) + whole.sent
        && srv.received == old(srv.received) + whole.consumed
        && exit.value == whole.exit
    ensures var whole, rest := Session(sm, old(srv.Unread()), old(srv.CurrentLink())), Session(sm, srv.Unread(), srv.CurrentLink());
      exit.None? ==>
        && srv.received == old(srv.received) + 1
        && srv.outbox == old(srv.outbox) + served
        && whole == After(served, 1, rest)
  {
    ghost var unread, link := srv.Unread(), srv.CurrentLink();
    served := [];
    var msg := srv.Recv();
    if msg.None? {
      assert Session(sm, unread, link) == Outcome([], 0, AwaitingRequest);
      return Some(AwaitingRequest), [];
    }
    assert unread[0] == msg.value;
    if msg.value.Eof? {
      assert Session(sm, unread, link) == Outcome([], 1, Returned(None));
      return Some(Returned(None)), [];
    }
    if msg.value.RecvError? {
      assert Session(sm, unread, link) == Outcome([], 1, Returned(Some(msg.value.err)));
      return Some(Returned(Some(msg.value.err))), [];
    }
    assert srv.Unread() == unread[1..];
    ghost var reply := Serve(sm, msg.value.env);
    SessionOnMessage(sm, unread, link);
    exit := HandleRequest(sm, srv, msg.value.env);
    served := reply.responses;
    if exit.None? {
      assert Sent(reply, link) == reply.responses;
      assert srv.CurrentLink() == Consume(link, |reply.responses|);
    }
  }

  /**
   * One turn of `Handle`'s loop, tied to the whole session: after the
   * responses `done` went out and the messages from `start` on were received,
   * the rest of `goal` is the session over the unread messages. The turn ends
   * the call as `goal` says, or sends and receives the next part of it.
   */
  method HandleStep(sm: SupportManager, srv: Stream, ghost goal: Outcome, ghost before: seq<Response>,
                    ghost start: nat, ghost done: seq<Response>)
    returns (exit: Option<Exit>, ghost sent: seq<Response>)
    requires srv.Valid() && start <= srv.received
    requires srv.outbox == before + done
    requires goal == After(done, srv.received - start, Session(sm, srv.Unread(), srv.CurrentLink()))
    modifies srv`received, srv`outbox
    ensures srv.Valid()
    ensures exit.Some? ==> srv.outbox == before + goal.sent && srv.received == start + goal.consumed && exit.value == goal.exit
    ensures exit.None? ==>
      && old(srv.received) < srv.received
      && srv.outbox == before + sent
      && goal == After(sent, srv.received - start, Session(sm, srv.Unread(), srv.CurrentLink()))
  {
    ghost var whole := Session(sm, srv.Unread(), srv.CurrentLink());
    ghost var taken := srv.received - start;
    ghost var served;
    exit, served := HandleNext(sm, srv);
    sent := done + served;
    if exit.Some? {
      assert before + goal.sent == before + done + whole.sent;
      return;
    }
    ghost var rest := Session(sm, srv.Unread(), srv.CurrentLink());
    assert whole == After(served, 1, rest);
    AfterAfter(done, taken, served, 1, rest);
  }

  /**
   * `deliverServer.Handle`: receives requests on `srv` until the stream ends,
   * a request fails, or the script runs out, sending exactly the responses
   * `Session` gives, receiving exactly the messages it reads, and ending the
   * way it says.
   */
  method Handle(sm: SupportManager, srv: Stream) returns (exit: Exit)
    requires srv.Valid()
    modifies srv
    ensures srv.Valid()
    ensures srv.outbox == old(srv.outbox) + Session(sm, old(srv.Unread()), old(srv.CurrentLink())).sent
    ensures srv.received == old(srv.received) + Session(sm, old(srv.Unread()), old(srv.CurrentLink())).consumed
    ensures exit == Session(sm, old(srv.Unread()), old(srv.CurrentLink())).exit
  {
    ghost var goal, before, start := Session(sm, srv.Unread(), srv.CurrentLink()), srv.outbox, srv.received;
    ghost var done: seq<Response> := [];
    while true
      invariant srv.Valid() && start <= srv.received
      invariant srv.outbox == before + done
      invariant goal == After(done, srv.received - start, Session(sm, srv.Unread(), srv.CurrentLink()))
      decreases |srv.inbox| - srv.received
    {
      var step;
      step, done := HandleStep(sm, srv, goal, before, start, done);
      if step.Some? {
        return step.value;
      }
    }
  }
}
