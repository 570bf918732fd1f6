/**
 * The session's side of the duplex stream (`ab.AtomicBroadcast_DeliverServer`)
 * over a finite script: what the client sends, in order, and the point from
 * which the connection stops carrying responses.
 */
module Transport {
  import opened Wire

  /** An error the stream reports, other than a clean end of stream. */
  datatype StreamError = StreamError(code: int)

  /** What one `Recv()` yields: `io.EOF`, another error, or an envelope. */
  datatype Inbound = Eof | RecvError(err: StreamError) | Message(env: Envelope)

  /**
   * The sending side as it stands: the connection carries `capacity`
   * responses in all (`None`: no limit), `used` of them have gone out, and
   * every send after the capacity is used up fails with `fault`.
   */
  datatype Link = Link(capacity: Option<nat>, used: nat, fault: StreamError)

  /** The link can carry `n` more responses (no responses always fit). */
  predicate Fits(link: Link, n: nat) {
    n == 0 || link.capacity.None? || link.used + n <= link.capacity.value
  }

  /** How many more responses a limited link carries. */
  function Room(link: Link): (r: nat)
    requires link.capacity.Some?
    ensures forall n: nat :: Fits(link, n) <==> n <= r
  {
    if link.used <= link.capacity.value then link.capacity.value - link.used else 0
  }

  /** The link after it carried `n` more responses. */
  function Consume(link: Link, n: nat): Link {
    link.(used := link.used + n)
  }

  class Stream {
    /** Everything the client sends on this stream, in order. */
    const inbox: seq<Inbound>
    /** How many messages `Recv()` has taken. */
    var received: nat
    /** The responses the client has received, in order. */
    var outbox: seq<Response>
    /** How many responses the connection carries in all (`None`: no limit). */
    const capacity: Option<nat>
    /** The error every send fails with once the capacity is used up. */
    const fault: StreamError

    ghost predicate Valid()
      reads this
    {
      received <= |inbox| && (capacity.Some? ==> |outbox| <= capacity.value)
    }

    constructor (inbox: seq<Inbound>, capacity: Option<nat>, fault: StreamError)
      ensures Valid()
      ensures this.inbox == inbox && this.capacity == capacity && this.fault == fault
      ensures received == 0 && outbox == []
    {
      this.inbox, this.capacity, this.fault := inbox, capacity, fault;
      received, outbox := 0, [];
    }

    /** The messages not yet received. */
    function Unread(): seq<Inbound>
      reads this
      requires Valid()
    {
      inbox[received..]
    }

    /** The sending side as it stands now. */
    function CurrentLink(): Link
      reads this
    {
      Link(capacity, |outbox|, fault)
    }

    /**
     * `Recv()`: the next message, or `None` when the script holds no more
     * (the point where the real stream would block waiting for the client).
     */
    method Recv() returns (m: Option<Inbound>)
      requires Valid()
      modifies this`received
      ensures Valid()
      ensures old(received) < |inbox| ==> m == Some(inbox[old(received)]) && received == old(received) + 1
      ensures old(received) == |inbox| ==> m == None && received == old(received)
      ensures Unread() == if m.None? then old(Unread()) else old(Unread())[1..]
    {
      if received < |inbox| {
        m := Some(inbox[received]);
        received := received + 1;
      } else {
        m := None;
      }
    }

    /** `Send(r)`: delivers `r` or, once the capacity is used up, fails with `fault`. */
    method Send(r: Response) returns (err: Option<StreamError>)
      requires Valid()
      modifies this`outbox
      ensures Valid()
      ensures err.None? <==> Fits(old(CurrentLink()), 1)
      ensures err.Some? ==> err.value == fault
      ensures outbox == if err.None? then old(outbox) + [r] else old(outbox)
      ensures err.None? ==> CurrentLink() == Consume(old(CurrentLink()), 1)
    {
      if capacity.None? || |outbox| < capacity.value {
        outbox := outbox + [r];
        err := None;
      } else {
        err := Some(fault);
      }
    }
  }
}
