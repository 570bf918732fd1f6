/**
 * The ledger reader a channel's Support hands to the deliver session, as a
 * finite snapshot: the blocks committed so far, numbered from the lowest one
 * still retained. A cursor opened on it yields one pull per block it can
 * deliver now; readiness is "the snapshot holds another pull".
 */
module LedgerModel {
  import opened Wire

  /** What `cursor.Next()` returns: a block and a status. The block is only read when the status is SUCCESS. */
  datatype Pull = Pull(block: Block, status: Status)

  /** What the error cursor returns for a position the ledger cannot serve. */
  const NotFoundPull: Pull := Pull(Block(0, []), NOT_FOUND)

  datatype Chain = Chain(low: u64, blocks: seq<Block>)

  /** A snapshot whose height `low + |blocks|` fits in a `uint64`. */
  type Ledger = c: Chain | c.low + |c.blocks| <= MAX_U64 witness Chain(0, [])

  /** The snapshot numbers its blocks consecutively from `low`. */
  ghost predicate Numbered(l: Ledger) {
    forall i :: 0 <= i < |l.blocks| ==> l.blocks[i].number == l.low + i
  }

  /** `Reader.Height()`: one past the newest committed block number. */
  function Height(l: Ledger): u64 {
    l.low + |l.blocks|
  }

  /** The pulls a cursor yields for the committed blocks `bs`, in order. */
  function Committed(bs: seq<Block>): seq<Pull> {
    seq(|bs|, i requires 0 <= i < |bs| => Pull(bs[i], SUCCESS))
  }

  /** `Reader.Iterator(start)`: the pulls of a fresh cursor and the start number it reports. */
  datatype Opened = Opened(pulls: seq<Pull>, number: u64)

  /**
   * The ledger reader's iterator. `Oldest` starts at the lowest retained
   * block, `Newest` at the newest committed one (at `low` when none is), and
   * `Specified(n)` at block `n` for any `n` from `low` up to the height (the
   * height itself is the next block to come). Any other position gets a
   * cursor that is always ready and reports NOT_FOUND, with start number 0.
   */
  function Iterator(l: Ledger, start: SeekPosition): (o: Opened)
    ensures start.Oldest? ==> o.number == l.low
    ensures start.Specified? && l.low <= start.number <= Height(l) ==> o.number == start.number
    ensures Numbered(l) ==>
              forall i :: 0 <= i < |o.pulls| && o.pulls[i].status == SUCCESS ==> o.pulls[i].block.number == o.number + i
  {
    match start
    case Oldest => Opened(Committed(l.blocks), l.low)
    case Newest =>
      if |l.blocks| == 0 then Opened([], l.low)
      else Opened(Committed(l.blocks[|l.blocks| - 1..]), l.low + |l.blocks| - 1)
    case Specified(n) =>
      if l.low <= n <= Height(l) then Opened(Committed(l.blocks[n - l.low..]), n)
      else Opened([NotFoundPull], 0)
    case Unset => Opened([NotFoundPull], 0)
  }

  /** `ledger.Iterator`: a stateful cursor over a fixed sequence of pulls. */
  class Cursor {
    const pulls: seq<Pull>
    var pos: nat

    constructor (pulls: seq<Pull>)
      ensures this.pulls == pulls && pos == 0
    {
      this.pulls := pulls;
      pos := 0;
    }

    /** `ReadyChan()` has fired: the snapshot holds the next pull. */
    predicate Ready()
      reads this
      ensures Ready() <==> Rest() != []
    {
      pos < |pulls|
    }

    /** The pulls this cursor has yet to yield. */
    function Rest(): seq<Pull>
      reads this
    {
      if pos <= |pulls| then pulls[pos..] else []
    }

    /** `Next()`: yields the next pull and advances. */
    method Next() returns (p: Pull)
      requires Ready()
      modifies this`pos
      ensures p == old(pulls[pos]) && pos == old(pos) + 1
      ensures Rest() == old(Rest())[1..]
    {
      p := pulls[pos];
      pos := pos + 1;
    }
  }

  /** `Reader.Iterator(start)` as the session calls it: a new cursor and its start number. */
  method OpenIterator(l: Ledger, start: SeekPosition) returns (cursor: Cursor, number: u64)
    ensures fresh(cursor) && cursor.pos == 0
    ensures Opened(cursor.pulls, number) == Iterator(l, start)
  {
    var o := Iterator(l, start);
    cursor := new Cursor(o.pulls);
    number := o.number;
  }
}
