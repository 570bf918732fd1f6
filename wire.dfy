/**
 * The messages a deliver session exchanges with its client, after the
 * transport has framed them and with every protobuf decode step reduced to
 * its outcome: a decoded value (`Some`) or a decode error (`None`).
 */
module Wire {

  datatype Option<+T> = None | Some(value: T)

  /** Go's `uint64`. */
  type u64 = x: int | 0 <= x < 0x1_0000_0000_0000_0000

  const MAX_U64: u64 := 0xFFFF_FFFF_FFFF_FFFF

  /** `cb.Status`, a protobuf enum carried as an `int32`: any value can be sent. */
  newtype Status = x: int | -0x8000_0000 <= x < 0x8000_0000

  const SUCCESS: Status := 200
  const BAD_REQUEST: Status := 400
  const FORBIDDEN: Status := 403
  const NOT_FOUND: Status := 404

  /**
   * `ab.SeekPosition`: a protobuf `oneof`. `Unset` is the position whose
   * `Type` field is left empty, which a type switch matches by no case.
   */
  datatype SeekPosition = Oldest | Newest | Specified(number: u64) | Unset

  /** `ab.SeekInfo_SeekBehavior`. */
  datatype Behavior = BlockUntilReady | FailIfNotReady

  /** `ab.SeekInfo`: a missing `Start` or `Stop` message is `None`. */
  datatype SeekInfo = SeekInfo(start: Option<SeekPosition>, stop: Option<SeekPosition>, behavior: Behavior)

  /** `cb.ChannelHeader`, of which the session reads only the channel id. */
  datatype ChannelHeader = ChannelHeader(channelId: string)

  /** `cb.Header`: `channelHeader` is the outcome of decoding its channel header bytes. */
  datatype Header = Header(channelHeader: Option<ChannelHeader>)

  /**
   * `cb.Payload`: `header` is `None` when the header field is nil, and
   * `seekInfo` is the outcome of decoding the payload's data as a SeekInfo.
   */
  datatype Payload = Payload(header: Option<Header>, seekInfo: Option<SeekInfo>)

  /**
   * `cb.Envelope`: `payload` is the outcome of decoding the payload bytes;
   * `forward` is the verdict of the channel readers' signature filter on this
   * envelope (true exactly when the filter answers Forward).
   */
  datatype Envelope = Envelope(payload: Option<Payload>, forward: bool)

  /** `cb.Block`, identified by the number in its header. */
  datatype Block = Block(number: u64, data: seq<bv8>)

  /** `ab.DeliverResponse`: every response carries exactly one of a Status or a Block. */
  datatype Response = StatusReply(status: Status) | BlockReply(block: Block)
}
