/** Values shared by every component: machine words, the message types that flow from the
    parent chain's inboxes to the transaction log, and the usual Option and Result. */
module Types {

  datatype Option<+T> = None | Some(value: T)

  datatype Result<+T, +E> = Ok(value: T) | Err(error: E)

  type byte = x: int | 0 <= x < 256
  type bytes = seq<byte>

  const TWO64: nat := 0x1_0000_0000_0000_0000
  const MAX_U64: nat := TWO64 - 1

  type u64 = x: int | 0 <= x < TWO64

  /** Unsigned 64-bit addition and subtraction, which wrap around. */
  function WrapAdd(a: u64, b: u64): u64 {
    if a + b < TWO64 then a + b else a + b - TWO64
  }

  function WrapSub(a: u64, b: u64): u64 {
    if b <= a then a - b else a - b + TWO64
  }

  function Min(a: int, b: int): int {
    if a <= b then a else b
  }

  function Max(a: int, b: int): int {
    if a <= b then b else a
  }

  /** The header of a message received from the parent chain. A request id is present exactly on
      messages that came through the delayed inbox. */
  datatype Header = Header(
    kind: byte,
    poster: nat,
    blockNumber: u64,
    timestamp: u64,
    requestId: Option<nat>,
    l1BaseFee: Option<nat>)

  /** batchGasCost is only a cache used by batch posting reports. */
  datatype L1Message = L1Message(header: Header, l2msg: bytes, batchGasCost: Option<u64>)

  /** An entry of the transaction log. The message pointer may be nil in untrusted input. */
  datatype MessageWithMeta = MessageWithMeta(message: Option<L1Message>, delayedRead: u64)

  const L1_KIND_L2_MESSAGE: byte := 3
  const L1_KIND_BATCH_POSTING_REPORT: byte := 13
  const L1_KIND_INVALID: byte := 0xFF

  const INVALID_L1_MESSAGE: L1Message :=
    L1Message(Header(L1_KIND_INVALID, 0, 0, 0, None, None), [], None)

  /** The address that marks messages ordered by the sequencer. */
  const BATCH_POSTER_ADDRESS: nat := 0xA4B000000000000000000073657175656e636572
}
