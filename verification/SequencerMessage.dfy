/** Parsing of a serialized sequencer batch: a fixed header of time bounds and the delayed message
    count, and a payload that is decompressed into a list of segments. */
module SequencerMessages {
  import opened Types
  import opened Rlp

  const MAX_DECOMPRESSED_LEN: nat := 1024 * 1024 * 16
  const MAX_SEGMENTS: nat := 100 * 1024
  const HEADER_LEN: nat := 40
  const BROTLI_HEADER_BYTE: byte := 0

  datatype SequencerMessage = SequencerMessage(
    minTimestamp: u64,
    maxTimestamp: u64,
    minL1Block: u64,
    maxL1Block: u64,
    afterDelayed: u64,
    segments: seq<bytes>)

  datatype ParseError = MissingHeader | NodeOutOfDate | PayloadUnavailable | NoBlobReader

  /** What a data availability provider answers for a batch. */
  datatype Recovery = RecoveryFailed | RecoveryEmpty | Recovered(payload: bytes)

  datatype DaProvider = DaProvider(accepts: byte -> bool, recover: bytes -> Recovery)

  /** The foreign code parsing relies on: brotli, the zero-heavy decoder and the data availability
      providers. */
  datatype Decoder = Decoder(
    decompress: (bytes, nat) -> Option<bytes>,
    zeroheavy: bytes -> Option<bytes>,
    providers: seq<DaProvider>)

  predicate HasBit(b: byte, bit: nat)
    requires bit > 0
  {
    b / bit % 2 == 1
  }

  predicate IsL1Authenticated(b: byte) { HasBit(b, 0x40) }
  predicate IsDas(b: byte) { HasBit(b, 0x80) }
  predicate IsBlobHashes(b: byte) { HasBit(b, 0x40) && HasBit(b, 0x10) }
  predicate IsZeroheavy(b: byte) { HasBit(b, 0x20) }
  predicate IsKnownHeaderByte(b: byte) { b % 8 == 0 }

  /** The k low-order bytes of n, most significant first. */
  function Fixed(n: nat, k: nat): (s: bytes)
    ensures |s| == k
  {
    if k == 0 then [] else Fixed(n / 256, k - 1) + [n % 256]
  }

  function ReadU64(s: bytes): u64
    requires |s| == 8
  {
    FromBigEndianBound(s);
    Pow256Eight();
    FromBigEndian(s)
  }

  /** The header followed by the data, as the inbox reader serializes a batch. */
  function Serialize(header: SequencerMessage, data: bytes): bytes {
    Fixed(header.minTimestamp, 8) + Fixed(header.maxTimestamp, 8) + Fixed(header.minL1Block, 8) +
    Fixed(header.maxL1Block, 8) + Fixed(header.afterDelayed, 8) + data
  }

  /** All segments up to the first malformed one, and at most MAX_SEGMENTS of them. */
  function SegmentsOf(input: bytes, have: nat): seq<bytes>
    decreases |input|
  {
    var item := DecodeString(input);
    if item.None? || have >= MAX_SEGMENTS then []
    else [item.value.value] + SegmentsOf(item.value.rest, have + 1)
  }

  /** The first provider that accepts the payload's header byte recovers it. */
  function FirstAccepting(providers: seq<DaProvider>, b: byte): Option<DaProvider> {
    if providers == [] then None
    else if providers[0].accepts(b) then Some(providers[0])
    else FirstAccepting(providers[1..], b)
  }

  function PayloadSegments(dec: Decoder, payload: bytes): seq<bytes> {
    if payload != [] && payload[0] == BROTLI_HEADER_BYTE then
      var data := dec.decompress(payload[1..], MAX_DECOMPRESSED_LEN);
      if data.Some? then SegmentsOf(data.value, 0) else []
    else []
  }

  /** The segments of a payload from which any data availability header was already removed. */
  function DecodedSegments(dec: Decoder, payload: bytes): seq<bytes> {
    if payload != [] && IsZeroheavy(payload[0]) then
      var plain := dec.zeroheavy(payload[1..]);
      if plain.None? then [] else PayloadSegments(dec, plain.value)
    else PayloadSegments(dec, payload)
  }

  function Parse(dec: Decoder, data: bytes): Result<SequencerMessage, ParseError> {
    if |data| < HEADER_LEN then Err(MissingHeader)
    else
      var header := SequencerMessage(
        ReadU64(data[..8]), ReadU64(data[8..16]), ReadU64(data[16..24]), ReadU64(data[24..32]),
        ReadU64(data[32..40]), []);
      var payload := data[HEADER_LEN..];
      if payload == [] then Ok(header)
      else if IsL1Authenticated(payload[0]) && !IsKnownHeaderByte(payload[0]) then Err(NodeOutOfDate)
      else
        var provider := FirstAccepting(dec.providers, payload[0]);
        if provider.Some? then
          match provider.value.recover(data)
          case RecoveryFailed => Err(PayloadUnavailable)
          case RecoveryEmpty => Ok(header)
          case Recovered(recovered) => Ok(header.(segments := DecodedSegments(dec, recovered)))
        else if !IsDas(payload[0]) && IsBlobHashes(payload[0]) then Err(NoBlobReader)
        else Ok(header.(segments := DecodedSegments(dec, payload)))
  }

  /** What keeps a batch from being parsed, exactly: fewer than forty bytes, a kind of payload that only a newer node
      knows, a provider that cannot recover it, or blobs without a reader. */
  lemma ParseFails(dec: Decoder, data: bytes)
    ensures Parse(dec, data) == Err(MissingHeader) <==> |data| < 40
    ensures |data| == 40 ==> Parse(dec, data).Ok? && Parse(dec, data).value.segments == []
    ensures |data| > 40 ==>
      var (kind, provider) := (data[40], FirstAccepting(dec.providers, data[40]));
      && (Parse(dec, data) == Err(NodeOutOfDate) <==> IsL1Authenticated(kind) && !IsKnownHeaderByte(kind))
      && (Parse(dec, data).Ok? <==>
           && !(IsL1Authenticated(kind) && !IsKnownHeaderByte(kind))
           && if provider.Some? then !provider.value.recover(data).RecoveryFailed?
              else IsDas(kind) || !IsBlobHashes(kind))
  {
    hide DecodedSegments;
  }

  /** The segment reading loop. */
  method ReadSegments(input: bytes) returns (segments: seq<bytes>)
    ensures segments == SegmentsOf(input, 0)
    ensures |segments| <= MAX_SEGMENTS
  {
    segments := [];
    var rest := input;
    while true
      invariant |segments| <= MAX_SEGMENTS
      invariant segments + SegmentsOf(rest, |segments|) == SegmentsOf(input, 0)
      decreases |rest|
    {
      var item := DecodeString(rest);
      if item.None? || |segments| >= MAX_SEGMENTS {
        return;
      }
      assert SegmentsOf(rest, |segments|) == [item.value.value] + SegmentsOf(item.value.rest, |segments| + 1);
      segments := segments + [item.value.value];
      rest := item.value.rest;
    }
  }

  // ---- Properties

  /** The concatenated encodings of a list of segments. */
  function EncodeSegments(segments: seq<bytes>): bytes
    requires forall s <- segments :: |s| < TWO64
  {
    if segments == [] then []
    else EncodeSegments(segments[..|segments| - 1]) + EncodeString(segments[|segments| - 1])
  }

  lemma {:induction false} EncodeSegmentsFront(segments: seq<bytes>)
    requires forall s <- segments :: |s| < TWO64
    requires segments != []
    ensures EncodeSegments(segments) == EncodeString(segments[0]) + EncodeSegments(segments[1..])
  {
    var n := |segments|;
    if n == 1 {
      assert segments[..0] == [] && segments[1..] == [];
    } else {
      var init, tail := segments[..n - 1], segments[1..];
      EncodeSegmentsFront(init);
      assert init[1..] == tail[..n - 2];
      Concat3(EncodeString(segments[0]), EncodeSegments(tail[..n - 2]), EncodeString(segments[n - 1]));
    }
  }

  lemma Concat3(a: bytes, b: bytes, c: bytes)
    ensures (a + b) + c == a + (b + c)
  {
  }

  /** Reading the concatenation back yields the list, as long as it is short enough. */
  lemma {:induction false} SegmentsRoundTrip(segments: seq<bytes>, have: nat)
    requires forall s <- segments :: |s| < TWO64
    requires have + |segments| <= MAX_SEGMENTS
    ensures SegmentsOf(EncodeSegments(segments), have) == segments
    decreases |segments|
  {
    if segments != [] {
      EncodeSegmentsFront(segments);
      DecodeEncodedString(segments[0], EncodeSegments(segments[1..]));
      SegmentsRoundTrip(segments[1..], have + 1);
    }
  }

  lemma {:induction false} FixedInverse(n: nat, k: nat)
    requires n < Pow256(k)
    ensures FromBigEndian(Fixed(n, k)) == n
    decreases k
  {
    if k > 0 {
      var s := Fixed(n, k);
      assert s[..|s| - 1] == Fixed(n / 256, k - 1);
      FixedInverse(n / 256, k - 1);
    }
  }

  lemma ReadFixed(n: u64)
    ensures ReadU64(Fixed(n, 8)) == n
  {
    Pow256Eight();
    FixedInverse(n, 8);
  }

  /** Every header field survives serialization, and the payload is whatever followed it. */
  lemma ParseSerialized(dec: Decoder, header: SequencerMessage, compressed: bytes)
    requires FirstAccepting(dec.providers, BROTLI_HEADER_BYTE).None?
    ensures Parse(dec, Serialize(header, [BROTLI_HEADER_BYTE] + compressed)) ==
            Ok(header.(segments := PayloadSegments(dec, [BROTLI_HEADER_BYTE] + compressed)))
  {
    var data := Serialize(header, [BROTLI_HEADER_BYTE] + compressed);
    assert data[..8] == Fixed(header.minTimestamp, 8);
    assert data[8..16] == Fixed(header.maxTimestamp, 8);
    assert data[16..24] == Fixed(header.minL1Block, 8);
    assert data[24..32] == Fixed(header.maxL1Block, 8);
    assert data[32..40] == Fixed(header.afterDelayed, 8);
    assert data[HEADER_LEN..] == [BROTLI_HEADER_BYTE] + compressed;
    ReadFixed(header.minTimestamp);
    ReadFixed(header.maxTimestamp);
    ReadFixed(header.minL1Block);
    ReadFixed(header.maxL1Block);
    ReadFixed(header.afterDelayed);
  }
}
