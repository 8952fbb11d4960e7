/** Frames as bytes: a five-byte header (the kind, then the stream's id with its most
    significant byte first), and whatever follows is the body. */
module Frames {
  import opened Wrappers

  type StreamId = n: int | 0 <= n < TWO_32
  type Message = seq<byte>

  const TWO_32: int := 0x1_0000_0000
  const HEADER_BYTES: nat := 5
  const MAX_REASON_BYTES: nat := 200

  datatype FrameKind = FrameOpen | FrameData | FrameEnd | FrameReset

  datatype Frame = Frame(kind: FrameKind, streamId: StreamId, payload: seq<byte>)

  function TypeByte(kind: FrameKind): byte {
    match kind
    case FrameOpen => 1
    case FrameData => 2
    case FrameEnd => 3
    case FrameReset => 4
  }

  function KindOf(b: byte): Option<FrameKind> {
    if b == 1 then Some(FrameOpen)
    else if b == 2 then Some(FrameData)
    else if b == 3 then Some(FrameEnd)
    else if b == 4 then Some(FrameReset)
    else None
  }

  function UInt32BE(n: StreamId): seq<byte> {
    [n / 0x100_0000, n / 0x1_0000 % 256, n / 0x100 % 256, n % 256]
  }

  function ReadUInt32BE(d: seq<byte>): StreamId
    requires |d| == 4
  {
    var a: int, b: int, c: int := d[0], d[1], d[2];
    a * 0x100_0000 + b * 0x1_0000 + c * 0x100 + d[3]
  }

  /** `streamId >>> 0` keeps the low 32 bits of whatever integer it is given. */
  function EncodeFrame(kind: FrameKind, streamId: int, payload: seq<byte>): Message {
    [TypeByte(kind)] + UInt32BE(streamId % TWO_32) + payload
  }

  /** Total: short messages and unknown kinds give None. */
  function DecodeFrame(data: Message): Option<Frame> {
    if |data| < HEADER_BYTES then None
    else match KindOf(data[0])
      case None => None
      case Some(kind) => Some(Frame(kind, ReadUInt32BE(data[1..5]), data[HEADER_BYTES..]))
  }

  function ResetFrame(streamId: StreamId, reason: seq<byte>): Frame {
    Frame(FrameReset, streamId, if |reason| > MAX_REASON_BYTES then reason[..MAX_REASON_BYTES] else reason)
  }

  function Encode(f: Frame): Message {
    EncodeFrame(f.kind, f.streamId, f.payload)
  }

  function EncodeAll(fs: seq<Frame>): seq<Message> {
    seq(|fs|, i requires 0 <= i < |fs| => Encode(fs[i]))
  }

  lemma UInt32RoundTrip(n: StreamId)
    ensures ReadUInt32BE(UInt32BE(n)) == n
  {
    var q := n / 0x100;
    var p := q / 0x100;
    assert n / 0x1_0000 == p;
    assert n / 0x100_0000 == p / 0x100;
  }

  lemma UInt32Unique(d: seq<byte>)
    requires |d| == 4
    ensures UInt32BE(ReadUInt32BE(d)) == d
  {
    var a: int, b: int, c: int := d[0], d[1], d[2];
    var n: int := ReadUInt32BE(d);
    assert n == ((a * 256 + b) * 256 + c) * 256 + d[3];
    ByteStep((a * 256 + b) * 256 + c, d[3]);
    ByteStep(a * 256 + b, d[2]);
    ByteStep(a, d[1]);
    Shifted(n);
  }

  lemma ByteStep(q: nat, r: byte)
    ensures (q * 256 + r) / 256 == q && (q * 256 + r) % 256 == r
  {
  }

  lemma Shifted(n: nat)
    ensures n / 0x1_0000 == n / 256 / 256 && n / 0x100_0000 == n / 256 / 256 / 256
  {
  }

  /** Every frame survives the wire, its id reduced to 32 bits. */
  lemma DecodeEncode(kind: FrameKind, streamId: int, payload: seq<byte>)
    ensures DecodeFrame(EncodeFrame(kind, streamId, payload)) == Some(Frame(kind, streamId % TWO_32, payload))
  {
    var m := EncodeFrame(kind, streamId, payload);
    UInt32RoundTrip(streamId % TWO_32);
    assert m[1..5] == UInt32BE(streamId % TWO_32);
    assert m[HEADER_BYTES..] == payload;
  }

  /** Byte by byte: 1, 2, 3 or 4 for the kind, the id with its most significant byte
      first, then the payload. */
  lemma WireBytes(kind: FrameKind, streamId: int, payload: seq<byte>)
    ensures var m := EncodeFrame(kind, streamId, payload);
      && |m| == 5 + |payload| && m[5..] == payload
      && (kind.FrameOpen? <==> m[0] == 1) && (kind.FrameData? <==> m[0] == 2)
      && (kind.FrameEnd? <==> m[0] == 3) && (kind.FrameReset? <==> m[0] == 4)
      && ((m[1] as int * 256 + m[2]) * 256 + m[3]) * 256 + m[4] == streamId % 0x1_0000_0000
  {
    UInt32RoundTrip(streamId % TWO_32);
  }

  /** A reason keeps its first 200 bytes, and no more. */
  lemma ReasonIsCut(streamId: StreamId, reason: seq<byte>)
    ensures var f := ResetFrame(streamId, reason);
      f.kind.FrameReset? && f.streamId == streamId && f.payload <= reason &&
      (|f.payload| == 200 || (|f.payload| < 200 && f.payload == reason))
  {
    assert |reason| > MAX_REASON_BYTES ==> reason[..MAX_REASON_BYTES] <= reason;
  }

  /** A message decodes exactly when it carries a header whose first byte is a
      known type, and then it is the encoding of the frame it decodes to. */
  lemma EncodeDecode(data: Message)
    ensures DecodeFrame(data).Some? <==> |data| >= HEADER_BYTES && 1 <= data[0] <= 4
    ensures DecodeFrame(data).Some? ==> Encode(DecodeFrame(data).value) == data
  {
    hide UInt32BE, ReadUInt32BE;
    if DecodeFrame(data).Some? {
      UInt32Unique(data[1..5]);
      assert data == [data[0]] + data[1..5] + data[HEADER_BYTES..];
    }
  }

  /** Distinct frames never share a wire message. */
  lemma EncodeInjective(f: Frame, g: Frame)
    requires Encode(f) == Encode(g)
    ensures f == g
  {
    DecodeEncode(f.kind, f.streamId, f.payload);
    DecodeEncode(g.kind, g.streamId, g.payload);
  }
}
