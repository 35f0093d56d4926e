/** ZBRT frames: `Frame::encode`, `Frame::decode` and `read_frame_sync`. */
module Frames {
  import opened Common
  import opened Wire

  const MAGIC: Bytes := [0x5A, 0x42, 0x52, 0x54]
  const VERSION: Byte := 1
  const HEADER_LEN: nat := 28
  const MAX_PAYLOAD: nat := 16 * 1024 * 1024

  datatype Kind =
    | Hello | HelloAck | Execute | Output | Exit | Cancel | CancelAck
    | Fs | FsResult | Health | HealthAck | Error | Result

  datatype Frame = Frame(kind: Kind, flags: nat, requestId: RequestId, payload: Bytes)

  function KindByte(kind: Kind): Byte {
    match kind
    case Hello => 1
    case HelloAck => 2
    case Execute => 3
    case Output => 4
    case Exit => 5
    case Cancel => 6
    case CancelAck => 7
    case Fs => 8
    case FsResult => 9
    case Health => 10
    case HealthAck => 11
    case Error => 12
    case Result => 13
  }

  function ParseKind(v: Byte): Common.Result<Kind, WireError> {
    match v
    case 1 => Ok(Hello)
    case 2 => Ok(HelloAck)
    case 3 => Ok(Execute)
    case 4 => Ok(Output)
    case 5 => Ok(Exit)
    case 6 => Ok(Cancel)
    case 7 => Ok(CancelAck)
    case 8 => Ok(Fs)
    case 9 => Ok(FsResult)
    case 10 => Ok(Health)
    case 11 => Ok(HealthAck)
    case 12 => Ok(Error)
    case 13 => Ok(Kind.Result)
    case _ => Err(UnknownKind)
  }

  lemma KindRoundTrip(kind: Kind)
    ensures ParseKind(KindByte(kind)) == Ok(kind)
  {
  }

  function Header(frame: Frame): (h: Bytes)
    requires |frame.payload| <= MAX_PAYLOAD
    ensures |h| == HEADER_LEN
  {
    MAGIC + [VERSION, KindByte(frame.kind), 0, 0] + frame.requestId + Be32(|frame.payload|)
  }

  function Encode(frame: Frame): Common.Result<Bytes, WireError> {
    if frame.flags != 0 || |frame.payload| > MAX_PAYLOAD then Err(InvalidFrame)
    else Ok(Header(frame) + frame.payload)
  }

  /** Reads one frame from a byte source and leaves the rest. */
  function Decode(r: Bytes): Read<Frame> {
    if |r| < HEADER_LEN then Err(UnexpectedEof) else
      var h, r' := r[..HEADER_LEN], r[HEADER_LEN..];
      if h[..4] != MAGIC || h[4] != VERSION then Err(BadMagicOrVersion) else
        var flags := 256 * (h[6] as int) + h[7];
        if flags != 0 then Err(BadFlags) else
          var n := FromBe32(h[24..28]);
          if n > MAX_PAYLOAD then Err(PayloadTooLarge)
          else if |r'| < n then Err(UnexpectedEof) else
            var kind :- ParseKind(h[5]);
            Ok((Frame(kind, flags, h[8..24], r'[..n]), r'[n..]))
  }

  lemma HeaderFields(frame: Frame)
    requires |frame.payload| <= MAX_PAYLOAD
    ensures var h := Header(frame);
            h[..4] == MAGIC && h[4] == VERSION && h[5] == KindByte(frame.kind) && h[6] == 0 && h[7] == 0
            && h[8..24] == frame.requestId && h[24..28] == Be32(|frame.payload|)
  {
    hide Be32;
  }

  /** Every encodable frame decodes to itself and leaves the following bytes alone. */
  lemma FrameLaw(frame: Frame, e: Bytes)
    requires Encode(frame).Ok?
    ensures Decode(Encode(frame).value + e) == Ok((frame, e))
  {
    hide Header, Be32, FromBe32, KindByte, ParseKind;
    var h, n := Header(frame), |frame.payload|;
    var r := Encode(frame).value + e;
    HeaderFields(frame);
    Be32RoundTrip(n);
    KindRoundTrip(frame.kind);
    assert r[..HEADER_LEN] == h;
    assert r[HEADER_LEN..] == frame.payload + e;
    assert (frame.payload + e)[..n] == frame.payload && (frame.payload + e)[n..] == e;
  }

  lemma DecodeStable(r: Bytes, e: Bytes)
    ensures Stable(Decode(r), Decode(r + e), e)
  {
    if Decode(r).Ok? {
      hide Be32, FromBe32, ParseKind;
      var n := FromBe32(r[..HEADER_LEN][24..28]);
      assert (r + e)[..HEADER_LEN] == r[..HEADER_LEN];
      var r' := r[HEADER_LEN..];
      assert (r + e)[HEADER_LEN..] == r' + e;
      assert (r' + e)[..n] == r'[..n] && (r' + e)[n..] == r'[n..] + e;
    }
  }

  /** No strict prefix of a frame decodes. */
  lemma FramePrefixRejected(frame: Frame, n: nat)
    requires Encode(frame).Ok? && n < |Encode(frame).value|
    ensures Decode(Encode(frame).value[..n]).Err?
  {
    hide Decode;
    var enc := Encode(frame).value;
    DecodeStable(enc[..n], enc[n..]);
    assert enc == enc[..n] + enc[n..] && enc + [] == enc;
    FrameLaw(frame, []);
  }

  /** Read frames until the source is empty. */
  function DecodeAll(r: Bytes): Common.Result<seq<Frame>, WireError>
    decreases |r|
  {
    if r == [] then Ok([]) else
      var (frame, r') :- Decode(r);
      var frames :- DecodeAll(r');
      Ok([frame] + frames)
  }

  function EncodeAll(frames: seq<Frame>): Common.Result<Bytes, WireError> {
    if frames == [] then Ok([]) else
      var head :- Encode(frames[0]);
      var tail :- EncodeAll(frames[1..]);
      Ok(head + tail)
  }

  /** Concatenated frames come back in order. */
  lemma {:induction false} FramesRoundTrip(frames: seq<Frame>)
    requires EncodeAll(frames).Ok?
    ensures DecodeAll(EncodeAll(frames).value) == Ok(frames)
  {
    if frames != [] {
      hide Decode, Header;
      var tail := EncodeAll(frames[1..]).value;
      FrameLaw(frames[0], tail);
      FramesRoundTrip(frames[1..]);
      assert [frames[0]] + frames[1..] == frames;
      assert Encode(frames[0]).value + tail != [];
    }
  }

  /** The blocking reader learns the length first, then reads the frame into one
      buffer and decodes that in place. */
  method ReadFrameSync(source: Bytes) returns (r: Read<Frame>)
    ensures r.Ok? <==> Decode(source).Ok?
    ensures r.Ok? ==> r == Decode(source)
  {
    if |source| < HEADER_LEN {
      return Err(UnexpectedEof);
    }
    var header := source[..HEADER_LEN];
    var n := FromBe32(header[24..28]);
    if n > MAX_PAYLOAD {
      return Err(PayloadTooLarge);
    }
    if |source| - HEADER_LEN < n {
      return Err(UnexpectedEof);
    }
    var bytes, rest := source[..HEADER_LEN + n], source[HEADER_LEN + n..];
    InPlaceDecode(source, n);
    var decoded := Decode(bytes);
    return match decoded case Ok((frame, _)) => Ok((frame, rest)) case Err(e) => Err(e);
  }

  lemma InPlaceDecode(source: Bytes, n: nat)
    requires |source| >= HEADER_LEN + n && n == FromBe32(source[..HEADER_LEN][24..28]) <= MAX_PAYLOAD
    ensures var d := Decode(source[..HEADER_LEN + n]);
            match Decode(source)
            case Ok((frame, rest)) => d == Ok((frame, [])) && rest == source[HEADER_LEN + n..]
            case Err(_) => d.Err?
  {
    hide FromBe32, ParseKind;
    var b := source[..HEADER_LEN + n];
    assert b[..HEADER_LEN] == source[..HEADER_LEN];
    assert b[HEADER_LEN..] == source[HEADER_LEN..][..n];
    assert source[HEADER_LEN..][n..] == source[HEADER_LEN + n..];
    assert b[HEADER_LEN..][..n] == b[HEADER_LEN..] && b[HEADER_LEN..][n..] == [];
  }
}
