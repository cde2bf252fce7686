/** The messages of the point cloud protocol that the model uses. */
module PointCloudData {
  import opened Bytes

  datatype FrameMode = NONE | COMBINE_UP_DOWN | ONLY_UP | ONLY_DOWN | SEPARATE

  /** A `float` is represented by its 32 bits and a `double` by its 64: the code only moves and
      byte-swaps them. */
  type Float = uint32
  type Double = uint64

  datatype ScanPattern = ScanPattern(
    frameMode: FrameMode, scanlinesUp: uint32, scanlinesDown: uint32, frameRate: Double)

  /** What `scan_pattern()` yields for a message in which the field is not set. */
  const DEFAULT_PATTERN := ScanPattern(COMBINE_UP_DOWN, 40, 40, 0)

  datatype Return = Return(id: uint32, cartesian: seq<Float>, range: Float, intensity: uint32)

  /** The fields of a point other than its returns. */
  datatype PointHead = PointHead(
    id: uint32, ambient: uint32, startOffsetNs: uint64, channelId: uint32, direction: Option<(Float, Float)>)

  datatype Point = Point(head: PointHead, rets: seq<Return>)

  datatype Scanline = Scanline(id: uint64, startOffsetNs: uint64, points: seq<Point>)

  /** Flat big-endian arrays; None where the optional field is not set. */
  datatype Packed = Packed(
    length: uint32,
    cartesian: Option<seq<byte>>, direction: Option<seq<byte>>, range: Option<seq<byte>>,
    intensity: Option<seq<byte>>, ambient: Option<seq<byte>>, startOffsetNs: Option<seq<byte>>,
    pointId: Option<seq<byte>>, channelId: Option<seq<byte>>, returnId: Option<seq<byte>>)

  datatype Frame = Frame(
    id: uint64, startTimeNs: uint64, scanPattern: Option<ScanPattern>, isRampUpPhase: bool,
    totalPoints: uint32, totalReturns: uint32, scanlines: seq<Scanline>, packed: Option<Packed>)

  const DEFAULT_FRAME := Frame(0, 0, None, false, 0, 0, [], None)

  function PatternOf(f: Frame): ScanPattern {
    if f.scanPattern.Some? then f.scanPattern.value else DEFAULT_PATTERN
  }

  // ----- the recording file

  type DeviceHeader = seq<byte>

  datatype Header = Header(device: DeviceHeader, libraryVersion: string, fileTimeNs: uint64)

  datatype Counter = Counter(frames: uint64, points: uint64, rets: uint64)

  datatype Event = Event(fromFrameId: uint64, pattern: ScanPattern)

  datatype Footer = Footer(stats: Option<Counter>, events: seq<Event>)

  const EMPTY_FOOTER := Footer(None, [])

  datatype Data = Data(frame: Option<Frame>, footer: Option<Footer>)

  function FrameOf(d: Data): Frame {
    if d.frame.Some? then d.frame.value else DEFAULT_FRAME
  }

  /** The message with no field set. */
  const NO_DATA := Data(None, None)

  /** Message encoding. Field encoding is outside this model: any codec will do that reads back what it
      wrote and, as protobuf does, writes nothing at all for a message with no field set.
      Decoding answers None for octets that are not a message. */
  datatype Codec = Codec(
    encodeHeader: Header -> seq<byte>, decodeHeader: seq<byte> -> Option<Header>,
    encodeData: Data -> seq<byte>, decodeData: seq<byte> -> Option<Data>)
  {
    /** The messages of one recording, and the message with no field set, come back. */
    ghost predicate Lossless(header: Header, ds: seq<Data>) {
      && decodeHeader(encodeHeader(header)) == Some(header)
      && (forall i :: 0 <= i < |ds| ==> ReadsBack(ds[i]))
      && ReadsBack(NO_DATA) && encodeData(NO_DATA) == []
    }

    ghost predicate ReadsBack(d: Data) {
      decodeData(encodeData(d)) == Some(d)
    }
  }

  /** The place of a record in a list, counted from one; zero for the empty message and for strangers. */
  function Place(ds: seq<Data>, d: Data): (n: nat)
    ensures n <= |ds|
    ensures n > 0 ==> ds[n - 1] == d && d != NO_DATA
    ensures d in ds && d != NO_DATA ==> n > 0
  {
    if ds == [] || d == NO_DATA then 0
    else if ds[|ds| - 1] == d then |ds|
    else Place(ds[..|ds| - 1], d)
  }

  /** There is such a codec for every recording: number the records, and write a record's number in unary. */
  lemma LosslessCodecExists(header: Header, ds: seq<Data>)
    ensures exists codec: Codec ::
              codec.Lossless(header, ds) && forall i :: 0 <= i < |ds| ==> |codec.encodeData(ds[i])| <= |ds|
  {
    var codec := Codec(
      _ => [], _ => Some(header),
      d => seq(Place(ds, d), _ => 0),
      octets => if 0 < |octets| <= |ds| then Some(ds[|octets| - 1]) else Some(NO_DATA));
    assert codec.Lossless(header, ds);
  }
}
