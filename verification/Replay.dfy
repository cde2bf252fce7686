/**
 The recording round trip. Under every sequence of `end_of_stream`, `recv_frame` and
 `jump_to_first_frame` calls, the reader of a recording answers exactly as a cursor over the list of
 recorded frames does.
 */
module Replay {
  import opened Bytes
  import opened CodedStream
  import opened PointCloudData
  import opened PointCloudRecord
  import opened PointCloudStream

  datatype Call = AskEnd | Recv | Jump

  datatype Answer<+F> = IsEnd(ended: bool) | Got(frame: F) | AtEnd | Jumped | Broken

  // ----- the simple form: a position in a list of frames

  datatype ListCursor<+F> = ListCursor(next: nat, last: F)

  function ListStep<F>(frames: seq<Frame>, convert: (Frame, F) -> F, s: ListCursor<F>, call: Call)
    : (ListCursor<F>, Answer<F>)
    requires s.next <= |frames|
  {
    match call
    case AskEnd => (s, IsEnd(s.next == |frames|))
    case Recv =>
      if s.next == |frames| then (s, AtEnd)
      else
        var f := convert(frames[s.next], s.last);
        (ListCursor(s.next + 1, f), Got(f))
    case Jump => (s.(next := 0), Jumped)
  }

  function ListRun<F>(frames: seq<Frame>, convert: (Frame, F) -> F, s: ListCursor<F>, calls: seq<Call>)
    : seq<Answer<F>>
    requires s.next <= |frames|
    decreases |calls|
  {
    if calls == [] then []
    else
      var (s', a) := ListStep(frames, convert, s, calls[0]);
      [a] + ListRun(frames, convert, s', calls[1..])
  }

  // ----- the real form: the stream reader

  datatype Player<+F> = Player(reader: Reader, last: F)

  function ReaderStep<F>(codec: Codec, file: seq<byte>, offsetData: nat, convert: (Frame, F) -> F, p: Player<F>,
                         call: Call)
    : (Player<F>, Answer<F>)
  {
    match call
    case AskEnd =>
      var b := Buffer(codec, file, p.reader);
      if b.None? then (p, Broken) else (p.(reader := b.value), IsEnd(Ended(b.value)))
    case Recv =>
      var b := Buffer(codec, file, p.reader);
      if b.None? then (p, Broken)
      else if Ended(b.value) then (p.(reader := b.value), AtEnd)
      else
        var f := convert(FrameOf(b.value.data), p.last);
        (Player(b.value.(buffered := false), f), Got(f))
    case Jump =>
      var r := ReadStream(codec, file, p.reader.(cursor := At(file, offsetData)));
      if r.None? then (p, Broken) else (p.(reader := r.value), Jumped)
  }

  function ReaderRun<F>(codec: Codec, file: seq<byte>, offsetData: nat, convert: (Frame, F) -> F, p: Player<F>,
                        calls: seq<Call>)
    : seq<Answer<F>>
    decreases |calls|
  {
    if calls == [] then []
    else
      var (p', a) := ReaderStep(codec, file, offsetData, convert, p, calls[0]);
      [a] + ReaderRun(codec, file, offsetData, convert, p', calls[1..])
  }

  /** The same run made on the object. */
  method Drive<F(0)>(stream: PointCloudStream<F>, calls: seq<Call>) returns (answers: seq<Answer<F>>)
    modifies stream
    ensures var run := ReaderRun(stream.codec, stream.file, old(stream.offsetData), stream.convert,
                                 Player(old(stream.State()), old(stream.frame)), calls);
            Broken !in run ==> answers == run
  {
    hide ReaderStep, ReaderRun;
    answers := [];
    ghost var start := Player(stream.State(), stream.frame);
    for i := 0 to |calls|
      invariant stream.offsetData == old(stream.offsetData)
      invariant ReaderRun(stream.codec, stream.file, stream.offsetData, stream.convert, start, calls) ==
                answers + ReaderRun(stream.codec, stream.file, stream.offsetData, stream.convert,
                                    Player(stream.State(), stream.frame), calls[i..])
    {
      ghost var before := Player(stream.State(), stream.frame);
      RunFrom(stream.codec, stream.file, stream.offsetData, stream.convert, before, calls, i);
      var answer := Perform(stream, calls[i]);
      answers := answers + [answer];
      if answer == Broken {
        return;
      }
    }
    NoMoreCalls(stream.codec, stream.file, stream.offsetData, stream.convert, Player(stream.State(), stream.frame));
    assert calls[|calls|..] == [];
  }

  lemma NoMoreCalls<F>(codec: Codec, file: seq<byte>, offsetData: nat, convert: (Frame, F) -> F, p: Player<F>)
    ensures ReaderRun(codec, file, offsetData, convert, p, []) == []
  {
  }

  /** One call on the object. */
  method Perform<F(0)>(stream: PointCloudStream<F>, call: Call) returns (a: Answer<F>)
    modifies stream
    ensures stream.offsetData == old(stream.offsetData)
    ensures var (p, b) := ReaderStep(stream.codec, stream.file, old(stream.offsetData), stream.convert,
                                     Player(old(stream.State()), old(stream.frame)), call);
            a == b && (a != Broken ==> Player(stream.State(), stream.frame) == p)
  {
    hide Buffer, ReadStream, At, Ended;
    match call {
      case AskEnd =>
        var ok, ended := stream.EndOfStream();
        a := if ok then IsEnd(ended) else Broken;
      case Recv =>
        var r := stream.RecvFrame();
        a := if r == Corrupt then Broken else if r == EndReached then AtEnd else Got(r.frame);
      case Jump =>
        var ok := stream.JumpToFirstFrame();
        a := if ok then Jumped else Broken;
    }
  }

  lemma RunFrom<F>(codec: Codec, file: seq<byte>, offsetData: nat, convert: (Frame, F) -> F, p: Player<F>,
                   calls: seq<Call>, i: nat)
    requires i < |calls|
    ensures var (p', a) := ReaderStep(codec, file, offsetData, convert, p, calls[i]);
            ReaderRun(codec, file, offsetData, convert, p, calls[i..])
            == [a] + ReaderRun(codec, file, offsetData, convert, p', calls[i + 1..])
  {
    hide ReaderStep;
    assert calls[i..][0] == calls[i] && calls[i..][1..] == calls[i + 1..];
  }

  // ----- which frames a recording plays

  /** Replay stops before the first empty record and before the first record that has a footer. */
  function PlayLength(ds: seq<Data>, k: nat): (n: nat)
    requires k <= |ds|
    ensures k <= n <= |ds|
    ensures forall i :: k <= i < n ==> ds[i] != NO_DATA && ds[i].footer.None?
    ensures n < |ds| ==> ds[n] == NO_DATA || ds[n].footer.Some?
    decreases |ds| - k
  {
    if k == |ds| || ds[k] == NO_DATA || ds[k].footer.Some? then k else PlayLength(ds, k + 1)
  }

  function FramesIn(ds: seq<Data>): (frames: seq<Frame>)
    ensures |frames| == PlayLength(ds, 0)
  {
    seq(PlayLength(ds, 0), i requires 0 <= i < PlayLength(ds, 0) => FrameOf(ds[i]))
  }

  // ----- what the reader knows at position i

  ghost predicate Unread(codec: Codec, header: Header, ds: seq<Data>, r: Reader, i: nat)
    requires i <= |ds|
  {
    !r.buffered && r.cursor == Cursor(Offset(codec, header, ds, i), NO_LIMIT)
  }

  ghost predicate Loaded(codec: Codec, header: Header, ds: seq<Data>, r: Reader, i: nat)
    requires i <= |ds|
  {
    r.buffered && i < |ds| && r.data == ds[i] && ds[i] != NO_DATA
    && r.cursor == Cursor(Offset(codec, header, ds, i + 1), NO_LIMIT)
  }

  /** The exhausted limit stays in place, so nothing can be read any more. */
  ghost predicate Exhausted(ds: seq<Data>, r: Reader, i: nat)
    requires i <= |ds|
  {
    !r.buffered && (i == |ds| || ds[i] == NO_DATA) && r.cursor.limit == r.cursor.pos < NO_LIMIT
  }

  ghost predicate Represents(codec: Codec, header: Header, ds: seq<Data>, r: Reader, i: nat) {
    i <= PlayLength(ds, 0)
    && (Unread(codec, header, ds, r, i) || Loaded(codec, header, ds, r, i) || Exhausted(ds, r, i))
  }

  // ----- one read

  lemma ReadUnread(codec: Codec, file: seq<byte>, header: Header, ds: seq<Data>, r: Reader, i: nat)
    requires IsRecording(codec, file, header, ds) && i <= |ds|
    requires r.cursor == Cursor(Offset(codec, header, ds, i), NO_LIMIT)
    ensures var b := ReadStream(codec, file, r);
            b.Some? && if i == |ds| || ds[i] == NO_DATA then Exhausted(ds, b.value, i)
                       else Loaded(codec, header, ds, b.value, i)
  {
    hide ReadLengthAndPushLimit, Recording, Visible;
    if i == |ds| {
      WholeRecording(codec, header, ds);
      ReadLengthAtEnd(file, r.cursor);
    } else {
      ReadRecord(codec, file, header, ds, i);
      OnlyNoDataIsEmpty(codec, ds[i]);
      assert codec.decodeData(codec.encodeData(ds[i])) == Some(ds[i]);
    }
  }

  lemma ReadExhausted(codec: Codec, file: seq<byte>, r: Reader)
    requires r.cursor.limit == r.cursor.pos < NO_LIMIT && !r.buffered
    ensures ReadStream(codec, file, r) == Some(r)
  {
    assert Visible(file, r.cursor) == [];
  }

  lemma BufferStep(codec: Codec, file: seq<byte>, header: Header, ds: seq<Data>, r: Reader, i: nat)
    requires IsRecording(codec, file, header, ds) && Represents(codec, header, ds, r, i)
    ensures var b := Buffer(codec, file, r);
            && b.Some?
            && Represents(codec, header, ds, b.value, i)
            && (Ended(b.value) <==> i == PlayLength(ds, 0))
            && (!Ended(b.value) ==> Loaded(codec, header, ds, b.value, i))
  {
    hide ReadLengthAndPushLimit, Recording, Visible, ReadStream;
    if r.buffered {
    } else if Unread(codec, header, ds, r, i) {
      ReadUnread(codec, file, header, ds, r, i);
    } else {
      ReadExhausted(codec, file, r);
    }
  }

  lemma AtOffset(codec: Codec, file: seq<byte>, header: Header, ds: seq<Data>)
    requires IsRecording(codec, file, header, ds)
    ensures At(file, |Delimited(codec.encodeHeader(header))|) == Cursor(Offset(codec, header, ds, 0), NO_LIMIT)
  {
    OffsetWithin(codec, header, ds, 0);
    ReadHeader(codec, file, header, ds);
  }

  // ----- the simulation

  lemma StepSimulates<F>(codec: Codec, file: seq<byte>, header: Header, ds: seq<Data>,
                         convert: (Frame, F) -> F, p: Player<F>, i: nat, call: Call)
    requires IsRecording(codec, file, header, ds) && Represents(codec, header, ds, p.reader, i)
    ensures var (p', a) := ReaderStep(codec, file, |Delimited(codec.encodeHeader(header))|, convert, p, call);
            var (s', b) := ListStep(FramesIn(ds), convert, ListCursor(i, p.last), call);
            && a == b && p'.last == s'.last && Represents(codec, header, ds, p'.reader, s'.next)
  {
    hide ReadLengthAndPushLimit, Recording, Visible, ReadStream, Delimited;
    match call {
      case AskEnd =>
        BufferStep(codec, file, header, ds, p.reader, i);
      case Recv =>
        BufferStep(codec, file, header, ds, p.reader, i);
      case Jump =>
        AtOffset(codec, file, header, ds);
        ReadUnread(codec, file, header, ds, p.reader.(cursor := At(file, |Delimited(codec.encodeHeader(header))|)), 0);
    }
  }

  lemma {:induction false} RunSimulates<F>(codec: Codec, file: seq<byte>, header: Header, ds: seq<Data>,
                                           convert: (Frame, F) -> F, p: Player<F>, i: nat, calls: seq<Call>)
    requires IsRecording(codec, file, header, ds) && Represents(codec, header, ds, p.reader, i)
    ensures ReaderRun(codec, file, |Delimited(codec.encodeHeader(header))|, convert, p, calls)
            == ListRun(FramesIn(ds), convert, ListCursor(i, p.last), calls)
    decreases |calls|
  {
    hide Represents, IsRecording, ReaderStep, Delimited;
    if calls != [] {
      assert i <= |FramesIn(ds)| by { RepresentsInRange(codec, header, ds, p.reader, i); }
      StepSimulates(codec, file, header, ds, convert, p, i, calls[0]);
      var (p', a) := ReaderStep(codec, file, |Delimited(codec.encodeHeader(header))|, convert, p, calls[0]);
      var (s', b) := ListStep(FramesIn(ds), convert, ListCursor(i, p.last), calls[0]);
      RunSimulates(codec, file, header, ds, convert, p', s'.next, calls[1..]);
    }
  }

  lemma RepresentsInRange(codec: Codec, header: Header, ds: seq<Data>, r: Reader, i: nat)
    requires Represents(codec, header, ds, r, i)
    ensures i <= |FramesIn(ds)|
  {
  }

  /** Main result, for any list of records at all: opening the file restores the header and the footer
      and stops just past the header, and from then on the reader is a cursor over the frames. */
  lemma ReplaysAnyRecording<F>(codec: Codec, file: seq<byte>, header: Header, ds: seq<Data>,
                               convert: (Frame, F) -> F, blank: F, left: Data, calls: seq<Call>)
    requires IsRecording(codec, file, header, ds)
    ensures Open(codec, file) == Some(Opened(header, FooterIn(ds), |Delimited(codec.encodeHeader(header))|))
    ensures ReaderRun(codec, file, Open(codec, file).value.offsetData, convert,
                      Player(Reader(At(file, Open(codec, file).value.offsetData), false, left), blank), calls)
            == ListRun(FramesIn(ds), convert, ListCursor(0, blank), calls)
  {
    hide ReadLengthAndPushLimit, Recording, Visible, ReaderRun, ListRun, Delimited, Open;
    OpenRecording(codec, file, header, ds);
    AtOffset(codec, file, header, ds);
    var r := Reader(At(file, |Delimited(codec.encodeHeader(header))|), false, left);
    assert Unread(codec, header, ds, r, 0);
    RunSimulates(codec, file, header, ds, convert, Player(r, blank), 0, calls);
  }

  // ----- recordings made by the recorder

  /** What `recv_frame` hands to the recorder while it is attached. */
  function FrameData(frames: seq<Frame>): (ds: seq<Data>)
    ensures |ds| == |frames|
  {
    seq(|frames|, i requires 0 <= i < |frames| => Data(Some(frames[i]), None))
  }

  /** The records a recording session writes, `finish` called or not. */
  function SessionData(frames: seq<Frame>, finished: bool): seq<Data> {
    var ds := FrameData(frames);
    if finished then ds + [FooterRecord(Summary(ds))] else ds
  }

  function SessionFile(codec: Codec, header: Header, frames: seq<Frame>, finished: bool): seq<byte> {
    Recording(codec, header, SessionData(frames, finished))
  }

  lemma {:induction false} FramesPlay(frames: seq<Frame>, tail: seq<Data>, k: nat)
    requires k <= |frames|
    requires tail == [] || (|tail| == 1 && tail[0].footer.Some?)
    ensures PlayLength(FrameData(frames) + tail, k) == |frames|
    ensures NonEmptyRun(FrameData(frames) + tail, k) == |frames| + |tail|
    decreases |frames| - k
  {
    if k < |frames| {
      FramesPlay(frames, tail, k + 1);
    } else if tail != [] {
      assert NonEmptyRun(FrameData(frames) + tail, k + 1) == k + 1;
    }
  }

  /** The round trip: exactly the recorded frames come back, in order, however the reader is driven,
      with the footer or without it. */
  lemma RecordingRoundTrip<F>(codec: Codec, header: Header, frames: seq<Frame>, finished: bool,
                              convert: (Frame, F) -> F, blank: F, left: Data, calls: seq<Call>)
    requires codec.Lossless(header, SessionData(frames, finished))
    requires |SessionFile(codec, header, frames, finished)| < NO_LIMIT
    ensures var file := SessionFile(codec, header, frames, finished);
            && Open(codec, file) == Some(Opened(header, if finished then Some(Summary(FrameData(frames))) else None,
                                                |Delimited(codec.encodeHeader(header))|))
            && ReaderRun(codec, file, Open(codec, file).value.offsetData, convert,
                         Player(Reader(At(file, Open(codec, file).value.offsetData), false, left), blank), calls)
               == ListRun(frames, convert, ListCursor(0, blank), calls)
  {
    hide Open, Recording, ReaderRun, ListRun, Delimited, Summary;
    var ds := FrameData(frames);
    var tail := if finished then [FooterRecord(Summary(ds))] else [];
    var file := SessionFile(codec, header, frames, finished);
    assert ds + [] == ds;
    FramesPlay(frames, tail, 0);
    assert FramesIn(ds + tail) == frames;
    ReplaysAnyRecording(codec, file, header, ds + tail, convert, blank, left, calls);
  }

  /** The caller's frame object after `k` more frames have been converted into it. */
  function Shown<F>(frames: seq<Frame>, convert: (Frame, F) -> F, last: F, from: nat, k: nat): F
    requires from + k <= |frames|
    decreases k
  {
    if k == 0 then last else Shown(frames, convert, convert(frames[from], last), from + 1, k - 1)
  }

  /** Read without jumping, the list cursor yields each frame once, in order, and then stays at the end. */
  lemma {:induction false} PlainReplay<F>(frames: seq<Frame>, convert: (Frame, F) -> F, last: F, from: nat,
                                          count: nat, k: nat)
    requires from <= |frames| && k < count
    ensures var answers := ListRun(frames, convert, ListCursor(from, last), seq(count, _ => Recv));
            && |answers| == count
            && answers[k] == if from + k < |frames| then Got(Shown(frames, convert, last, from, k + 1)) else AtEnd
    decreases count
  {
    var calls := seq(count, _ => Recv);
    var (s', a) := ListStep(frames, convert, ListCursor(from, last), Recv);
    assert calls[1..] == seq(count - 1, _ => Recv);
    if k > 0 {
      PlainReplay(frames, convert, s'.last, s'.next, count - 1, k - 1);
    } else if count > 1 {
      PlainReplay(frames, convert, s'.last, s'.next, count - 1, 0);
    }
  }

  /** Where the list cursor stands after some calls. */
  function ListState<F>(frames: seq<Frame>, convert: (Frame, F) -> F, s: ListCursor<F>, calls: seq<Call>)
    : (t: ListCursor<F>)
    requires s.next <= |frames|
    ensures t.next <= |frames|
    decreases |calls|
  {
    if calls == [] then s else ListState(frames, convert, ListStep(frames, convert, s, calls[0]).0, calls[1..])
  }

  lemma {:induction false} ListRunConcat<F>(frames: seq<Frame>, convert: (Frame, F) -> F, s: ListCursor<F>,
                                            a: seq<Call>, b: seq<Call>)
    requires s.next <= |frames|
    ensures |ListRun(frames, convert, s, a)| == |a|
    ensures ListRun(frames, convert, s, a + b) ==
              ListRun(frames, convert, s, a) + ListRun(frames, convert, ListState(frames, convert, s, a), b)
    decreases |a|
  {
    if a == [] {
      assert a + b == b;
    } else {
      assert (a + b)[1..] == a[1..] + b;
      ListRunConcat(frames, convert, ListStep(frames, convert, s, a[0]).0, a[1..], b);
    }
  }

  lemma {:induction false} EndAfter<F>(frames: seq<Frame>, convert: (Frame, F) -> F, s: ListCursor<F>, count: nat)
    requires s.next <= |frames|
    ensures ListState(frames, convert, s, seq(count, _ => Recv)).next
         == if s.next + count <= |frames| then s.next + count else |frames|
    decreases count
  {
    if count > 0 {
      var calls := seq<Call>(count, _ => Recv);
      assert calls[1..] == seq(count - 1, _ => Recv);
      EndAfter(frames, convert, ListStep(frames, convert, s, Recv).0, count - 1);
    }
  }

  /** Whatever was called before, a jump starts over: the frames come again from the first, and the end is
      reached exactly when as many have been read as there are. */
  lemma JumpStartsOver<F>(frames: seq<Frame>, convert: (Frame, F) -> F, s: ListCursor<F>, earlier: seq<Call>,
                          count: nat, k: nat)
    requires s.next <= |frames| && k < count
    ensures var last := ListState(frames, convert, s, earlier).last;
            var answers := ListRun(frames, convert, s, earlier + ([Jump] + (seq(count, _ => Recv) + [AskEnd])));
            && |answers| == |earlier| + count + 2 && answers[|earlier|] == Jumped
            && answers[|earlier| + 1 + k] ==
                 (if k < |frames| then Got(Shown(frames, convert, last, 0, k + 1)) else AtEnd)
            && answers[|earlier| + 1 + count] == IsEnd(count >= |frames|)
  {
    var receives: seq<Call> := seq(count, _ => Recv);
    var before := ListState(frames, convert, s, earlier);
    var t := before.(next := 0);
    ListRunConcat(frames, convert, s, earlier, [Jump] + (receives + [AskEnd]));
    assert ([Jump] + (receives + [AskEnd]))[1..] == receives + [AskEnd];
    ListRunConcat(frames, convert, t, receives, [AskEnd]);
    PlainReplay(frames, convert, before.last, 0, count, k);
    EndAfter(frames, convert, t, count);
    assert [AskEnd][1..] == [];
  }

  /** Recorder and reader objects back to back. */
  method RecordAndPlay<F(0)>(codec: Codec, device: DeviceHeader, libraryVersion: string, now: uint64,
                             frames: seq<Frame>, finishes: nat, convert: (Frame, F) -> F, blank: F, calls: seq<Call>)
    returns (header: Option<Header>, footer: Option<Footer>, answers: seq<Answer<F>>)
    requires codec.Lossless(Header(device, libraryVersion, now), SessionData(frames, finishes > 0))
    requires |SessionFile(codec, Header(device, libraryVersion, now), frames, finishes > 0)| < NO_LIMIT
    ensures header == Some(Header(device, libraryVersion, now))
    ensures footer == if finishes > 0 then Some(Summary(FrameData(frames))) else None
    ensures answers == ListRun(frames, convert, ListCursor(0, blank), calls)
  {
    hide ReadLengthAndPushLimit, Recording, Visible, ReaderRun, ListRun, Delimited, Open, Summary;
    var file := RecordSession(codec, device, libraryVersion, now, FrameData(frames), finishes);
    var stream := new PointCloudStream<F>(codec, file, convert, blank);
    RecordingRoundTrip(codec, Header(device, libraryVersion, now), frames, finishes > 0, convert, blank, NO_DATA, []);
    var ok := stream.OpenFile();
    header, footer := stream.header, stream.footer;
    RecordingRoundTrip(codec, Header(device, libraryVersion, now), frames, finishes > 0, convert, blank, stream.data,
                       calls);
    NeverBroken(frames, convert, ListCursor(0, blank), calls);
    answers := Drive(stream, calls);
  }

  lemma {:induction false} NeverBroken<F>(frames: seq<Frame>, convert: (Frame, F) -> F, s: ListCursor<F>,
                                          calls: seq<Call>)
    requires s.next <= |frames|
    ensures Broken !in ListRun(frames, convert, s, calls)
    decreases |calls|
  {
    if calls != [] {
      NeverBroken(frames, convert, ListStep(frames, convert, s, calls[0]).0, calls[1..]);
    }
  }
}
