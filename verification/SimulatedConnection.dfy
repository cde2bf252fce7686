/**
 The simulated connection: a dump thread replays a recording, over and over, into a response buffer that
 `recv` drains. Steps are atomic under the response mutex.
 */
module SimulatedConnection {
  import opened Bytes
  import opened CodedStream
  import opened PointCloudData
  import opened PointCloudRecord
  import opened PointCloudStream
  import opened Replay
  import Scanlines

  datatype Request = Request(hello: bool, proxyHello: bool, subscribeStatus: bool, subscribePointCloud: bool)

  datatype Response =
    | HelloReply | ProxyHelloReply | StatusEvent
    | HeaderEvent(device: DeviceHeader) | FrameEvent(frame: Frame)
    | NotImplemented

  /** The fields of a response exclude each other, so the last one set remains. */
  function ReplyTo(req: Request, device: DeviceHeader): Response {
    if req.subscribePointCloud then HeaderEvent(device)
    else if req.subscribeStatus then StatusEvent
    else if req.proxyHello then ProxyHelloReply
    else if req.hello then HelloReply
    else NotImplemented
  }

  /** What stays the same while the connection lives. `convert` is the stream's frame conversion,
      `process` the frame processor. */
  datatype Setup = Setup(codec: Codec, file: seq<byte>, offsetData: nat, device: DeviceHeader, loop: bool,
                         convert: Frame -> Frame, process: Frame -> Frame)
  {
    function Convert(): (Frame, Frame) -> Frame {
      var c := convert;
      (f: Frame, was: Frame) => c(f)
    }
  }

  datatype Sim = Sim(player: Player<Frame>, buffer: seq<Response>, dumping: bool, died: bool)

  function Sent(u: Setup, s: Sim, req: Request): Sim {
    s.(buffer := s.buffer + [ReplyTo(req, u.device)], dumping := s.dumping || req.subscribePointCloud)
  }

  function Drained(s: Sim): Sim
    requires s.buffer != []
  {
    s.(buffer := s.buffer[1..])
  }

  function StreamStep(u: Setup, p: Player<Frame>, call: Call): (Player<Frame>, Answer<Frame>) {
    ReaderStep(u.codec, u.file, u.offsetData, u.Convert(), p, call)
  }

  /** One iteration of the dump thread. An exception there ends the program. */
  function Dumped(u: Setup, s: Sim): Sim {
    var (p, a) := StreamStep(u, s.player, AskEnd);
    if !a.IsEnd? then s.(died := true, dumping := false)
    else if a.ended && !u.loop then s.(player := p, dumping := false)
    else
      var (q, b) := if a.ended then StreamStep(u, p, Jump) else (p, Jumped);
      if b == Broken then s.(player := q, died := true, dumping := false)
      else
        var (r, c) := StreamStep(u, q, Recv);
        if !c.Got? then s.(player := r, died := true, dumping := false)
        else s.(player := r, buffer := s.buffer + [FrameEvent(u.process(c.frame))])
  }

  // ----- the object

  class SimulatedConnection {
    const dumpStream: PointCloudStream<Frame>
    const setup: Setup
    var responseBuffer: seq<Response>
    var dumping: bool
    var died: bool

    ghost predicate Valid()
      reads this, dumpStream
    {
      && dumpStream.codec == setup.codec && dumpStream.file == setup.file
      && dumpStream.offsetData == setup.offsetData && dumpStream.convert == setup.Convert()
      && dumpStream.header.Some? && dumpStream.header.value.device == setup.device
    }

    function State(): Sim
      reads this, dumpStream
    {
      Sim(Player(dumpStream.State(), dumpStream.frame), responseBuffer, dumping, died)
    }

    constructor (dumpStream: PointCloudStream<Frame>, setup: Setup)
      requires dumpStream.codec == setup.codec && dumpStream.file == setup.file
      requires dumpStream.offsetData == setup.offsetData && dumpStream.convert == setup.Convert()
      requires dumpStream.header.Some? && dumpStream.header.value.device == setup.device
      ensures Valid() && this.dumpStream == dumpStream && this.setup == setup
      ensures responseBuffer == [] && !dumping && !died
    {
      this.dumpStream, this.setup := dumpStream, setup;
      responseBuffer, dumping, died := [], false, false;
    }

    method Recv() returns (resp: Response)
      requires responseBuffer != []
      modifies `responseBuffer
      ensures State() == Drained(old(State())) && resp == old(responseBuffer)[0]
    {
      resp := responseBuffer[0];
      responseBuffer := responseBuffer[1..];
    }

    /** The device of the header event is the one in the recording's header. */
    method Send(req: Request)
      requires Valid()
      modifies `responseBuffer, `dumping
      ensures Valid() && State() == Sent(setup, old(State()), req)
      ensures req.subscribePointCloud ==>
                dumping && responseBuffer == old(responseBuffer) + [HeaderEvent(dumpStream.header.value.device)]
    {
      var resp := NotImplemented;
      if req.hello {
        resp := HelloReply;
      }
      if req.proxyHello {
        resp := ProxyHelloReply;
      }
      if req.subscribeStatus {
        resp := StatusEvent;
      }
      if req.subscribePointCloud {
        resp := HeaderEvent(dumpStream.header.value.device);
        dumping := true;
      }
      responseBuffer := responseBuffer + [resp];
    }

    method DumpOnce()
      requires Valid() && !died
      modifies this, dumpStream
      ensures Valid()
      ensures Dumped(setup, old(State())).died ==> died && !dumping
      ensures !Dumped(setup, old(State())).died ==> State() == Dumped(setup, old(State()))
    {
      hide Buffer, ReadStream, At, Ended;
      var ok, ended := dumpStream.EndOfStream();
      if !ok {
        died, dumping := true, false;
        return;
      }
      if ended {
        if !setup.loop {
          dumping := false;
          return;
        }
        ok := dumpStream.JumpToFirstFrame();
        if !ok {
          died, dumping := true, false;
          return;
        }
      }
      var r := dumpStream.RecvFrame();
      if !r.Received? {
        died, dumping := true, false;
        return;
      }
      responseBuffer := responseBuffer + [FrameEvent(setup.process(r.frame))];
    }
  }

  // ----- runs

  datatype Step = Send(req: Request) | Deliver | Dump

  /** The state and the history of everything pushed and delivered. */
  datatype World = World(sim: Sim, pushed: seq<Response>, delivered: seq<Response>)

  predicate Enabled(w: World, step: Step) {
    match step
    case Send(req) => req.subscribePointCloud ==> forall i :: 0 <= i < |w.pushed| ==> !w.pushed[i].HeaderEvent?
    case Deliver => w.sim.buffer != []
    case Dump => w.sim.dumping
  }

  function Next(u: Setup, w: World, step: Step): World
    requires Enabled(w, step)
  {
    match step
    case Send(req) => w.(sim := Sent(u, w.sim, req), pushed := w.pushed + [ReplyTo(req, u.device)])
    case Deliver => w.(sim := Drained(w.sim), delivered := w.delivered + [w.sim.buffer[0]])
    case Dump =>
      var sim := Dumped(u, w.sim);
      w.(sim := sim, pushed := w.pushed + sim.buffer[|w.sim.buffer|..])
  }

  predicate Runs(u: Setup, w: World, steps: seq<Step>)
    decreases |steps|
  {
    steps == [] || (Enabled(w, steps[0]) && Runs(u, Next(u, w, steps[0]), steps[1..]))
  }

  function After(u: Setup, w: World, steps: seq<Step>): World
    requires Runs(u, w, steps)
    decreases |steps|
  {
    if steps == [] then w else After(u, Next(u, w, steps[0]), steps[1..])
  }

  // ----- the replies

  /** Each request is answered by exactly one response: the header event for a point cloud subscription, else
      the status event for a status subscription, else the reply to a proxy hello, else to a hello, and an
      error when it asks for none of these. Only a point cloud subscription starts the thread. */
  lemma OneReplyEach(u: Setup, s: Sim, req: Request)
    ensures var t := Sent(u, s, req);
            && |t.buffer| == |s.buffer| + 1 && t.buffer[..|s.buffer|] == s.buffer
            && t.player == s.player && t.died == s.died && (t.dumping <==> s.dumping || req.subscribePointCloud)
    ensures var reply := Sent(u, s, req).buffer[|s.buffer|];
            && (reply == HeaderEvent(u.device) <==> req.subscribePointCloud)
            && (reply == StatusEvent <==> req.subscribeStatus && !req.subscribePointCloud)
            && (reply == ProxyHelloReply <==>
                  req.proxyHello && !req.subscribeStatus && !req.subscribePointCloud)
            && (reply == HelloReply <==>
                  req.hello && !req.proxyHello && !req.subscribeStatus && !req.subscribePointCloud)
            && (reply == NotImplemented <==>
                  !req.hello && !req.proxyHello && !req.subscribeStatus && !req.subscribePointCloud)
  {
  }

  predicate HeadersShow(rs: seq<Response>, device: DeviceHeader) {
    forall i :: 0 <= i < |rs| && rs[i].HeaderEvent? ==> rs[i].device == device
  }

  lemma StepShowsDevice(u: Setup, w: World, step: Step)
    requires Enabled(w, step) && HeadersShow(w.pushed, u.device)
    ensures HeadersShow(Next(u, w, step).pushed, u.device)
  {
    hide StreamStep;
    if step.Dump? {
      var sim := Dumped(u, w.sim);
      assert sim.buffer[..|w.sim.buffer|] == w.sim.buffer && |sim.buffer| <= |w.sim.buffer| + 1;
    }
  }

  /** In every run the header events carry the device of the recording. */
  lemma {:induction false} HeadersShowDevice(u: Setup, w: World, steps: seq<Step>)
    requires Runs(u, w, steps) && HeadersShow(w.pushed, u.device)
    ensures HeadersShow(After(u, w, steps).pushed, u.device)
    decreases |steps|
  {
    hide HeadersShow, Next;
    if steps != [] {
      StepShowsDevice(u, w, steps[0]);
      HeadersShowDevice(u, Next(u, w, steps[0]), steps[1..]);
    }
  }

  // ----- what a run pushes

  function FramesPushed(rs: seq<Response>): seq<Frame> {
    if rs == [] then []
    else FramesPushed(rs[..|rs| - 1]) + if rs[|rs| - 1].FrameEvent? then [rs[|rs| - 1].frame] else []
  }

  lemma FramesPushedSnoc(rs: seq<Response>, r: Response)
    ensures FramesPushed(rs + [r]) == FramesPushed(rs) + if r.FrameEvent? then [r.frame] else []
  {
    assert (rs + [r])[..|rs + [r]| - 1] == rs;
  }

  /** The k-th frame a client should see. */
  function FrameShown(u: Setup, frames: seq<Frame>, k: nat): Frame
    requires frames != []
  {
    u.process(u.convert(frames[k % |frames|]))
  }

  /** The header response comes before every frame, and before it the thread does not run. */
  ghost predicate HeaderFirst(w: World) {
    && (forall i :: 0 <= i < |w.pushed| && w.pushed[i].FrameEvent? ==>
          exists h :: 0 <= h < i && w.pushed[h].HeaderEvent?)
    && (w.sim.dumping ==> exists h :: 0 <= h < |w.pushed| && w.pushed[h].HeaderEvent?)
  }

  /** Where the reader stands after `k` frames: it wraps lazily, on the next frame after the last. */
  function Position(n: nat, k: nat): (i: nat)
    requires n > 0
    ensures i <= n
  {
    if k == 0 then 0 else (k - 1) % n + 1
  }

  ghost predicate Replaying(u: Setup, header: Header, ds: seq<Data>, w: World) {
    var frames := FramesIn(ds);
    var k := |FramesPushed(w.pushed)|;
    && IsRecording(u.codec, u.file, header, ds) && u.offsetData == |Delimited(u.codec.encodeHeader(header))|
    && frames != []
    && w.delivered + w.sim.buffer == w.pushed
    && (forall j :: 0 <= j < k ==> FramesPushed(w.pushed)[j] == FrameShown(u, frames, j))
    && HeaderFirst(w)
    && !w.sim.died
    && (!u.loop ==> k <= |frames|)
    && (!u.loop && !w.sim.dumping && k > 0 ==> k == |frames|)
    && Represents(u.codec, header, ds, w.sim.player.reader, if u.loop then Position(|frames|, k) else k)
  }

  lemma RemainderUnique(a: nat, q: nat, n: nat, r: nat)
    requires r < n && a == q * n + r
    ensures a % n == r
  {
    var p := a / n;
    assert a == p * n + a % n;
    if p < q {
      Scanlines.StrictlyMonotone(p, q, n);
    } else if q < p {
      Scanlines.StrictlyMonotone(q, p, n);
    }
  }

  lemma WrapAround(n: nat, k: nat)
    requires n > 0
    ensures Position(n, k) == n ==> k % n == 0 && Position(n, k + 1) == 1
    ensures Position(n, k) < n ==> k % n == Position(n, k) && Position(n, k + 1) == Position(n, k) + 1
  {
    if k > 0 {
      var q, r := (k - 1) / n, (k - 1) % n;
      assert k - 1 == q * n + r;
      if r + 1 == n {
        assert (q + 1) * n == q * n + n;
        RemainderUnique(k, q + 1, n, 0);
      } else {
        RemainderUnique(k, q, n, r + 1);
      }
    } else {
      RemainderUnique(0, 0, n, 0);
    }
  }

  // ----- the replay theorem

  lemma DumpStep(u: Setup, header: Header, ds: seq<Data>, s: Sim, i: nat)
    requires IsRecording(u.codec, u.file, header, ds) && u.offsetData == |Delimited(u.codec.encodeHeader(header))|
    requires FramesIn(ds) != [] && !s.died && Represents(u.codec, header, ds, s.player.reader, i)
    ensures var frames, t := FramesIn(ds), Dumped(u, s);
            && i <= |frames| && !t.died
            && (i == |frames| && !u.loop ==>
                  t.buffer == s.buffer && !t.dumping && Represents(u.codec, header, ds, t.player.reader, i))
            && (i < |frames| || u.loop ==>
                  var j := if i == |frames| then 0 else i;
                  && t.buffer == s.buffer + [FrameEvent(u.process(u.convert(frames[j])))] && t.dumping == s.dumping
                  && Represents(u.codec, header, ds, t.player.reader, j + 1))
  {
    hide Represents, IsRecording, ReaderStep, Delimited;
    var frames, convert := FramesIn(ds), u.Convert();
    RepresentsInRange(u.codec, header, ds, s.player.reader, i);
    StepSimulates(u.codec, u.file, header, ds, convert, s.player, i, AskEnd);
    var (p, a) := StreamStep(u, s.player, AskEnd);
    if i < |frames| {
      StepSimulates(u.codec, u.file, header, ds, convert, p, i, Recv);
    } else if u.loop {
      StepSimulates(u.codec, u.file, header, ds, convert, p, i, Jump);
      var (q, b) := StreamStep(u, p, Jump);
      StepSimulates(u.codec, u.file, header, ds, convert, q, 0, Recv);
    }
  }

  lemma FrameAfterHeader(w: World, t: Sim, f: Frame)
    requires HeaderFirst(w) && w.sim.dumping
    ensures HeaderFirst(World(t, w.pushed + [FrameEvent(f)], w.delivered))
  {
    var pushed := w.pushed + [FrameEvent(f)];
    var h :| 0 <= h < |w.pushed| && w.pushed[h].HeaderEvent?;
    assert pushed[h].HeaderEvent?;
    forall i | 0 <= i < |pushed| && pushed[i].FrameEvent?
      ensures exists g :: 0 <= g < i && pushed[g].HeaderEvent?
    {
      if i < |w.pushed| {
        var g :| 0 <= g < i && w.pushed[g].HeaderEvent?;
        assert pushed[g].HeaderEvent?;
      }
    }
  }

  lemma DumpKeepsReplaying(u: Setup, header: Header, ds: seq<Data>, w: World)
    requires Replaying(u, header, ds, w) && w.sim.dumping
    ensures Replaying(u, header, ds, Next(u, w, Dump))
  {
    hide Represents, IsRecording, Dumped, Delimited, FramesPushed, FramesIn;
    var frames := FramesIn(ds);
    var k, n := |FramesPushed(w.pushed)|, |frames|;
    WrapAround(n, k);
    var i := if u.loop then Position(n, k) else k;
    DumpStep(u, header, ds, w.sim, i);
    var t := Dumped(u, w.sim);
    if i < n || u.loop {
      var j := if i == n then 0 else i;
      if !u.loop { RemainderUnique(k, 0, n, k); }
      assert j == k % n;
      var r := FrameEvent(u.process(u.convert(frames[j])));
      FramesPushedSnoc(w.pushed, r);
      assert t.buffer[|w.sim.buffer|..] == [r];
      assert w.delivered + (w.sim.buffer + [r]) == w.pushed + [r];
      FrameAfterHeader(w, t, r.frame);
    } else {
      assert t.buffer[|w.sim.buffer|..] == [];
      assert w.pushed + [] == w.pushed;
    }
  }

  lemma OtherKeepsReplaying(u: Setup, header: Header, ds: seq<Data>, w: World, step: Step)
    requires Replaying(u, header, ds, w) && Enabled(w, step) && !step.Dump?
    ensures Replaying(u, header, ds, Next(u, w, step))
  {
    hide Represents, IsRecording, Delimited, FramesPushed, FramesIn;
    match step {
      case Send(req) =>
        var r := ReplyTo(req, u.device);
        FramesPushedSnoc(w.pushed, r);
        assert w.delivered + (w.sim.buffer + [r]) == w.pushed + [r];
        SendKeepsHeaderFirst(u, w, req);
      case Deliver =>
        assert w.sim.buffer == [w.sim.buffer[0]] + w.sim.buffer[1..];
    }
  }

  lemma SendKeepsHeaderFirst(u: Setup, w: World, req: Request)
    requires HeaderFirst(w) && Enabled(w, Send(req))
    ensures HeaderFirst(Next(u, w, Send(req)))
  {
    var t := Next(u, w, Send(req));
    forall i | 0 <= i < |t.pushed| && t.pushed[i].FrameEvent?
      ensures exists h :: 0 <= h < i && t.pushed[h].HeaderEvent?
    {
      var h :| 0 <= h < i && w.pushed[h].HeaderEvent?;
      assert t.pushed[h].HeaderEvent?;
    }
    if t.sim.dumping {
      if req.subscribePointCloud {
        assert t.pushed[|w.pushed|].HeaderEvent?;
      } else {
        var h :| 0 <= h < |w.pushed| && w.pushed[h].HeaderEvent?;
        assert t.pushed[h].HeaderEvent?;
      }
    }
  }

  /** Main result: in every interleaving of requests, deliveries and dump iterations, the k-th frame pushed
      is frame k modulo n through the processor, the header precedes every frame, and what was delivered
      followed by what is buffered is everything pushed, in order. Without looping each frame is pushed
      once and the thread stops. */
  lemma {:induction false} ReplaysForEver(u: Setup, header: Header, ds: seq<Data>, w: World, steps: seq<Step>)
    requires Replaying(u, header, ds, w) && Runs(u, w, steps)
    ensures Replaying(u, header, ds, After(u, w, steps))
    decreases |steps|
  {
    hide Replaying;
    if steps != [] {
      if steps[0].Dump? {
        DumpKeepsReplaying(u, header, ds, w);
      } else {
        OtherKeepsReplaying(u, header, ds, w, steps[0]);
      }
      ReplaysForEver(u, header, ds, Next(u, w, steps[0]), steps[1..]);
    }
  }

  /** A freshly opened recording of at least one frame is a start for the theorem above. */
  lemma StartsReplaying(u: Setup, header: Header, frames: seq<Frame>, finished: bool, left: Data, blank: Frame)
    requires u.codec.Lossless(header, SessionData(frames, finished)) && frames != []
    requires u.file == SessionFile(u.codec, header, frames, finished) && |u.file| < NO_LIMIT
    requires u.offsetData == |Delimited(u.codec.encodeHeader(header))|
    ensures exists ds ::
              FramesIn(ds) == frames
              && var player := Player(Reader(At(u.file, u.offsetData), false, left), blank);
                 Replaying(u, header, ds, World(Sim(player, [], false, false), [], []))
  {
    hide Recording, Delimited, Summary, At;
    var tail := if finished then [FooterRecord(Summary(FrameData(frames)))] else [];
    var ds := FrameData(frames) + tail;
    assert FrameData(frames) + [] == FrameData(frames);
    FramesPlay(frames, tail, 0);
    assert FramesIn(ds) == frames;
    AtOffset(u.codec, u.file, header, ds);
    assert Unread(u.codec, header, ds, Reader(At(u.file, u.offsetData), false, left), 0);
  }

  /** A recording without frames makes the looping dump thread throw: there is nothing to rewind to. */
  lemma EmptyRecordingKillsDump(u: Setup, header: Header, ds: seq<Data>, s: Sim)
    requires IsRecording(u.codec, u.file, header, ds) && u.offsetData == |Delimited(u.codec.encodeHeader(header))|
    requires Represents(u.codec, header, ds, s.player.reader, 0) && !s.died && u.loop
    ensures Dumped(u, s).died <==> FramesIn(ds) == []
  {
    hide Represents, IsRecording, ReaderStep, Delimited;
    if FramesIn(ds) != [] {
      DumpStep(u, header, ds, s, 0);
    } else {
      StepSimulates(u.codec, u.file, header, ds, u.Convert(), s.player, 0, AskEnd);
      var (p, a) := StreamStep(u, s.player, AskEnd);
      StepSimulates(u.codec, u.file, header, ds, u.Convert(), p, 0, Jump);
      var (q, b) := StreamStep(u, p, Jump);
      StepSimulates(u.codec, u.file, header, ds, u.Convert(), q, 0, Recv);
    }
  }
}
