/**
 The V4L2 grab loop: buffers change hands between the driver and the application, and frames are
 published with timestamps relative to the first one.
 */
module VideoCapture {
  import opened Bytes

  /** `bytesused` of the structure before anything was dequeued, and after every failed turn. */
  const UNUSED: uint32 := 0xFFFF_FFFF

  /** The fields of `v4l2_buffer` that the loop reads. */
  datatype Buffer = Buffer(index: uint32, bytesUsed: uint32, length: uint32, timestampUs: uint64)

  /** What the driver does with a dequeue request. A failure leaves the structure as it was. */
  datatype Dequeue = Fails | Delivers(buffer: Buffer)

  /** One turn of the loop as the environment sees it: the driver's answer, the wall clock, and whether
      the frame and the buffer are mapped. */
  datatype Turn = Turn(dequeue: Dequeue, wall: uint64, mapped: bool)

  datatype Published = Published(frameId: nat, timestamp: uint64, source: nat)

  /** Timestamps in nanoseconds since the first frame's, in 64-bit arithmetic. */
  function FrameTimestamp(start: uint64, first: uint64, now: uint64): uint64 {
    Wrap64(start + Wrap64(Wrap64(now + TWO_64 - first) * 1000))
  }

  /** The clock does not run out of bits between the first frame and this one. */
  predicate InRange(start: uint64, first: uint64, now: uint64) {
    first <= now && start + (now - first) * 1000 < TWO_64
  }

  lemma TimestampValue(start: uint64, first: uint64, now: uint64)
    requires InRange(start, first, now)
    ensures FrameTimestamp(start, first, now) == start + (now - first) * 1000
  {
    hide Wrap64;
    var d := now - first;
    Wrapped(d);
    Wrap64Identity(d * 1000);
    Wrap64Identity(start + d * 1000);
  }

  lemma Wrapped(d: nat)
    requires d < TWO_64
    ensures Wrap64(d + TWO_64) == d
  {
  }

  class Capture {
    const bufferCount: nat
    // the driver
    var queued: set<nat>
    // the grab thread
    var buf: Buffer
    var currentIndex: nat
    var firstFrame: bool
    var startTs: uint64
    var initTs: uint64
    // the last frame, and what was published so far
    var frameId: nat
    var lastTimestamp: uint64
    var newFrame: bool
    ghost var published: seq<Published>
    ghost var ownedWhenCopied: bool

    /** Every buffer is with the driver. */
    ghost predicate AllQueued()
      reads this
    {
      forall i: nat :: i in queued <==> i < bufferCount
    }

    constructor (bufferCount: nat)
      ensures this.bufferCount == bufferCount && queued == {} && published == [] && ownedWhenCopied
    {
      this.bufferCount := bufferCount;
      queued, published, ownedWhenCopied := {}, [], true;
      buf, currentIndex, firstFrame, startTs, initTs := Buffer(0, UNUSED, 0, 0), 0, true, 0, 0;
      frameId, lastTimestamp, newFrame := 0, 0, false;
    }

    /** VIDIOC_QBUF: the driver takes a buffer it does not hold, and rejects any other. */
    method QueueBuffer(index: nat) returns (ok: bool)
      modifies `queued
      ensures ok == (index < bufferCount && index !in old(queued))
      ensures queued == if ok then old(queued) + {index} else old(queued)
    {
      ok := index < bufferCount && index !in queued;
      if ok {
        queued := queued + {index};
      }
    }

    /** VIDIOC_DQBUF. */
    method DequeueBuffer(d: Dequeue) returns (ok: bool)
      modifies `queued, `buf
      ensures ok == d.Delivers?
      ensures queued == (if d.Delivers? then old(queued) - {d.buffer.index} else old(queued))
      ensures buf == if d.Delivers? then d.buffer else old(buf)
    {
      ok := d.Delivers?;
      if ok {
        buf := d.buffer;
        queued := queued - {buf.index};
      }
    }

    method StartCapture() returns (ok: bool)
      requires queued == {}
      modifies `queued
      ensures ok && AllQueued()
    {
      for i := 0 to bufferCount
        invariant forall j: nat :: j in queued <==> j < i
      {
        var accepted := QueueBuffer(i);
        if !accepted {
          return false;
        }
      }
      ok := true;
    }

    method BeginGrab()
      modifies `newFrame, `buf, `firstFrame
      ensures buf == Buffer(0, UNUSED, 0, 0) && firstFrame && !newFrame
    {
      newFrame := false;
      buf := Buffer(0, UNUSED, 0, 0);
      firstFrame := true;
    }

    /** The driver hands out only buffers that were queued with it. */
    ghost predicate Possible(t: Turn)
      reads this
    {
      t.dequeue.Delivers? ==> t.dequeue.buffer.index in queued
    }

    /** One turn of the grab loop. All buffers are back with the driver at its end, whatever the driver did;
        a whole, mapped frame is published from the buffer just taken, with its timestamp. */
    method GrabOnce(t: Turn)
      requires AllQueued() && Possible(t) && ownedWhenCopied
      modifies this
      ensures AllQueued() && ownedWhenCopied
      ensures var whole := t.dequeue.Delivers? && t.dequeue.buffer.bytesUsed == t.dequeue.buffer.length;
              && startTs == (if whole && old(firstFrame) then t.wall else old(startTs))
              && initTs == (if whole && old(firstFrame) then t.dequeue.buffer.timestampUs else old(initTs))
              && firstFrame == (old(firstFrame) && !whole)
              && (if whole && t.mapped then
                    && frameId == old(frameId) + 1 && newFrame
                    && lastTimestamp == FrameTimestamp(startTs, initTs, t.dequeue.buffer.timestampUs)
                    && published == old(published) + [Published(frameId, lastTimestamp, t.dequeue.buffer.index)]
                  else
                    && frameId == old(frameId) && newFrame == old(newFrame) && lastTimestamp == old(lastTimestamp)
                    && published == old(published))
    {
      hide FrameTimestamp;
      var ok := DequeueBuffer(t.dequeue);
      if buf.bytesUsed == buf.length && ok && buf.index < bufferCount {
        currentIndex := buf.index;
        if firstFrame {
          startTs := t.wall;
          firstFrame := false;
          initTs := buf.timestampUs;
        }
        if t.mapped {
          frameId := frameId + 1;
          ownedWhenCopied := ownedWhenCopied && currentIndex !in queued;
          lastTimestamp := FrameTimestamp(startTs, initTs, buf.timestampUs);
          newFrame := true;
          published := published + [Published(frameId, lastTimestamp, currentIndex)];
        }
        var _ := QueueBuffer(buf.index);
      } else {
        if buf.bytesUsed != buf.length {
          var _ := QueueBuffer(buf.index);
        }
        buf := buf.(bytesUsed := UNUSED, length := 0);
      }
    }
  }

  // ----- whole runs

  predicate IsWhole(t: Turn) {
    t.dequeue.Delivers? && t.dequeue.buffer.bytesUsed == t.dequeue.buffer.length
  }

  /** The whole, mapped frames of a run. */
  function Frames(turns: seq<Turn>): (fs: seq<Turn>)
    ensures forall i :: 0 <= i < |fs| ==> IsWhole(fs[i])
  {
    if turns == [] then []
    else
      var last := turns[|turns| - 1];
      Frames(turns[..|turns| - 1]) + if IsWhole(last) && last.mapped then [last] else []
  }

  /** The first whole frame, mapped or not: it sets the time reference. */
  function Reference(turns: seq<Turn>): (t: Option<Turn>)
    ensures t.Some? ==> IsWhole(t.value)
    ensures Frames(turns) != [] ==> t.Some?
  {
    if turns == [] then None
    else
      var earlier := Reference(turns[..|turns| - 1]);
      if earlier.Some? then earlier
      else if IsWhole(turns[|turns| - 1]) then Some(turns[|turns| - 1])
      else None
  }

  /** What a run should publish: the whole, mapped frames, numbered from one, against the reference. */
  function Expected(turns: seq<Turn>): (ps: seq<Published>)
    ensures |ps| == |Frames(turns)|
  {
    if turns == [] then []
    else
      Expected(turns[..|turns| - 1]) + Latest(turns)
  }

  function Latest(turns: seq<Turn>): (ps: seq<Published>)
    requires turns != []
    ensures |Frames(turns)| == |Frames(turns[..|turns| - 1])| + |ps|
  {
    var last := turns[|turns| - 1];
    if IsWhole(last) && last.mapped then [PublishedAs(|Frames(turns)|, Reference(turns).value, last)] else []
  }

  function PublishedAs(id: nat, reference: Turn, t: Turn): Published
    requires IsWhole(reference) && IsWhole(t)
  {
    var b := t.dequeue.buffer;
    Published(id, FrameTimestamp(reference.wall, reference.dequeue.buffer.timestampUs, b.timestampUs), b.index)
  }

  lemma FramesSnoc(turns: seq<Turn>, t: Turn)
    ensures Frames(turns + [t]) == Frames(turns) + if IsWhole(t) && t.mapped then [t] else []
    ensures Reference(turns + [t]) ==
              if Reference(turns).Some? then Reference(turns) else if IsWhole(t) then Some(t) else None
  {
    assert (turns + [t])[..|turns + [t]| - 1] == turns;
  }

  lemma ExpectedUpTo(turns: seq<Turn>, i: nat)
    requires i < |turns|
    ensures Expected(turns[..i + 1]) == Expected(turns[..i]) + Latest(turns[..i + 1])
  {
    hide Latest, Frames;
    assert turns[..i + 1][..i] == turns[..i];
  }

  /** So the k-th published is the k-th whole, mapped frame. */
  lemma {:induction false} ExpectedAt(turns: seq<Turn>, k: nat)
    requires k < |Frames(turns)|
    ensures Reference(turns).Some?
    ensures Expected(turns)[k] == PublishedAs(k + 1, Reference(turns).value, Frames(turns)[k])
    decreases |turns|
  {
    hide PublishedAs;
    var init := turns[..|turns| - 1];
    if k < |Frames(init)| {
      ExpectedAt(init, k);
    }
  }

  /** Main result: over every run, with any dequeue failures and short frames, all buffers are queued at the
      top of every iteration, data is only copied from a buffer the driver has given out, and exactly the
      whole mapped frames are published, numbered consecutively, each from its own buffer. */
  method GrabThread(c: Capture, turns: seq<Turn>)
    requires c.AllQueued() && c.ownedWhenCopied && c.published == [] && c.frameId == 0
    requires forall i :: 0 <= i < |turns| && turns[i].dequeue.Delivers? ==>
               turns[i].dequeue.buffer.index < c.bufferCount
    modifies c
    ensures c.AllQueued() && c.ownedWhenCopied
    ensures c.published == Expected(turns)
  {
    hide FrameTimestamp, Expected, Frames, Reference;
    c.BeginGrab();
    assert Expected([]) == [] && Frames([]) == [] && Reference([]) == None by { NothingExpected(); }
    for i := 0 to |turns|
      invariant c.AllQueued() && c.ownedWhenCopied
      invariant c.frameId == |Frames(turns[..i])| && c.published == Expected(turns[..i])
      invariant c.firstFrame == Reference(turns[..i]).None?
      invariant !c.firstFrame ==>
                  var r := Reference(turns[..i]).value; c.startTs == r.wall && c.initTs == r.dequeue.buffer.timestampUs
    {
      assert turns[..i + 1] == turns[..i] + [turns[i]];
      FramesSnoc(turns[..i], turns[i]);
      ExpectedUpTo(turns, i);
      c.GrabOnce(turns[i]);
    }
    assert turns[..|turns|] == turns;
  }

  lemma NothingExpected()
    ensures Expected([]) == [] && Frames([]) == [] && Reference([]) == None
  {
  }

  // ----- published timestamps

  /** The driver's clock does not go back, and the time since the first frame fits 64 bits. */
  ghost predicate ClockAdvances(turns: seq<Turn>) {
    && (forall i, j :: 0 <= i < j < |turns| && IsWhole(turns[i]) && IsWhole(turns[j]) ==>
          turns[i].dequeue.buffer.timestampUs <= turns[j].dequeue.buffer.timestampUs)
    && (forall i, j :: 0 <= i <= j < |turns| && IsWhole(turns[i]) && IsWhole(turns[j]) ==>
          InRange(turns[i].wall, turns[i].dequeue.buffer.timestampUs, turns[j].dequeue.buffer.timestampUs))
  }

  /** Each published frame is one of the turns, the reference is one no later, and order is kept. */
  lemma {:induction false} FramePositions(turns: seq<Turn>, k: nat) returns (r: nat, i: nat)
    requires k < |Frames(turns)|
    ensures r <= i < |turns| && turns[i] == Frames(turns)[k] && Reference(turns) == Some(turns[r]) && IsWhole(turns[r])
    ensures Frames(turns[..i]) == Frames(turns)[..k]
    decreases |turns|
  {
    var init := turns[..|turns| - 1];
    if k < |Frames(init)| {
      r, i := FramePositions(init, k);
      assert init[..i] == turns[..i];
    } else {
      i := |turns| - 1;
      assert Frames(init) == Frames(turns)[..k];
      if Reference(init).Some? {
        r := ReferencePosition(init);
      } else {
        r := i;
      }
    }
  }

  lemma {:induction false} ReferencePosition(turns: seq<Turn>) returns (r: nat)
    requires Reference(turns).Some?
    ensures r < |turns| && Reference(turns) == Some(turns[r])
    decreases |turns|
  {
    var init := turns[..|turns| - 1];
    if Reference(init).Some? {
      r := ReferencePosition(init);
    } else {
      r := |turns| - 1;
    }
  }

  lemma {:induction false} FewerFrames(turns: seq<Turn>, i: nat)
    requires i <= |turns|
    ensures |Frames(turns[..i])| <= |Frames(turns)|
    decreases |turns| - i
  {
    if i == |turns| {
      assert turns[..i] == turns;
    } else {
      FewerFrames(turns, i + 1);
      assert turns[..i + 1][..i] == turns[..i];
    }
  }

  /** Published timestamps do not go back. */
  lemma TimestampsNonDecreasing(turns: seq<Turn>, a: nat, b: nat)
    requires ClockAdvances(turns) && a < b < |Expected(turns)|
    ensures Expected(turns)[a].timestamp <= Expected(turns)[b].timestamp
  {
    hide FrameTimestamp, Frames, Reference, Expected;
    var r, i := FramePositions(turns, a);
    var q, j := FramePositions(turns, b);
    if j <= i {
      assert turns[..i][..j] == turns[..j];
      FewerFrames(turns[..i], j);
    }
    ExpectedAt(turns, a);
    ExpectedAt(turns, b);
    var start, first := turns[r].wall, turns[r].dequeue.buffer.timestampUs;
    assert turns[q] == turns[r];
    TimestampValue(start, first, turns[i].dequeue.buffer.timestampUs);
    TimestampValue(start, first, turns[j].dequeue.buffer.timestampUs);
  }
}
