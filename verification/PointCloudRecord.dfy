/** Writing a recording: header, one record per frame, and a footer that summarises them. */
module PointCloudRecord {
  import opened Bytes
  import opened CodedStream
  import opened PointCloudData

  // ----- what a recording looks like, and what its footer should say

  function EncodeAll(codec: Codec, ds: seq<Data>): (r: seq<seq<byte>>)
    ensures |r| == |ds|
  {
    seq(|ds|, i requires 0 <= i < |ds| => codec.encodeData(ds[i]))
  }

  /** The octets of a recording without its footer. */
  function Recording(codec: Codec, header: Header, ds: seq<Data>): seq<byte> {
    Delimited(codec.encodeHeader(header)) + DelimitedAll(EncodeAll(codec, ds))
  }

  function FooterRecord(f: Footer): Data {
    Data(None, Some(f))
  }

  function SumPoints(ds: seq<Data>): nat {
    if ds == [] then 0 else SumPoints(ds[..|ds| - 1]) + FrameOf(ds[|ds| - 1]).totalPoints
  }

  function SumReturns(ds: seq<Data>): nat {
    if ds == [] then 0 else SumReturns(ds[..|ds| - 1]) + FrameOf(ds[|ds| - 1]).totalReturns
  }

  function LastPattern(ds: seq<Data>): ScanPattern {
    if ds == [] then DEFAULT_PATTERN else PatternOf(FrameOf(ds[|ds| - 1]))
  }

  /** One event for every frame whose pattern is not that of the frame before it. */
  function PatternChanges(ds: seq<Data>): seq<Event> {
    if ds == [] then []
    else
      var init, last := ds[..|ds| - 1], FrameOf(ds[|ds| - 1]);
      PatternChanges(init) + if PatternOf(last) == LastPattern(init) then [] else [Event(last.id, PatternOf(last))]
  }

  /** The counters are 64 bits wide. */
  function Summary(ds: seq<Data>): Footer {
    Footer(
      if ds == [] then None
      else Some(Counter(Wrap64(|ds|), Wrap64(SumPoints(ds)), Wrap64(SumReturns(ds)))),
      PatternChanges(ds))
  }

  // ----- the recorder

  class PointCloudRecord {
    const codec: Codec
    var output: seq<byte>
    var header: Option<Header>
    var footer: Footer
    var scanPattern: ScanPattern
    var finished: bool
    ghost var recorded: seq<Data>

    ghost predicate Valid()
      reads this
    {
      footer == Summary(recorded) && scanPattern == LastPattern(recorded)
    }

    constructor (codec: Codec)
      ensures Valid() && !finished && output == [] && recorded == []
      ensures this.codec == codec
    {
      this.codec := codec;
      output, header, footer, scanPattern, finished := [], None, EMPTY_FOOTER, DEFAULT_PATTERN, false;
      recorded := [];
    }

    method Start(device: DeviceHeader, libraryVersion: string, now: uint64)
      requires Valid()
      modifies this
      ensures Valid() && unchanged(`footer, `scanPattern, `finished, `recorded)
      ensures header == Some(Header(device, libraryVersion, now))
      ensures output == old(output) + Delimited(codec.encodeHeader(header.value))
    {
      header := Some(Header(device, libraryVersion, now));
      var bytes := codec.encodeHeader(header.value);
      output := output + EncodeVarint(|bytes|);
      output := output + bytes;
      assert EncodeVarint(|bytes|) + bytes == Delimited(bytes);
    }

    method RecordData(data: Data)
      requires Valid()
      modifies this
      ensures Valid() && unchanged(`header, `finished)
      ensures recorded == old(recorded) + [data]
      ensures output == old(output) + Delimited(codec.encodeData(data))
    {
      hide Wrap64, EncodeVarint, PatternChanges, SumPoints, SumReturns, FrameOf, PatternOf;
      var bytes := codec.encodeData(data);
      output := output + EncodeVarint(|bytes|);
      output := output + bytes;

      var frame := FrameOf(data);
      if scanPattern != PatternOf(frame) {
        footer := footer.(events := footer.events + [Event(frame.id, PatternOf(frame))]);
        scanPattern := PatternOf(frame);
      }

      var c := if footer.stats.Some? then footer.stats.value else Counter(0, 0, 0);
      c := c.(frames := Wrap64(c.frames + 1));
      c := c.(points := Wrap64(c.points + frame.totalPoints));
      c := c.(rets := Wrap64(c.rets + frame.totalReturns));
      footer := footer.(stats := Some(c));

      recorded := recorded + [data];
      SummarySnoc(old(recorded), data);
      assert output == old(output) + Delimited(bytes);
    }

    /** Only the first call writes anything. */
    method Finish()
      requires Valid()
      modifies this
      ensures Valid() && finished && unchanged(`header, `recorded)
      ensures output == old(output) +
                if old(finished) then [] else Delimited(codec.encodeData(FooterRecord(Summary(recorded))))
    {
      if finished {
        return;
      }
      finished := true;
      var bytes := codec.encodeData(FooterRecord(footer));
      output := output + EncodeVarint(|bytes|);
      output := output + bytes;
      assert output == old(output) + Delimited(bytes);
    }
  }

  /** A whole recording session: `start`, `record_data` for each frame, `finish` any number of times. */
  method RecordSession(codec: Codec, device: DeviceHeader, libraryVersion: string, now: uint64,
                       ds: seq<Data>, finishes: nat)
    returns (file: seq<byte>)
    ensures file == Recording(codec, Header(device, libraryVersion, now),
                              if finishes == 0 then ds else ds + [FooterRecord(Summary(ds))])
  {
    var header := Header(device, libraryVersion, now);
    var record := new PointCloudRecord(codec);
    record.Start(device, libraryVersion, now);
    for i := 0 to |ds|
      invariant record.Valid() && !record.finished && record.recorded == ds[..i]
      invariant record.output == Recording(codec, header, ds[..i])
    {
      RecordingSnoc(codec, header, ds[..i], ds[i]);
      assert ds[..i + 1] == ds[..i] + [ds[i]];
      record.RecordData(ds[i]);
    }
    assert ds[..|ds|] == ds;
    RecordingSnoc(codec, header, ds, FooterRecord(Summary(ds)));
    for i := 0 to finishes
      invariant record.Valid() && record.recorded == ds && record.finished == (i > 0)
      invariant record.output == Recording(codec, header, if i == 0 then ds else ds + [FooterRecord(Summary(ds))])
    {
      record.Finish();
    }
    file := record.output;
  }

  // ----- lemmas

  lemma SumsSnoc(ds: seq<Data>, d: Data)
    ensures SumPoints(ds + [d]) == SumPoints(ds) + FrameOf(d).totalPoints
    ensures SumReturns(ds + [d]) == SumReturns(ds) + FrameOf(d).totalReturns
    ensures PatternChanges(ds + [d]) == PatternChanges(ds) +
              (if PatternOf(FrameOf(d)) == LastPattern(ds) then [] else [Event(FrameOf(d).id, PatternOf(FrameOf(d)))])
  {
    assert (ds + [d])[..|ds + [d]| - 1] == ds;
  }

  lemma SummarySnoc(ds: seq<Data>, d: Data)
    ensures var c := if Summary(ds).stats.Some? then Summary(ds).stats.value else Counter(0, 0, 0);
            && Summary(ds + [d]).stats == Some(Counter(Wrap64(c.frames + 1),
                                                       Wrap64(c.points + FrameOf(d).totalPoints),
                                                       Wrap64(c.rets + FrameOf(d).totalReturns)))
    ensures PatternChanges(ds + [d]) == PatternChanges(ds) +
              (if PatternOf(FrameOf(d)) == LastPattern(ds) then [] else [Event(FrameOf(d).id, PatternOf(FrameOf(d)))])
  {
    hide Wrap64, SumPoints, SumReturns, PatternChanges, FrameOf, PatternOf, LastPattern;
    SumsSnoc(ds, d);
    Wrap64Add(|ds|, 1);
    Wrap64Add(SumPoints(ds), FrameOf(d).totalPoints);
    Wrap64Add(SumReturns(ds), FrameOf(d).totalReturns);
    if ds == [] {
      assert SumPoints(ds) == 0 && SumReturns(ds) == 0 by { NothingToSum(); }
      Wrap64Identity(0);
    }
  }

  lemma NothingToSum()
    ensures SumPoints([]) == 0 && SumReturns([]) == 0
  {
  }

  lemma RecordingSnoc(codec: Codec, header: Header, ds: seq<Data>, d: Data)
    ensures Recording(codec, header, ds + [d]) == Recording(codec, header, ds) + Delimited(codec.encodeData(d))
  {
    var all := EncodeAll(codec, ds + [d]);
    assert all[..|all| - 1] == EncodeAll(codec, ds);
  }

  // ----- the footer is a correct summary

  /** The pattern in force at a frame id, as a reader of the footer would look it up. */
  function PatternAt(events: seq<Event>, id: nat): ScanPattern {
    if events == [] then DEFAULT_PATTERN
    else if events[|events| - 1].fromFrameId <= id then events[|events| - 1].pattern
    else PatternAt(events[..|events| - 1], id)
  }

  ghost predicate IncreasingIds(ds: seq<Data>) {
    forall i, j :: 0 <= i < j < |ds| ==> FrameOf(ds[i]).id < FrameOf(ds[j]).id
  }

  /** At or after the last frame, the last frame's pattern is in force. */
  lemma {:induction false} LastPatternInForce(ds: seq<Data>, id: nat)
    requires forall i :: 0 <= i < |ds| ==> FrameOf(ds[i]).id <= id
    ensures PatternAt(PatternChanges(ds), id) == LastPattern(ds)
  {
    if ds != [] {
      var init := ds[..|ds| - 1];
      LastPatternInForce(init, id);
      var events := PatternChanges(ds);
      if events != PatternChanges(init) {
        assert events[..|events| - 1] == PatternChanges(init);
      }
    }
  }

  /** The footer's events recover every frame's scan pattern. */
  lemma {:induction false} FooterRecoversPatterns(ds: seq<Data>, i: nat)
    requires IncreasingIds(ds) && i < |ds|
    ensures PatternAt(Summary(ds).events, FrameOf(ds[i]).id) == PatternOf(FrameOf(ds[i]))
    decreases |ds|
  {
    if i == |ds| - 1 {
      LastPatternInForce(ds, FrameOf(ds[i]).id);
    } else {
      var init := ds[..|ds| - 1];
      FooterRecoversPatterns(init, i);
      var events := PatternChanges(ds);
      if events != PatternChanges(init) {
        assert events[..|events| - 1] == PatternChanges(init);
      }
    }
  }

  /** No event repeats the pattern already in force, so the event list is as short as it can be. */
  lemma {:induction false} ConsecutiveEventsDiffer(ds: seq<Data>)
    ensures var events := Summary(ds).events;
            && (events != [] ==> events[0].pattern != DEFAULT_PATTERN)
            && (forall k :: 0 < k < |events| ==> events[k - 1].pattern != events[k].pattern)
            && LastPattern(ds) == (if events == [] then DEFAULT_PATTERN else events[|events| - 1].pattern)
  {
    if ds != [] {
      ConsecutiveEventsDiffer(ds[..|ds| - 1]);
    }
  }


  /** How many points and how many returns each record announces. */
  function Points(ds: seq<Data>): (ns: seq<nat>)
    ensures |ns| == |ds|
  {
    seq(|ds|, i requires 0 <= i < |ds| => if ds[i].frame.Some? then ds[i].frame.value.totalPoints else 0)
  }

  function Returns(ds: seq<Data>): (ns: seq<nat>)
    ensures |ns| == |ds|
  {
    seq(|ds|, i requires 0 <= i < |ds| => if ds[i].frame.Some? then ds[i].frame.value.totalReturns else 0)
  }

  lemma {:induction false} SumsAreSums(ds: seq<Data>)
    ensures SumPoints(ds) == Sum(Points(ds)) && SumReturns(ds) == Sum(Returns(ds))
    decreases |ds|
  {
    if ds != [] {
      var init := ds[..|ds| - 1];
      SumsAreSums(init);
      assert Points(ds)[..|init|] == Points(init) && Returns(ds)[..|init|] == Returns(init);
    }
  }

  /** A recording without frames has a footer without counters and events. */
  lemma NothingSummarised()
    ensures Summary([]) == Footer(None, [])
  {
  }

  /** The counters are the number of frames and the sums of points and returns, exactly as long as they
      fit 64 bits. */
  lemma CountersAreExact(ds: seq<Data>)
    requires ds != []
    ensures var c := Summary(ds).stats.value;
            && (c.frames == |ds| <==> |ds| < TWO_64)
            && (c.points == Sum(Points(ds)) <==> Sum(Points(ds)) < TWO_64)
            && (c.rets == Sum(Returns(ds)) <==> Sum(Returns(ds)) < TWO_64)
  {
    hide Wrap64, SumPoints, SumReturns, Sum;
    SumsAreSums(ds);
    Wrap64Identity(|ds|);
    Wrap64Identity(SumPoints(ds));
    Wrap64Identity(SumReturns(ds));
  }
}
