/**
 Reading a recording back. The reader scans forward for the last record to find the footer, and then
 keeps one record of look-ahead. Its behaviour under any sequence of calls is proved to be that of
 a simple cursor over the list of recorded frames.
 */
module PointCloudStream {
  import opened Bytes
  import opened CodedStream
  import opened PointCloudData
  import opened PointCloudRecord

  // ----- the reader as a state machine

  /** `stream_buffered`, `stream_data` and the coded stream. */
  datatype Reader = Reader(cursor: Cursor, buffered: bool, data: Data)

  /** Where a fresh coded stream stands after skipping `offset` octets: there, or at the end of the data. */
  function At(file: seq<byte>, offset: nat): Cursor {
    Cursor(if offset <= End(file, Cursor(0, NO_LIMIT)) then offset else End(file, Cursor(0, NO_LIMIT)), NO_LIMIT)
  }

  /** `read_stream`; None when the record does not parse, which throws. */
  function ReadStream(codec: Codec, file: seq<byte>, r: Reader): Option<Reader> {
    var c := ReadLengthAndPushLimit(file, r.cursor);
    if BytesUntilLimit(c) == 0 then Some(r.(cursor := c, buffered := false))
    else
      var message := codec.decodeData(Visible(file, c));
      if message.None? then None
      else Some(Reader(Cursor(c.pos + |Visible(file, c)|, r.cursor.limit), true, message.value))
  }

  function Buffer(codec: Codec, file: seq<byte>, r: Reader): Option<Reader> {
    if r.buffered then Some(r) else ReadStream(codec, file, r)
  }

  predicate Ended(r: Reader) {
    !r.buffered || r.data.footer.Some?
  }

  /** The forward scan of the constructor: the offset of the last record that starts at or after
      `at`, or `previous` if none does. */
  function LastRecordFrom(file: seq<byte>, at: nat, previous: nat): nat
    decreases |file| - at
  {
    var c := ReadLengthAndPushLimit(file, Cursor(at, NO_LIMIT));
    if BytesUntilLimit(c) > 0 && at < |file|
    then LastRecordFrom(file, Skip(file, c, BytesUntilLimit(c)).pos, at)
    else previous
  }

  datatype Opened = Opened(header: Header, footer: Option<Footer>, offsetData: nat)

  /** The file constructor; None when the header does not parse. */
  function Open(codec: Codec, file: seq<byte>): Option<Opened> {
    var c := ReadLengthAndPushLimit(file, Cursor(0, NO_LIMIT));
    var header := codec.decodeHeader(Visible(file, c));
    if header.None? then None
    else
      var offsetData := c.pos + |Visible(file, c)|;
      var f := ReadLengthAndPushLimit(file, At(file, LastRecordFrom(file, offsetData, offsetData)));
      var last := codec.decodeData(Visible(file, f));
      Some(Opened(header.value, if last.Some? then last.value.footer else None, offsetData))
  }

  // ----- the reader as the object it is

  datatype Received<+F> = Received(frame: F) | EndReached | Corrupt

  class PointCloudStream<F(0)> {
    const codec: Codec
    const file: seq<byte>
    const convert: (Frame, F) -> F
    var cursor: Cursor
    var buffered: bool
    var data: Data
    var header: Option<Header>
    var footer: Option<Footer>
    var offsetData: nat
    var frame: F

    function State(): Reader
      reads this
    {
      Reader(cursor, buffered, data)
    }

    constructor (codec: Codec, file: seq<byte>, convert: (Frame, F) -> F, blank: F)
      ensures this.codec == codec && this.file == file && this.convert == convert && frame == blank
      ensures !buffered && footer == None
    {
      this.codec, this.file, this.convert := codec, file, convert;
      cursor, buffered, data := Cursor(0, NO_LIMIT), false, Data(None, None);
      header, footer, offsetData, frame := None, None, 0, blank;
    }

    /** A stream without limit, at the offset if the file reaches that far, whatever it was doing before. */
    method StreamInitAndSkip(offset: nat)
      modifies `cursor
      ensures cursor == At(file, offset)
      ensures |file| < NO_LIMIT ==> cursor.limit == NO_LIMIT && BytesUntilLimit(cursor) == -1
      ensures |file| < NO_LIMIT ==> cursor.pos == if offset <= |file| then offset else |file|
      ensures |file| < NO_LIMIT ==> Visible(file, cursor) == if offset <= |file| then file[offset..] else []
    {
      cursor := Cursor(0, NO_LIMIT);
      cursor := Skip(file, cursor, offset);
    }

    /** The body of the file constructor. */
    method OpenFile() returns (ok: bool)
      requires !buffered && footer == None
      modifies `cursor, `data, `header, `footer, `offsetData
      ensures ok == Open(codec, file).Some?
      ensures ok ==> var o := Open(codec, file).value;
                     && header == Some(o.header) && footer == o.footer && offsetData == o.offsetData
                     && cursor == At(file, offsetData)
    {
      hide ReadLengthAndPushLimit, Visible;
      StreamInitAndSkip(0);
      var limit := cursor.limit;
      cursor := ReadLengthAndPushLimit(file, cursor);
      header := codec.decodeHeader(Visible(file, cursor));
      if header.None? {
        return false;
      }
      cursor := Cursor(cursor.pos + |Visible(file, cursor)|, limit);

      offsetData := cursor.pos;
      var offsetFooter := offsetData;
      var offset := offsetFooter;
      cursor := ReadLengthAndPushLimit(file, cursor);
      while BytesUntilLimit(cursor) > 0
        invariant cursor == ReadLengthAndPushLimit(file, Cursor(offset, NO_LIMIT)) && limit == NO_LIMIT
        invariant LastRecordFrom(file, offset, offsetFooter) == LastRecordFrom(file, offsetData, offsetData)
        modifies `cursor
        decreases |file| - offset
      {
        LengthAdvances(file, offset);
        cursor := Skip(file, cursor, BytesUntilLimit(cursor));
        cursor := cursor.(limit := limit);
        offsetFooter := offset;
        offset := cursor.pos;
        cursor := ReadLengthAndPushLimit(file, cursor);
      }

      StreamInitAndSkip(offsetFooter);
      cursor := ReadLengthAndPushLimit(file, cursor);
      var last := codec.decodeData(Visible(file, cursor));
      if last.Some? {
        data := last.value;
        if data.footer.Some? {
          footer := data.footer;
        }
      }

      StreamInitAndSkip(offsetData);
      ok := true;
    }

    method ReadNext() returns (ok: bool)
      modifies `cursor, `buffered, `data
      ensures ok == ReadStream(codec, file, old(State())).Some?
      ensures ok ==> State() == ReadStream(codec, file, old(State())).value
    {
      var limit := cursor.limit;
      cursor := ReadLengthAndPushLimit(file, cursor);
      if BytesUntilLimit(cursor) == 0 {
        buffered := false;
        return true;
      }
      data := Data(None, None);
      var message := codec.decodeData(Visible(file, cursor));
      if message.None? {
        return false;
      }
      data := message.value;
      cursor := Cursor(cursor.pos + |Visible(file, cursor)|, limit);
      buffered := true;
      ok := true;
    }

    method EndOfStream() returns (ok: bool, ended: bool)
      modifies `cursor, `buffered, `data
      ensures var b := Buffer(codec, file, old(State()));
              && ok == b.Some?
              && (ok ==> State() == b.value && ended == Ended(b.value))
    {
      ok, ended := true, false;
      if !buffered {
        ok := ReadNext();
      }
      ended := !buffered || data.footer.Some?;
    }

    method RecvFrame() returns (r: Received<F>)
      modifies this
      ensures offsetData == old(offsetData) && header == old(header) && footer == old(footer)
      ensures var b := Buffer(codec, file, old(State()));
              if b.None? then r == Corrupt
              else if Ended(b.value) then r == EndReached && State() == b.value && frame == old(frame)
              else && State() == b.value.(buffered := false)
                   && r == Received(convert(FrameOf(b.value.data), old(frame))) && frame == r.frame
    {
      var ok, ended := EndOfStream();
      if !ok {
        return Corrupt;
      }
      if ended {
        return EndReached;
      }
      buffered := false;
      frame := convert(FrameOf(data), frame);
      r := Received(frame);
    }

    method JumpToFirstFrame() returns (ok: bool)
      modifies `cursor, `buffered, `data
      ensures var r := ReadStream(codec, file, old(State()).(cursor := At(file, offsetData)));
              && ok == r.Some?
              && (ok ==> State() == r.value)
    {
      StreamInitAndSkip(offsetData);
      ok := ReadNext();
    }
  }

  lemma LengthAdvances(file: seq<byte>, at: nat)
    ensures var c := ReadLengthAndPushLimit(file, Cursor(at, NO_LIMIT));
            BytesUntilLimit(c) > 0 ==> at < c.pos <= |file|
  {
  }

  // ----- positions in a recording

  ghost predicate IsRecording(codec: Codec, file: seq<byte>, header: Header, ds: seq<Data>) {
    codec.Lossless(header, ds) && file == Recording(codec, header, ds) && |file| < NO_LIMIT
  }

  /** Where the k-th record starts. */
  function Offset(codec: Codec, header: Header, ds: seq<Data>, k: nat): nat
    requires k <= |ds|
  {
    |Recording(codec, header, ds[..k])|
  }

  function Payload(codec: Codec, ds: seq<Data>, k: nat): seq<byte>
    requires k < |ds|
  {
    codec.encodeData(ds[k])
  }

  lemma {:induction false} EncodeAllConcat(codec: Codec, a: seq<Data>, b: seq<Data>)
    ensures EncodeAll(codec, a + b) == EncodeAll(codec, a) + EncodeAll(codec, b)
  {
  }

  lemma RecordingSplit(codec: Codec, header: Header, ds: seq<Data>, k: nat)
    requires k < |ds|
    ensures Recording(codec, header, ds) == Recording(codec, header, ds[..k]) + Delimited(Payload(codec, ds, k))
                                            + DelimitedAll(EncodeAll(codec, ds[k + 1..]))
    ensures Offset(codec, header, ds, k + 1) == Offset(codec, header, ds, k) + |Delimited(Payload(codec, ds, k))|
    ensures Offset(codec, header, ds, k + 1) <= |Recording(codec, header, ds)|
  {
    assert ds[..k + 1] == ds[..k] + [ds[k]];
    assert ds == ds[..k + 1] + ds[k + 1..];
    RecordingSnoc(codec, header, ds[..k], ds[k]);
    EncodeAllConcat(codec, ds[..k + 1], ds[k + 1..]);
    DelimitedAllConcat(EncodeAll(codec, ds[..k + 1]), EncodeAll(codec, ds[k + 1..]));
  }

  /** Reading the length at the start of record k exposes exactly its payload. */
  lemma ReadRecord(codec: Codec, file: seq<byte>, header: Header, ds: seq<Data>, k: nat)
    requires IsRecording(codec, file, header, ds) && k < |ds|
    ensures var here, next := Offset(codec, header, ds, k), Offset(codec, header, ds, k + 1);
            var size := |Payload(codec, ds, k)|;
            && here < next - size && next <= |file|
            && ReadLengthAndPushLimit(file, Cursor(here, NO_LIMIT)) == Cursor(next - size, next)
            && Visible(file, Cursor(next - size, next)) == Payload(codec, ds, k)
  {
    var pre := Recording(codec, header, ds[..k]);
    RecordingSplit(codec, header, ds, k);
    ReadLengthAt(pre, Payload(codec, ds, k), DelimitedAll(EncodeAll(codec, ds[k + 1..])), file);
  }

  lemma ReadHeader(codec: Codec, file: seq<byte>, header: Header, ds: seq<Data>)
    requires IsRecording(codec, file, header, ds)
    ensures var c := ReadLengthAndPushLimit(file, Cursor(0, NO_LIMIT));
            && Visible(file, c) == codec.encodeHeader(header)
            && c.pos + |Visible(file, c)| == Offset(codec, header, ds, 0) == |Delimited(codec.encodeHeader(header))|
  {
    var payload := codec.encodeHeader(header);
    assert file == [] + Delimited(payload) + DelimitedAll(EncodeAll(codec, ds));
    ReadLengthAt([], payload, DelimitedAll(EncodeAll(codec, ds)), file);
    assert ds[..0] == [];
    assert Recording(codec, header, []) == Delimited(payload);
  }

  lemma OffsetWithin(codec: Codec, header: Header, ds: seq<Data>, k: nat)
    requires k <= |ds|
    ensures Offset(codec, header, ds, k) <= |Recording(codec, header, ds)|
  {
    if k < |ds| {
      RecordingSplit(codec, header, ds, k);
    } else {
      WholeRecording(codec, header, ds);
    }
  }

  lemma WholeRecording(codec: Codec, header: Header, ds: seq<Data>)
    ensures Offset(codec, header, ds, |ds|) == |Recording(codec, header, ds)|
  {
    assert ds[..|ds|] == ds;
  }

  // ----- finding the footer

  /** How many records can be told from the end of the file: all before the first empty one. */
  function NonEmptyRun(ds: seq<Data>, k: nat): (n: nat)
    requires k <= |ds|
    ensures k <= n <= |ds|
    decreases |ds| - k
  {
    if k == |ds| || ds[k] == NO_DATA then k else NonEmptyRun(ds, k + 1)
  }

  lemma ScanStep(file: seq<byte>, at: nat, start: nat, next: nat, previous: nat)
    requires at < start <= next <= |file| < NO_LIMIT
    requires ReadLengthAndPushLimit(file, Cursor(at, NO_LIMIT)) == Cursor(start, next)
    ensures LastRecordFrom(file, at, previous) == if start < next then LastRecordFrom(file, next, at) else previous
  {
  }

  lemma ScanEnd(file: seq<byte>, previous: nat)
    requires |file| < NO_LIMIT
    ensures LastRecordFrom(file, |file|, previous) == previous
  {
  }

  lemma OnlyNoDataIsEmpty(codec: Codec, d: Data)
    requires codec.ReadsBack(d) && codec.ReadsBack(NO_DATA) && codec.encodeData(NO_DATA) == []
    ensures codec.encodeData(d) == [] <==> d == NO_DATA
  {
  }

  lemma {:induction false} ScanFindsLastRecord(codec: Codec, file: seq<byte>, header: Header, ds: seq<Data>,
                                               k: nat, previous: nat)
    requires IsRecording(codec, file, header, ds) && k <= |ds|
    ensures var n := NonEmptyRun(ds, k);
            LastRecordFrom(file, Offset(codec, header, ds, k), previous) ==
              if n == k then previous else Offset(codec, header, ds, n - 1)
    decreases |ds| - k
  {
    hide ReadLengthAndPushLimit, Recording, LastRecordFrom, Visible;
    if k == |ds| {
      WholeRecording(codec, header, ds);
      ScanEnd(file, previous);
    } else {
      var at, next := Offset(codec, header, ds, k), Offset(codec, header, ds, k + 1);
      ReadRecord(codec, file, header, ds, k);
      OnlyNoDataIsEmpty(codec, ds[k]);
      ScanStep(file, at, next - |Payload(codec, ds, k)|, next, previous);
      if ds[k] != NO_DATA {
        ScanFindsLastRecord(codec, file, header, ds, k + 1, at);
      }
    }
  }

  /** What the constructor takes for the footer: the last record before the first empty one. */
  function FooterIn(ds: seq<Data>): Option<Footer> {
    var n := NonEmptyRun(ds, 0);
    if n == 0 then None else ds[n - 1].footer
  }

  lemma ReadFooter(codec: Codec, file: seq<byte>, header: Header, ds: seq<Data>)
    requires IsRecording(codec, file, header, ds)
    ensures var at := Offset(codec, header, ds, 0);
            var c := ReadLengthAndPushLimit(file, Cursor(LastRecordFrom(file, at, at), NO_LIMIT));
            codec.decodeData(Visible(file, c)) ==
              Some(if NonEmptyRun(ds, 0) == 0 then NO_DATA else ds[NonEmptyRun(ds, 0) - 1])
  {
    var n, at := NonEmptyRun(ds, 0), Offset(codec, header, ds, 0);
    ScanFindsLastRecord(codec, file, header, ds, 0, at);
    assert codec.decodeData(codec.encodeData(NO_DATA)) == Some(NO_DATA);
    if n > 0 {
      ReadRecord(codec, file, header, ds, n - 1);
      assert codec.decodeData(codec.encodeData(ds[n - 1])) == Some(ds[n - 1]);
    } else if |ds| > 0 {
      ReadRecord(codec, file, header, ds, 0);
    } else {
      WholeRecording(codec, header, ds);
      ReadLengthAtEnd(file, Cursor(|file|, NO_LIMIT));
      assert Visible(file, Cursor(|file|, |file|)) == [];
    }
  }

  /** Opening a recording restores the header, stops just past it, and takes the footer from the last
      record before the first empty one, if that record has a footer. */
  lemma OpenRecording(codec: Codec, file: seq<byte>, header: Header, ds: seq<Data>)
    requires IsRecording(codec, file, header, ds)
    ensures Open(codec, file) == Some(Opened(header, FooterIn(ds), |Delimited(codec.encodeHeader(header))|))
  {
    hide ReadLengthAndPushLimit, Recording, LastRecordFrom, Visible;
    ReadHeader(codec, file, header, ds);
    assert codec.decodeHeader(codec.encodeHeader(header)) == Some(header);
    ReadFooter(codec, file, header, ds);
    var at := Offset(codec, header, ds, 0);
    assert at <= |file| by { OffsetWithin(codec, header, ds, 0); }
    ScanInRange(file, at, at);
  }

  lemma {:induction false} ScanInRange(file: seq<byte>, at: nat, previous: nat)
    requires previous <= at <= |file|
    ensures previous <= LastRecordFrom(file, at, previous) <= |file|
    decreases |file| - at
  {
    LengthAdvances(file, at);
    var c := ReadLengthAndPushLimit(file, Cursor(at, NO_LIMIT));
    if BytesUntilLimit(c) > 0 && at < |file| {
      ScanInRange(file, Skip(file, c, BytesUntilLimit(c)).pos, at);
    }
  }
}
