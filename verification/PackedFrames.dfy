/**
 What a packed frame says: written from given values, most significant octets first, it converts to
 exactly those values, both in the simple and in the nested form.
 */
module PackedFrames {
  import opened Bytes
  import opened PointCloudData
  import opened Scanlines
  import opened FrameConversion
  import opened SimpleFrame

  /** The values of one return. */
  datatype Entry = Entry(
    pointId: uint32, x: Float, y: Float, z: Float, range: Float, intensity: uint32, ambient: uint32,
    startOffsetNs: uint64, channelId: byte, returnId: byte)

  /** Three words for every return. */
  function Coordinates(es: seq<Entry>): (ws: seq<uint32>)
    ensures |ws| == 3 * |es|
  {
    if es == [] then []
    else
      var last := es[|es| - 1];
      Coordinates(es[..|es| - 1]) + [last.x, last.y, last.z]
  }

  // One column for each of the other fields.

  function PointIds(es: seq<Entry>): (r: seq<uint32>)
    ensures |r| == |es|
  {
    seq(|es|, i requires 0 <= i < |es| => es[i].pointId)
  }

  function Ranges(es: seq<Entry>): (r: seq<Float>)
    ensures |r| == |es|
  {
    seq(|es|, i requires 0 <= i < |es| => es[i].range)
  }

  function Intensities(es: seq<Entry>): (r: seq<uint32>)
    ensures |r| == |es|
  {
    seq(|es|, i requires 0 <= i < |es| => es[i].intensity)
  }

  function Ambients(es: seq<Entry>): (r: seq<uint32>)
    ensures |r| == |es|
  {
    seq(|es|, i requires 0 <= i < |es| => es[i].ambient)
  }

  function Offsets(es: seq<Entry>): (r: seq<uint64>)
    ensures |r| == |es|
  {
    seq(|es|, i requires 0 <= i < |es| => es[i].startOffsetNs)
  }

  function Channels(es: seq<Entry>): (r: seq<byte>)
    ensures |r| == |es|
  {
    seq(|es|, i requires 0 <= i < |es| => es[i].channelId)
  }

  function ReturnIds(es: seq<Entry>): (r: seq<byte>)
    ensures |r| == |es|
  {
    seq(|es|, i requires 0 <= i < |es| => es[i].returnId)
  }

  predicate Holding(field: Option<seq<byte>>, octets: seq<byte>) {
    field.Some? ==> field.value == octets
  }

  /** Every field that is set was written from the entries. */
  ghost predicate WrittenFrom(p: Packed, es: seq<Entry>) {
    && p.length == |es|
    && Holding(p.pointId, Be32All(PointIds(es)))
    && Holding(p.cartesian, Be32All(Coordinates(es)))
    && Holding(p.range, Be32All(Ranges(es)))
    && Holding(p.intensity, Be32All(Intensities(es)))
    && Holding(p.ambient, Be32All(Ambients(es)))
    && Holding(p.startOffsetNs, Be64All(Offsets(es)))
    && Holding(p.channelId, Channels(es))
    && Holding(p.returnId, ReturnIds(es))
  }

  lemma {:induction false} CoordinatesAt(es: seq<Entry>, i: nat)
    requires i < |es|
    ensures var ws := Coordinates(es); ws[3 * i] == es[i].x && ws[3 * i + 1] == es[i].y && ws[3 * i + 2] == es[i].z
    decreases |es|
  {
    if i < |es| - 1 {
      CoordinatesAt(es[..|es| - 1], i);
    }
  }

  /** The value of every entry is read at its index. */
  lemma ReadsSimple(p: Packed, es: seq<Entry>, i: nat)
    requires WrittenFrom(p, es) && i < |es|
    ensures SimpleReadable(p, |es|) && SimpleReadable(p, i + 1)
    ensures p.pointId.Some? ==> PointId(p, i) == es[i].pointId
    ensures p.cartesian.Some? ==> Xyz(p, i) == (es[i].x, es[i].y, es[i].z)
    ensures Word(p.range, i) == if p.range.Some? then es[i].range else 0
    ensures Word(p.intensity, i) == if p.intensity.Some? then es[i].intensity else 0
    ensures Word(p.ambient, i) == if p.ambient.Some? then es[i].ambient else 0
  {
    hide Be32At, Be32All, Coordinates;
    Be32RoundTrip(PointIds(es), i);
    Be32RoundTrip(Ranges(es), i);
    Be32RoundTrip(Intensities(es), i);
    Be32RoundTrip(Ambients(es), i);
    CoordinatesAt(es, i);
    Be32RoundTrip(Coordinates(es), 3 * i);
    Be32RoundTrip(Coordinates(es), 3 * i + 1);
    Be32RoundTrip(Coordinates(es), 3 * i + 2);
  }

  /** The simple conversion gives each point the values of its entry, intensity and ambient light cut to
      16 bits; fields that are not set leave what was there. */
  lemma SimplePointsAre(f: Frame, es: seq<Entry>, previous: seq<SimplePoint>, k: nat)
    requires f.packed.Some? && WrittenFrom(f.packed.value, es) && k < |es|
    ensures CanSimplify(f) && |SimplePoints(f, previous)| == |es|
    ensures var p, e := f.packed.value, es[k];
            var was := if k < |previous| then previous[k] else SimplePoint(0, 0, 0, 0, 0, 0, 0);
            var pt := SimplePoints(f, previous)[k];
            && pt.id == (if p.pointId.Some? then e.pointId else was.id)
            && pt.x == (if p.cartesian.Some? then e.x else was.x)
            && pt.y == (if p.cartesian.Some? then e.y else was.y)
            && pt.z == (if p.cartesian.Some? then e.z else was.z)
            && pt.range == (if p.range.Some? then e.range else was.range)
            && pt.intensity == (if p.intensity.Some? then e.intensity % 0x1_0000 else was.intensity)
            && pt.ambient == (if p.ambient.Some? then e.ambient % 0x1_0000 else was.ambient)
  {
    hide Be32At, PointId, Xyz, Word, WrittenFrom, SimpleReadable;
    var p := f.packed.value;
    assert p.length == |es| by { SameLength(p, es); }
    ReadsSimple(p, es, k);
  }

  lemma SameLength(p: Packed, es: seq<Entry>)
    requires WrittenFrom(p, es)
    ensures p.length == |es|
  {
  }

  lemma ReadsNested(p: Packed, es: seq<Entry>, i: nat)
    requires WrittenFrom(p, es) && i < |es| && (p.pointId.Some? && p.direction.Some? ==> p.cartesian.Some?)
    ensures NestedReadable(p, |es|) && NestedReadable(p, i + 1)
    ensures p.startOffsetNs.Some? ==> Be64At(p.startOffsetNs.value, i) == es[i].startOffsetNs
    ensures Octet(p.channelId, i) == if p.channelId.Some? then es[i].channelId else 0
    ensures Octet(p.returnId, i) == if p.returnId.Some? then es[i].returnId else 0
  {
    hide Be32At, Be64At, Be32All, Be64All, Coordinates;
    ReadsSimple(p, es, i);
    Be64RoundTrip(Offsets(es), i);
  }

  /** What the nested conversion adds as a return for an entry. */
  ghost predicate IsReturnOf(p: Packed, e: Entry, ret: Return) {
    && ret.id == (if p.returnId.Some? then e.returnId else 0)
    && ret.cartesian == (if p.cartesian.Some? then [e.x, e.y, e.z] else [])
    && ret.range == (if p.range.Some? then e.range else 0)
    && ret.intensity == (if p.intensity.Some? then e.intensity else 0)
  }

  lemma ReturnIs(p: Packed, es: seq<Entry>, i: nat)
    requires WrittenFrom(p, es) && i < |es| && (p.pointId.Some? && p.direction.Some? ==> p.cartesian.Some?)
    ensures NestedReadable(p, i + 1) && IsReturnOf(p, es[i], ReturnAt(p, i))
  {
    hide Be32At, Xyz, Word, Octet, WrittenFrom, NestedReadable;
    ReadsSimple(p, es, i);
    ReadsNested(p, es, i);
  }

  /** What the nested conversion makes of the point that begins with an entry. */
  ghost predicate IsHeadOf(p: Packed, e: Entry, head: PointHead) {
    && head.id == e.pointId
    && head.ambient == (if p.ambient.Some? then e.ambient else 0)
    && head.startOffsetNs == (if p.startOffsetNs.Some? then e.startOffsetNs else 0)
    && head.channelId == (if p.channelId.Some? then e.channelId else 0)
  }

  lemma HeadIs(p: Packed, es: seq<Entry>, i: nat)
    requires WrittenFrom(p, es) && i < |es| && p.pointId.Some? && (p.direction.Some? ==> p.cartesian.Some?)
    ensures NestedReadable(p, i + 1) && IsHeadOf(p, es[i], HeadAt(p, i))
  {
    hide Be32At, Be64At, PointId, Xyz, Word, Octet, WrittenFrom, NestedReadable;
    ReadsSimple(p, es, i);
    ReadsNested(p, es, i);
  }

  /** `first` begins the run of equal point ids that `k` belongs to. */
  predicate BeginsRun(es: seq<Entry>, first: nat, k: nat) {
    && first <= k < |es|
    && (forall i :: first <= i <= k ==> es[i].pointId == es[k].pointId)
    && (first > 0 ==> es[first - 1].pointId != es[k].pointId)
  }

  lemma RunBegins(p: Packed, es: seq<Entry>, k: nat)
    requires WrittenFrom(p, es) && k < |es| && p.pointId.Some?
    ensures Holds(p.pointId, 4, k + 1) && BeginsRun(es, RunStart(p, k), k)
  {
    hide Be32At, Be32All, PointId, WrittenFrom, RunStart;
    ReadsSimple(p, es, k);
    forall i | 0 <= i <= k
      ensures PointId(p, i) == es[i].pointId
    {
      ReadsSimple(p, es, i);
    }
  }

  /** The point id lies in the block of ids that the scanline covers. */
  predicate InBlock(f: Frame, scanline: uint64, id: uint32) {
    HasScanlineIds(f) && Lines(f) != 0
    && scanline * PointsPerScanline(f) <= id < (scanline + 1) * PointsPerScanline(f)
  }

  /** A row has the values of its entry, under a point with the values of the first entry of its run. */
  ghost predicate IsRowOf(p: Packed, es: seq<Entry>, k: nat, row: Row)
    requires k < |es|
  {
    IsReturnOf(p, es[k], row.ret) && exists first: nat :: BeginsRun(es, first, k) && IsHeadOf(p, es[first], row.head)
  }

  lemma RowIs(f: Frame, es: seq<Entry>, k: nat)
    requires f.packed.Some? && WrittenFrom(f.packed.value, es) && k < |es| && HasScanlineIds(f)
    requires var p := f.packed.value; p.pointId.Some? && (p.direction.Some? ==> p.cartesian.Some?)
    ensures NestedReadable(f.packed.value, k + 1)
    ensures IsRowOf(f.packed.value, es, k, RowAt(f, k)) && InBlock(f, RowAt(f, k).scanline, es[k].pointId)
  {
    hide Be32At, Be64At, PointId, WrittenFrom, RunStart, ReturnAt, HeadAt, HasScanlineIds, PointsPerScanline,
         ScanlineId, Lines, IsReturnOf, IsHeadOf, BeginsRun, NestedReadable;
    var p := f.packed.value;
    RunBegins(p, es, k);
    ReturnIs(p, es, k);
    assert RunStart(p, k) < |es| by { RunInRange(p, k); }
    HeadIs(p, es, RunStart(p, k));
    ReadsSimple(p, es, k);
    HasScanlineIdsExactly(f);
    ScanlineBlock(f, PointId(p, k), ScanlineId(f, PointId(p, k)));
  }

  lemma RunInRange(p: Packed, k: nat)
    requires p.pointId.Some? && Holds(p.pointId, 4, k + 1)
    ensures RunStart(p, k) <= k
  {
  }

  /** The nested conversion hangs each return, with the values of its entry, under a point with the values
      of the first entry of its run, in the scanline whose block holds the point id. */
  lemma NestedRowsAre(f: Frame, es: seq<Entry>, added: seq<Scanline>, k: nat)
    requires f.packed.Some? && WrittenFrom(f.packed.value, es) && f.totalReturns == |es| && k < |es|
    requires f.packed.value.pointId.Some? && CanRegroup(f) && IsRegrouped(f, added)
    ensures |Flatten(added)| == |es|
    ensures IsRowOf(f.packed.value, es, k, Flatten(added)[k])
    ensures InBlock(f, Flatten(added)[k].scanline, es[k].pointId)
  {
    hide WrittenFrom, Flatten, Canonical, HasScanlineIds, RowAt, IsRowOf, InBlock, Holds;
    NestedReadablePrefix(f.packed.value, |es|, k + 1);
    assert Flatten(added)[k] == RowAt(f, k);
    RowIs(f, es, k);
  }

  /** Without point ids all returns hang under one point. */
  lemma NestedReturnsAre(f: Frame, es: seq<Entry>, added: seq<Scanline>, k: nat)
    requires f.packed.Some? && WrittenFrom(f.packed.value, es) && f.totalReturns == |es| && k < |es|
    requires f.packed.value.pointId.None? && CanRegroup(f) && IsRegrouped(f, added)
    ensures |added| == 1 && |added[0].points| == 1 && |added[0].points[0].rets| == |es|
    ensures IsReturnOf(f.packed.value, es[k], added[0].points[0].rets[k])
  {
    hide Be32At, WrittenFrom, ReturnAt, IsReturnOf, Holds;
    ReturnIs(f.packed.value, es, k);
  }
}
