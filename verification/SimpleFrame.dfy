/** The simple frame, filled from either form, and the agreement of the two conversion paths. */
module SimpleFrame {
  import opened Bytes
  import opened PointCloudData
  import opened Scanlines
  import opened FrameConversion

  /** `point_t`. */
  datatype SimplePoint = SimplePoint(
    id: uint32, x: Float, y: Float, z: Float, range: Float, intensity: uint16, ambient: uint16)

  const BLANK_POINT := SimplePoint(0, 0, 0, 0, 0, 0, 0)

  // ----- what the points should be

  /** Fields that the packed frame lacks keep whatever was in the caller's frame. */
  function FromPacked(p: Packed, i: nat, was: SimplePoint): SimplePoint
    requires SimpleReadable(p, i + 1)
  {
    SimplePoint(
      if p.pointId.Some? then PointId(p, i) else was.id,
      if p.cartesian.Some? then Xyz(p, i).0 else was.x,
      if p.cartesian.Some? then Xyz(p, i).1 else was.y,
      if p.cartesian.Some? then Xyz(p, i).2 else was.z,
      if p.range.Some? then Word(p.range, i) else was.range,
      if p.intensity.Some? then Low16(Word(p.intensity, i)) else was.intensity,
      if p.ambient.Some? then Low16(Word(p.ambient, i)) else was.ambient)
  }

  function FromRow(row: Row): SimplePoint
    requires |row.ret.cartesian| >= 3
  {
    SimplePoint(row.head.id, row.ret.cartesian[0], row.ret.cartesian[1], row.ret.cartesian[2], row.ret.range,
                Low16(row.ret.intensity), Low16(row.head.ambient))
  }

  predicate HasXyz(rows: seq<Row>) {
    forall k :: 0 <= k < |rows| ==> |rows[k].ret.cartesian| >= 3
  }

  /** What the conversion demands of its input: arrays long enough, or no more returns than announced,
      each with coordinates. */
  predicate CanSimplify(f: Frame) {
    if f.packed.Some? then SimpleReadable(f.packed.value, f.packed.value.length)
    else |Flatten(f.scanlines)| <= f.totalReturns && HasXyz(Flatten(f.scanlines))
  }

  lemma SimpleReadablePrefix(p: Packed, n: nat, m: nat)
    requires SimpleReadable(p, n) && m <= n
    ensures SimpleReadable(p, m)
  {
  }

  function PointCount(f: Frame): uint32 {
    if f.packed.Some? then f.packed.value.length else f.totalReturns
  }

  function PointAt(f: Frame, k: nat, was: SimplePoint): SimplePoint
    requires CanSimplify(f) && k < PointCount(f)
  {
    if f.packed.Some? then
      SimpleReadablePrefix(f.packed.value, f.packed.value.length, k + 1);
      FromPacked(f.packed.value, k, was)
    else if k < |Flatten(f.scanlines)| then FromRow(Flatten(f.scanlines)[k])
    else was
  }

  function SimplePoints(f: Frame, previous: seq<SimplePoint>): (r: seq<SimplePoint>)
    requires CanSimplify(f)
    ensures |r| == PointCount(f)
  {
    var was := Resized(previous, PointCount(f), BLANK_POINT);
    seq(PointCount(f), k requires 0 <= k < PointCount(f) => PointAt(f, k, was[k]))
  }

  // ----- flattening front to back, as the nested loops go

  lemma {:induction false} FlattenPointsSplit(scanline: uint64, ps: seq<Point>, k: nat)
    requires k <= |ps|
    ensures FlattenPoints(scanline, ps) == FlattenPoints(scanline, ps[..k]) + FlattenPoints(scanline, ps[k..])
    decreases |ps|
  {
    if k == |ps| {
      assert ps[..k] == ps;
    } else {
      var init := ps[..|ps| - 1];
      assert ps[k..][..|ps[k..]| - 1] == init[k..];
      assert init[..k] == ps[..k];
      FlattenPointsSplit(scanline, init, k);
    }
  }

  lemma {:induction false} FlattenSplit(ss: seq<Scanline>, k: nat)
    requires k <= |ss|
    ensures Flatten(ss) == Flatten(ss[..k]) + Flatten(ss[k..])
    decreases |ss|
  {
    if k == |ss| {
      assert ss[..k] == ss;
    } else {
      var init := ss[..|ss| - 1];
      assert ss[k..][..|ss[k..]| - 1] == init[k..];
      assert init[..k] == ss[..k];
      FlattenSplit(init, k);
    }
  }

  /** How many returns come before point `p` of scanline `s`. */
  function Before(ss: seq<Scanline>, s: nat, p: nat): nat
    requires s < |ss| && p <= |ss[s].points|
  {
    |Flatten(ss[..s])| + |FlattenPoints(ss[s].id, ss[s].points[..p])|
  }

  lemma BeforeNextScanline(ss: seq<Scanline>, s: nat)
    requires s < |ss|
    ensures Before(ss, s, 0) == |Flatten(ss[..s])|
    ensures Before(ss, s, |ss[s].points|) == |Flatten(ss[..s + 1])|
  {
    assert ss[..s + 1][..s] == ss[..s];
    assert ss[s].points[..|ss[s].points|] == ss[s].points;
  }

  lemma BeforeNextPoint(ss: seq<Scanline>, s: nat, p: nat)
    requires s < |ss| && p < |ss[s].points|
    ensures Before(ss, s, p + 1) == Before(ss, s, p) + |ss[s].points[p].rets|
  {
    assert ss[s].points[..p + 1][..p] == ss[s].points[..p];
  }

  lemma FlattenUpTo(ss: seq<Scanline>, s: nat)
    requires s < |ss|
    ensures Flatten(ss[..s + 1]) == Flatten(ss[..s]) + FlattenPoints(ss[s].id, ss[s].points)
  {
    assert ss[..s + 1][..s] == ss[..s];
  }

  lemma FlattenPointsUpTo(scanline: uint64, ps: seq<Point>, p: nat)
    requires p < |ps|
    ensures FlattenPoints(scanline, ps[..p + 1]) ==
              FlattenPoints(scanline, ps[..p]) + FlattenReturns(scanline, ps[p].head, ps[p].rets)
  {
    assert ps[..p + 1][..p] == ps[..p];
  }

  /** Where a return sits in the flat order. */
  lemma RowPosition(ss: seq<Scanline>, s: nat, p: nat, r: nat)
    requires s < |ss| && p < |ss[s].points| && r < |ss[s].points[p].rets|
    ensures var k := Before(ss, s, p) + r;
            && k < |Flatten(ss)|
            && Flatten(ss)[k] == Row(ss[s].id, ss[s].points[p].head, ss[s].points[p].rets[r])
  {
    hide Flatten, FlattenPoints;
    var ps := ss[s].points;
    FlattenSplit(ss, s + 1);
    FlattenUpTo(ss, s);
    FlattenPointsSplit(ss[s].id, ps, p + 1);
    FlattenPointsUpTo(ss[s].id, ps, p);
    var upTo := Flatten(ss[..s]) + FlattenPoints(ss[s].id, ps[..p]);
    var here := FlattenReturns(ss[s].id, ps[p].head, ps[p].rets);
    var after := FlattenPoints(ss[s].id, ps[p + 1..]) + Flatten(ss[s + 1..]);
    assert Flatten(ss) == upTo + (here + after);
    assert (here + after)[r] == here[r];
  }

  // ----- the simple frame object

  class SimpleFrame {
    var id: uint64
    var frameRate: Float
    var startTimeNs: uint64
    var points: seq<SimplePoint>

    constructor ()
      ensures points == []
    {
      id, frameRate, startTimeNs, points := 0, 0, 0, [];
    }
  }

  /** `narrow` is the conversion of a `double` to a `float`. */
  method ConvertToSimple(frameIn: Frame, frameOut: SimpleFrame, narrow: Double -> Float)
    requires CanSimplify(frameIn)
    modifies frameOut
    ensures frameOut.id == frameIn.id && frameOut.frameRate == narrow(PatternOf(frameIn).frameRate)
    ensures frameOut.startTimeNs == frameIn.startTimeNs
    ensures frameOut.points == SimplePoints(frameIn, old(frameOut.points))
  {
    frameOut.id := frameIn.id;
    frameOut.frameRate := narrow(PatternOf(frameIn).frameRate);
    frameOut.startTimeNs := frameIn.startTimeNs;
    ghost var was := Resized(frameOut.points, PointCount(frameIn), BLANK_POINT);
    var count := if frameIn.packed.Some? then frameIn.packed.value.length else frameIn.totalReturns;
    frameOut.points := Resized(frameOut.points, count, BLANK_POINT);

    if frameIn.packed.Some? {
      FillFromPacked(frameIn, frameOut);
    } else {
      FillFromScanlines(frameIn, frameOut);
    }
    assert frameOut.points == SimplePoints(frameIn, old(frameOut.points));
  }

  method FillFromPacked(frameIn: Frame, frameOut: SimpleFrame)
    requires frameIn.packed.Some? && CanSimplify(frameIn) && |frameOut.points| == PointCount(frameIn)
    modifies frameOut`points
    ensures |frameOut.points| == PointCount(frameIn)
    ensures forall k :: 0 <= k < PointCount(frameIn) ==>
              frameOut.points[k] == PointAt(frameIn, k, old(frameOut.points)[k])
  {
    hide Be32At, Low16, PointId, Xyz, Word;
    var p := frameIn.packed.value;
    for i := 0 to p.length
      invariant |frameOut.points| == p.length
      invariant forall k :: 0 <= k < i ==> frameOut.points[k] == PointAt(frameIn, k, old(frameOut.points)[k])
      invariant forall k :: i <= k < p.length ==> frameOut.points[k] == old(frameOut.points)[k]
    {
      SimpleReadablePrefix(p, p.length, i + 1);
      var pt := frameOut.points[i];
      if p.pointId.Some? { pt := pt.(id := PointId(p, i)); }
      if p.cartesian.Some? {
        pt := pt.(x := Xyz(p, i).0);
        pt := pt.(y := Xyz(p, i).1);
        pt := pt.(z := Xyz(p, i).2);
      }
      if p.range.Some? { pt := pt.(range := Word(p.range, i)); }
      if p.intensity.Some? { pt := pt.(intensity := Low16(Word(p.intensity, i))); }
      if p.ambient.Some? { pt := pt.(ambient := Low16(Word(p.ambient, i))); }
      frameOut.points := frameOut.points[i := pt];
    }
  }

  method FillFromScanlines(frameIn: Frame, frameOut: SimpleFrame)
    requires frameIn.packed.None? && CanSimplify(frameIn) && |frameOut.points| == PointCount(frameIn)
    modifies frameOut`points
    ensures |frameOut.points| == PointCount(frameIn)
    ensures forall k :: 0 <= k < PointCount(frameIn) ==>
              frameOut.points[k] == PointAt(frameIn, k, old(frameOut.points)[k])
  {
    hide Flatten, FlattenPoints, Before, Low16;
    var ss := frameIn.scanlines;
    ghost var rows, was := Flatten(ss), frameOut.points;
    var i := 0;
    assert Flatten(ss[..0]) == [] by { NothingBefore(ss); }
    for s := 0 to |ss|
      invariant i == |Flatten(ss[..s])|
      invariant Filled(rows, frameOut.points, was, i)
    {
      BeforeNextScanline(ss, s);
      for p := 0 to |ss[s].points|
        invariant i == Before(ss, s, p)
        invariant Filled(rows, frameOut.points, was, i)
      {
        var point := ss[s].points[p];
        for r := 0 to |point.rets|
          invariant i == Before(ss, s, p) + r
          invariant Filled(rows, frameOut.points, was, i)
        {
          RowPosition(ss, s, p, r);
          var ret := point.rets[r];
          assert |rows[i].ret.cartesian| >= 3;
          var pt := frameOut.points[i].(
            id := point.head.id,
            x := ret.cartesian[0], y := ret.cartesian[1], z := ret.cartesian[2],
            range := ret.range,
            intensity := Low16(ret.intensity),
            ambient := Low16(point.head.ambient));
          frameOut.points := frameOut.points[i := pt];
          i := i + 1;
        }
        BeforeNextPoint(ss, s, p);
      }
    }
    assert ss[..|ss|] == ss;
  }

  lemma NothingBefore(ss: seq<Scanline>)
    ensures Flatten(ss[..0]) == []
  {
  }

  /** The first `i` points are done, the rest untouched. */
  ghost predicate Filled(rows: seq<Row>, points: seq<SimplePoint>, was: seq<SimplePoint>, i: nat) {
    && |points| == |was| && i <= |rows| <= |was|
    && HasXyz(rows)
    && (forall k :: 0 <= k < i ==> points[k] == FromRow(rows[k]))
    && (forall k :: i <= k < |was| ==> points[k] == was[k])
  }

  // ----- the two paths

  predicate AllConverted(p: Packed) {
    p.pointId.Some? && p.cartesian.Some? && p.range.Some? && p.intensity.Some? && p.ambient.Some?
  }

  /** The low 16 bits of the ambient light level agree within each run of equal point ids. */
  ghost predicate SharedAmbient(p: Packed, n: nat)
    requires p.pointId.Some? && SimpleReadable(p, n)
  {
    forall k :: 0 <= k < n ==> Low16(AmbientAt(p, n, k)) == Low16(AmbientAt(p, n, RunStart(p, k)))
  }

  function AmbientAt(p: Packed, n: nat, k: nat): uint32
    requires SimpleReadable(p, n) && k < n
  {
    SimpleReadablePrefix(p, n, k + 1);
    Word(p.ambient, k)
  }

  /** Converting a packed frame straight to the simple frame gives the same points as regrouping it
      first, exactly when the announced number of returns is the array length and the returns of a point
      share their ambient value. */
  lemma ConversionPathsAgree(f: Frame, g: Frame, old1: seq<SimplePoint>, old2: seq<SimplePoint>)
    requires f.packed.Some? && f.scanlines == [] && AllConverted(f.packed.value)
    requires CanSimplify(f) && CanRegroup(f) && IsNested(f, g)
    ensures CanSimplify(g)
    ensures g.id == f.id && g.scanPattern == f.scanPattern && g.startTimeNs == f.startTimeNs
    ensures SimplePoints(f, old1) == SimplePoints(g, old2) <==>
              f.packed.value.length == f.totalReturns && SharedAmbient(f.packed.value, f.totalReturns)
  {
    hide Be32At, Low16, Flatten, Canonical, ScanlineId, HasScanlineIds;
    var p, n := f.packed.value, f.totalReturns;
    var added :| g == f.(packed := None, scanlines := f.scanlines + added) && IsRegrouped(f, added);
    assert f.scanlines + added == added;
    forall k | 0 <= k < n
      ensures |Flatten(g.scanlines)[k].ret.cartesian| >= 3
      ensures p.length == n ==> AgreesAt(f, g, k, old1, old2)
    {
      NestedReadablePrefix(p, n, k + 1);
      assert Flatten(g.scanlines)[k] == RowAt(f, k);
      if p.length == n {
        AgreeAt(f, g, k, old1, old2);
      }
    }
    if p.length == n {
      var a, b := SimplePoints(f, old1), SimplePoints(g, old2);
      if SharedAmbient(p, n) {
        forall k | 0 <= k < n ensures a[k] == b[k] {
          assert AgreesAt(f, g, k, old1, old2);
        }
      } else {
        var k :| 0 <= k < n && Low16(AmbientAt(p, n, k)) != Low16(AmbientAt(p, n, RunStart(p, k)));
        assert AgreesAt(f, g, k, old1, old2);
      }
    }
  }

  ghost predicate AgreesAt(f: Frame, g: Frame, k: nat, old1: seq<SimplePoint>, old2: seq<SimplePoint>)
    requires f.packed.Some? && AllConverted(f.packed.value) && CanSimplify(f) && CanSimplify(g)
    requires k < f.packed.value.length && k < PointCount(g)
  {
    var p := f.packed.value;
    SimplePoints(f, old1)[k] == SimplePoints(g, old2)[k] <==>
      Low16(AmbientAt(p, p.length, k)) == Low16(AmbientAt(p, p.length, RunStart(p, k)))
  }

  lemma AgreeAt(f: Frame, g: Frame, k: nat, old1: seq<SimplePoint>, old2: seq<SimplePoint>)
    requires f.packed.Some? && AllConverted(f.packed.value) && CanSimplify(f) && CanSimplify(g)
    requires CanRegroup(f) && f.packed.value.length == f.totalReturns && k < f.totalReturns
    requires g.packed.None? && g.totalReturns == f.totalReturns && k < |Flatten(g.scanlines)|
    requires NestedReadable(f.packed.value, k + 1) && Flatten(g.scanlines)[k] == RowAt(f, k)
    ensures AgreesAt(f, g, k, old1, old2)
  {
  }

  // ----- what is left of the caller's previous frame

  /** The result does not depend on the frame object's previous contents exactly when every converted
      field is present (or there is no point at all); or, without packed data, when the scanlines hold as
      many returns as the frame announces. */
  lemma StaleFields(f: Frame)
    requires CanSimplify(f)
    ensures (forall a: seq<SimplePoint>, b: seq<SimplePoint> :: SimplePoints(f, a) == SimplePoints(f, b))
            <==>
            if f.packed.Some? then AllConverted(f.packed.value) || f.packed.value.length == 0
            else |Flatten(f.scanlines)| == f.totalReturns
  {
    hide Flatten;
    var a := Resized([], PointCount(f), BLANK_POINT);
    var b := Resized([], PointCount(f), SimplePoint(1, 1, 1, 1, 1, 1, 1));
    var last: int := PointCount(f) - 1;
    if f.packed.Some? {
      if !AllConverted(f.packed.value) && last >= 0 {
        assert SimplePoints(f, a)[last] != SimplePoints(f, b)[last];
      }
    } else if |Flatten(f.scanlines)| < f.totalReturns {
      assert SimplePoints(f, a)[last] != SimplePoints(f, b)[last];
    }
  }

  // ----- ordered input gives ordered groups

  ghost predicate NonDecreasingIds(p: Packed, n: nat)
    requires p.pointId.Some? && Holds(p.pointId, 4, n)
  {
    forall k :: 0 < k < n ==> PointId(p, k - 1) <= PointId(p, k)
  }

  /** Rows `k - 1` and `k` of the specification are ordered by scanline and by point. */
  lemma RowsOrdered(f: Frame, k: nat)
    requires f.packed.Some? && f.packed.value.pointId.Some? && CanRegroup(f) && 0 < k < f.totalReturns
    requires NonDecreasingIds(f.packed.value, f.totalReturns)
    ensures var rows := Rows(f, f.totalReturns);
            rows[k - 1].scanline <= rows[k].scanline && rows[k - 1].head.id <= rows[k].head.id
  {
    hide Be32At, ScanlineId, HasScanlineIds;
    var p := f.packed.value;
    NestedReadablePrefix(p, f.totalReturns, k);
    NestedReadablePrefix(p, f.totalReturns, k + 1);
    ScanlineMonotone(f, PointId(p, k - 1), PointId(p, k));
  }

  lemma GroupsOrdered(f: Frame, added: seq<Scanline>, s: nat)
    requires f.packed.Some? && f.packed.value.pointId.Some? && CanRegroup(f) && IsRegrouped(f, added)
    requires NonDecreasingIds(f.packed.value, f.totalReturns) && s < |added|
    ensures s > 0 ==> added[s - 1].id < added[s].id
    ensures forall p :: 0 < p < |added[s].points| ==> added[s].points[p - 1].head.id < added[s].points[p].head.id
  {
    hide Flatten, FlattenPoints, Rows, NonDecreasingIds, NestedReadable;
    if s > 0 {
      var before := added[s - 1].points;
      var p := |before| - 1;
      var r := |before[p].rets| - 1;
      RowPosition(added, s - 1, p, r);
      RowPosition(added, s, 0, 0);
      BeforeNextPoint(added, s - 1, p);
      BeforeNextScanline(added, s - 1);
      BeforeNextScanline(added, s);
      RowsOrdered(f, Before(added, s, 0));
    }
    forall p | 0 < p < |added[s].points|
      ensures added[s].points[p - 1].head.id < added[s].points[p].head.id
    {
      var r := |added[s].points[p - 1].rets| - 1;
      RowPosition(added, s, p - 1, r);
      RowPosition(added, s, p, 0);
      BeforeNextPoint(added, s, p - 1);
      RowsOrdered(f, Before(added, s, p));
    }
  }

  /** Non-decreasing point ids give strictly increasing scanline ids. */
  lemma {:induction false} ScanlinesIncrease(f: Frame, added: seq<Scanline>, i: nat, j: nat)
    requires f.packed.Some? && f.packed.value.pointId.Some? && CanRegroup(f) && IsRegrouped(f, added)
    requires NonDecreasingIds(f.packed.value, f.totalReturns) && i < j < |added|
    ensures added[i].id < added[j].id
    decreases j
  {
    hide Flatten, Rows, NonDecreasingIds;
    GroupsOrdered(f, added, j);
    if i < j - 1 {
      ScanlinesIncrease(f, added, i, j - 1);
    }
  }

  /** Non-decreasing point ids give strictly increasing point ids within each scanline. */
  lemma {:induction false} PointsIncrease(f: Frame, added: seq<Scanline>, s: nat, i: nat, j: nat)
    requires f.packed.Some? && f.packed.value.pointId.Some? && CanRegroup(f) && IsRegrouped(f, added)
    requires NonDecreasingIds(f.packed.value, f.totalReturns) && s < |added| && i < j < |added[s].points|
    ensures added[s].points[i].head.id < added[s].points[j].head.id
    decreases j
  {
    hide Flatten, Rows, NonDecreasingIds;
    GroupsOrdered(f, added, s);
    if i < j - 1 {
      PointsIncrease(f, added, s, i, j - 1);
    }
  }
}
