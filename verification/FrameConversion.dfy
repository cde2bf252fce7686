/**
 The two `convert_point_cloud` overloads: flat big-endian arrays regrouped into scanlines, points and
 returns, and either form turned into the simple frame.
 */
module FrameConversion {
  import opened Bytes
  import opened PointCloudData
  import opened Scanlines

  // ----- reading the packed arrays

  predicate Holds(field: Option<seq<byte>>, width: nat, n: nat) {
    field.Some? ==> width * n <= |field.value|
  }

  /** The arrays that the simple conversion reads have an entry for every return below `n`. */
  predicate SimpleReadable(p: Packed, n: nat) {
    && Holds(p.pointId, 4, n) && Holds(p.cartesian, 12, n) && Holds(p.range, 4, n)
    && Holds(p.intensity, 4, n) && Holds(p.ambient, 4, n)
  }

  /** The same for the nested conversion. It takes directions out of the cartesian array. */
  predicate NestedReadable(p: Packed, n: nat) {
    && SimpleReadable(p, n) && Holds(p.startOffsetNs, 8, n) && Holds(p.channelId, 1, n) && Holds(p.returnId, 1, n)
    && (p.pointId.Some? && p.direction.Some? && n > 0 ==> p.cartesian.Some?)
  }

  function PointId(p: Packed, i: nat): uint32
    requires p.pointId.Some? && Holds(p.pointId, 4, i + 1)
  {
    Be32At(p.pointId.value, i)
  }

  function Xyz(p: Packed, i: nat): (Float, Float, Float)
    requires p.cartesian.Some? && Holds(p.cartesian, 12, i + 1)
  {
    (Be32At(p.cartesian.value, 3 * i), Be32At(p.cartesian.value, 3 * i + 1), Be32At(p.cartesian.value, 3 * i + 2))
  }

  function Word(field: Option<seq<byte>>, i: nat): uint32
    requires Holds(field, 4, i + 1)
  {
    if field.Some? then Be32At(field.value, i) else 0
  }

  function Octet(field: Option<seq<byte>>, i: nat): uint32
    requires Holds(field, 1, i + 1)
  {
    if field.Some? then field.value[i] else 0
  }

  function ReturnAt(p: Packed, i: nat): Return
    requires NestedReadable(p, i + 1)
  {
    Return(Octet(p.returnId, i),
           if p.cartesian.Some? then [Xyz(p, i).0, Xyz(p, i).1, Xyz(p, i).2] else [],
           Word(p.range, i), Word(p.intensity, i))
  }

  function HeadAt(p: Packed, i: nat): PointHead
    requires NestedReadable(p, i + 1) && p.pointId.Some?
  {
    PointHead(PointId(p, i), Word(p.ambient, i),
              if p.startOffsetNs.Some? then Be64At(p.startOffsetNs.value, i) else 0,
              Octet(p.channelId, i),
              if p.direction.None? then None
              else Some((Be32At(p.cartesian.value, 2 * i), Be32At(p.cartesian.value, 2 * i + 1))))
  }

  lemma NestedReadablePrefix(p: Packed, n: nat, m: nat)
    requires NestedReadable(p, n) && m <= n
    ensures NestedReadable(p, m)
  {
  }

  // ----- flattening the nested form

  /** One return with the scanline and the point it hangs under. */
  datatype Row = Row(scanline: uint64, head: PointHead, ret: Return)

  function FlattenReturns(scanline: uint64, head: PointHead, rs: seq<Return>): (rows: seq<Row>)
    ensures |rows| == |rs|
  {
    seq(|rs|, i requires 0 <= i < |rs| => Row(scanline, head, rs[i]))
  }

  function FlattenPoints(scanline: uint64, ps: seq<Point>): seq<Row> {
    if ps == [] then []
    else
      var last := ps[|ps| - 1];
      FlattenPoints(scanline, ps[..|ps| - 1]) + FlattenReturns(scanline, last.head, last.rets)
  }

  function Flatten(ss: seq<Scanline>): seq<Row> {
    if ss == [] then []
    else
      var last := ss[|ss| - 1];
      Flatten(ss[..|ss| - 1]) + FlattenPoints(last.id, last.points)
  }

  ghost predicate CanonicalPoints(ps: seq<Point>) {
    && (forall i :: 0 <= i < |ps| ==> ps[i].rets != [])
    && (forall i :: 0 < i < |ps| ==> ps[i - 1].head.id != ps[i].head.id)
  }

  /** No empty groups, and neighbours have different ids: returns are grouped as far as they can be. */
  ghost predicate Canonical(ss: seq<Scanline>) {
    && (forall i :: 0 <= i < |ss| ==> ss[i].points != [] && CanonicalPoints(ss[i].points) && ss[i].startOffsetNs == 0)
    && (forall i :: 0 < i < |ss| ==> ss[i - 1].id != ss[i].id)
  }

  // ----- adding one return

  function AddToPoints(ps: seq<Point>, head: PointHead, ret: Return): (r: seq<Point>)
    ensures r != []
  {
    if ps == [] || ps[|ps| - 1].head.id != head.id then ps + [Point(head, [ret])]
    else
      var last := ps[|ps| - 1];
      ps[|ps| - 1 := last.(rets := last.rets + [ret])]
  }

  function AddRow(ss: seq<Scanline>, row: Row): (r: seq<Scanline>)
    ensures r != []
  {
    if ss == [] || ss[|ss| - 1].id != row.scanline then ss + [Scanline(row.scanline, 0, [Point(row.head, [row.ret])])]
    else
      var last := ss[|ss| - 1];
      ss[|ss| - 1 := last.(points := AddToPoints(last.points, row.head, row.ret))]
  }

  /** The head under which the added return ends up: the first one of its group. */
  function GroupHead(ss: seq<Scanline>, row: Row): PointHead {
    if ss == [] || ss[|ss| - 1].id != row.scanline then row.head
    else
      var ps := ss[|ss| - 1].points;
      if ps == [] || ps[|ps| - 1].head.id != row.head.id then row.head else ps[|ps| - 1].head
  }

  lemma AddToPointsFlatten(scanline: uint64, ps: seq<Point>, head: PointHead, ret: Return)
    requires CanonicalPoints(ps)
    ensures CanonicalPoints(AddToPoints(ps, head, ret))
    ensures FlattenPoints(scanline, AddToPoints(ps, head, ret)) == FlattenPoints(scanline, ps)
              + [Row(scanline, if ps == [] || ps[|ps| - 1].head.id != head.id then head else ps[|ps| - 1].head, ret)]
  {
    var r := AddToPoints(ps, head, ret);
    if ps == [] || ps[|ps| - 1].head.id != head.id {
      assert r[..|r| - 1] == ps;
      assert FlattenReturns(scanline, head, [ret]) == [Row(scanline, head, ret)];
    } else {
      var last := ps[|ps| - 1];
      assert r[..|r| - 1] == ps[..|ps| - 1];
      assert FlattenReturns(scanline, last.head, last.rets + [ret])
          == FlattenReturns(scanline, last.head, last.rets) + [Row(scanline, last.head, ret)];
    }
  }

  lemma {:induction false} NewScanlineFlatten(ss: seq<Scanline>, row: Row)
    requires Canonical(ss) && (ss == [] || ss[|ss| - 1].id != row.scanline)
    ensures Canonical(AddRow(ss, row)) && Flatten(AddRow(ss, row)) == Flatten(ss) + [row]
  {
    hide AddToPoints, FlattenReturns;
    var r := AddRow(ss, row);
    assert r[..|r| - 1] == ss;
    FlattenOne(row);
  }

  lemma FlattenOne(row: Row)
    ensures FlattenPoints(row.scanline, [Point(row.head, [row.ret])]) == [row]
    ensures CanonicalPoints([Point(row.head, [row.ret])])
  {
    AddToPointsFlatten(row.scanline, [], row.head, row.ret);
    assert AddToPoints([], row.head, row.ret) == [Point(row.head, [row.ret])];
  }

  lemma {:induction false} SameScanlineFlatten(ss: seq<Scanline>, row: Row)
    requires Canonical(ss) && ss != [] && ss[|ss| - 1].id == row.scanline
    ensures Canonical(AddRow(ss, row))
    ensures Flatten(AddRow(ss, row)) == Flatten(ss) + [row.(head := GroupHead(ss, row))]
  {
    hide AddToPoints, FlattenPoints, CanonicalPoints;
    var r, last := AddRow(ss, row), ss[|ss| - 1];
    assert r[..|r| - 1] == ss[..|ss| - 1];
    AddToPointsFlatten(last.id, last.points, row.head, row.ret);
  }

  lemma AddRowFlatten(ss: seq<Scanline>, row: Row)
    requires Canonical(ss)
    ensures Canonical(AddRow(ss, row))
    ensures Flatten(AddRow(ss, row)) == Flatten(ss) + [row.(head := GroupHead(ss, row))]
  {
    hide Canonical, Flatten, AddRow;
    if ss == [] || ss[|ss| - 1].id != row.scanline {
      NewScanlineFlatten(ss, row);
    } else {
      SameScanlineFlatten(ss, row);
    }
  }

  /** The last row of a canonical structure shows the ids of the last scanline and point. */
  lemma LastRow(ss: seq<Scanline>)
    requires Canonical(ss) && ss != []
    ensures var last := ss[|ss| - 1];
            var rows := Flatten(ss);
            && rows != []
            && rows[|rows| - 1].scanline == last.id && rows[|rows| - 1].head == last.points[|last.points| - 1].head
  {
  }

  // ----- the canonical form is unique

  function DropLastReturn(ps: seq<Point>): seq<Point>
    requires ps != []
  {
    var last := ps[|ps| - 1];
    if |last.rets| <= 1 then ps[..|ps| - 1] else ps[|ps| - 1 := last.(rets := last.rets[..|last.rets| - 1])]
  }

  function DropLastRow(ss: seq<Scanline>): seq<Scanline>
    requires ss != [] && ss[|ss| - 1].points != []
  {
    var last := ss[|ss| - 1];
    var ps := DropLastReturn(last.points);
    if ps == [] then ss[..|ss| - 1] else ss[|ss| - 1 := last.(points := ps)]
  }

  lemma RebuildPoints(ps: seq<Point>)
    requires CanonicalPoints(ps) && ps != []
    ensures var last := ps[|ps| - 1];
            && CanonicalPoints(DropLastReturn(ps))
            && AddToPoints(DropLastReturn(ps), last.head, last.rets[|last.rets| - 1]) == ps
  {
    var last := ps[|ps| - 1];
    assert last.rets == last.rets[..|last.rets| - 1] + [last.rets[|last.rets| - 1]];
    assert ps == ps[..|ps| - 1] + [last];
  }

  lemma Rebuild(ss: seq<Scanline>)
    requires Canonical(ss) && ss != []
    ensures var less := DropLastRow(ss);
            var rows := Flatten(ss);
            && Canonical(less) && rows != []
            && AddRow(less, rows[|rows| - 1]) == ss
            && Flatten(less) == rows[..|rows| - 1]
  {
    var last := ss[|ss| - 1];
    var point := last.points[|last.points| - 1];
    var row := Row(last.id, point.head, point.rets[|point.rets| - 1]);
    RebuildStep(ss, row);
    hide AddRow, DropLastRow, GroupHead, Canonical;
    AddRowFlatten(DropLastRow(ss), row);
  }

  lemma RebuildStep(ss: seq<Scanline>, row: Row)
    requires Canonical(ss) && ss != []
    requires var last := ss[|ss| - 1];
             var point := last.points[|last.points| - 1];
             row == Row(last.id, point.head, point.rets[|point.rets| - 1])
    ensures var less := DropLastRow(ss);
            Canonical(less) && AddRow(less, row) == ss && GroupHead(less, row) == row.head
  {
    hide AddToPoints, CanonicalPoints;
    var last := ss[|ss| - 1];
    var less := DropLastRow(ss);
    RebuildPoints(last.points);
    DropHead(last.points);
    assert ss == ss[..|ss| - 1] + [last];
    if DropLastReturn(last.points) == [] {
      assert last.points == [Point(row.head, [row.ret])] by { OnlyReturn(last.points, row); }
    }
  }

  lemma DropHead(ps: seq<Point>)
    requires CanonicalPoints(ps) && ps != []
    ensures var d := DropLastReturn(ps);
            d == [] || d[|d| - 1].head.id != ps[|ps| - 1].head.id || d[|d| - 1].head == ps[|ps| - 1].head
  {
  }

  lemma OnlyReturn(ps: seq<Point>, row: Row)
    requires CanonicalPoints(ps) && ps != [] && DropLastReturn(ps) == []
    requires var point := ps[|ps| - 1]; row.head == point.head && row.ret == point.rets[|point.rets| - 1]
    ensures ps == [Point(row.head, [row.ret])]
  {
    assert ps == [ps[0]];
    assert ps[0].rets == [row.ret];
  }

  /** A canonical structure is determined by its rows, so faithful and canonical together say
      everything about the regrouping. */
  lemma {:induction false} CanonicalIsUnique(a: seq<Scanline>, b: seq<Scanline>)
    requires Canonical(a) && Canonical(b) && Flatten(a) == Flatten(b)
    ensures a == b
    decreases |Flatten(a)|
  {
    if a == [] {
      if b != [] { Rebuild(b); }
    } else {
      Rebuild(a);
      Rebuild(b);
      CanonicalIsUnique(DropLastRow(a), DropLastRow(b));
    }
  }

  // ----- packed to nested

  ghost predicate CanRegroup(f: Frame) {
    f.packed.Some? ==>
      && NestedReadable(f.packed.value, f.totalReturns)
      && (f.packed.value.pointId.Some? && f.totalReturns > 0 ==> HasScanlineIds(f))
  }

  /** The first return of the run of equal point ids that `k` belongs to. */
  function RunStart(p: Packed, k: nat): (j: nat)
    requires p.pointId.Some? && Holds(p.pointId, 4, k + 1)
    ensures j <= k
    ensures forall i :: j <= i <= k ==> PointId(p, i) == PointId(p, k)
    ensures j > 0 ==> PointId(p, j - 1) != PointId(p, k)
  {
    if k > 0 && PointId(p, k - 1) == PointId(p, k) then RunStart(p, k - 1) else k
  }

  /** The row that return `k` should become: its own values, the scanline of its point id, and the
      point data of the first return of its run. */
  function RowAt(f: Frame, k: nat): Row
    requires f.packed.Some? && f.packed.value.pointId.Some?
    requires NestedReadable(f.packed.value, k + 1) && HasScanlineIds(f)
  {
    var p := f.packed.value;
    NestedReadablePrefix(p, k + 1, RunStart(p, k) + 1);
    Row(ScanlineId(f, PointId(p, k)), HeadAt(p, RunStart(p, k)), ReturnAt(p, k))
  }

  function Rows(f: Frame, n: nat): (rows: seq<Row>)
    requires f.packed.Some? && f.packed.value.pointId.Some?
    requires NestedReadable(f.packed.value, n) && (n > 0 ==> HasScanlineIds(f))
    ensures |rows| == n
  {
    seq(n, k requires 0 <= k < n => NestedReadablePrefix(f.packed.value, n, k + 1); RowAt(f, k))
  }

  const BLANK_HEAD := PointHead(0, 0, 0, 0, None)

  function AllReturns(p: Packed, n: nat): (rs: seq<Return>)
    requires NestedReadable(p, n)
    ensures |rs| == n
  {
    seq(n, k requires 0 <= k < n => NestedReadablePrefix(p, n, k + 1); ReturnAt(p, k))
  }

  /** What the nested conversion must produce. */
  ghost predicate IsNested(f: Frame, g: Frame)
    requires CanRegroup(f)
  {
    if f.packed.None? then g == f
    else
      exists added :: g == f.(packed := None, scanlines := f.scanlines + added) && IsRegrouped(f, added)
  }

  ghost predicate IsRegrouped(f: Frame, added: seq<Scanline>)
    requires CanRegroup(f) && f.packed.Some?
  {
    var p := f.packed.value;
    if p.pointId.Some? then Canonical(added) && Flatten(added) == Rows(f, f.totalReturns)
    else added == [Scanline(0, 0, [Point(BLANK_HEAD, AllReturns(p, f.totalReturns))])]
  }

  /** Adding return `i` to the rows before it puts it under the head of its run. */
  lemma HeadOfRun(f: Frame, added: seq<Scanline>, i: nat, row: Row)
    requires CanRegroup(f) && f.packed.Some? && f.packed.value.pointId.Some? && i < f.totalReturns
    requires NestedReadable(f.packed.value, i) && NestedReadable(f.packed.value, i + 1)
    requires Canonical(added) && Flatten(added) == Rows(f, i)
    requires var p := f.packed.value; row == Row(ScanlineId(f, PointId(p, i)), HeadAt(p, i), ReturnAt(p, i))
    ensures row.(head := GroupHead(added, row)) == RowAt(f, i)
  {
    hide Be32At, ReturnAt, ScanlineId;
    if added == [] {
      assert i == 0;
    } else {
      LastRow(added);
      assert i > 0;
      assert Rows(f, i)[i - 1] == RowAt(f, i - 1);
    }
  }

  /** One step of the specification, in the loop's terms. */
  lemma RowsSnoc(f: Frame, added: seq<Scanline>, i: nat)
    requires CanRegroup(f) && f.packed.Some? && f.packed.value.pointId.Some? && i < f.totalReturns
    requires NestedReadable(f.packed.value, i) && Canonical(added) && Flatten(added) == Rows(f, i)
    ensures NestedReadable(f.packed.value, i + 1)
    ensures var p := f.packed.value;
            var row := Row(ScanlineId(f, PointId(p, i)), HeadAt(p, i), ReturnAt(p, i));
            Canonical(AddRow(added, row)) && Flatten(AddRow(added, row)) == Rows(f, i + 1)
  {
    hide Be32At, ReturnAt, ScanlineId, HeadAt, GroupHead, AddRow, Canonical, Flatten, RowAt, Xyz;
    var p := f.packed.value;
    NestedReadablePrefix(p, f.totalReturns, i + 1);
    var row := Row(ScanlineId(f, PointId(p, i)), HeadAt(p, i), ReturnAt(p, i));
    AddRowFlatten(added, row);
    HeadOfRun(f, added, i, row);
    assert Rows(f, i + 1) == Rows(f, i) + [RowAt(f, i)];
  }

  // The three ways in which the loop changes the scanlines in place.

  function WithScanline(ss: seq<Scanline>, id: uint64): (r: seq<Scanline>)
    ensures |r| == |ss| + 1 && r[|ss|].points == []
  {
    ss + [Scanline(id, 0, [])]
  }

  function WithPoint(ss: seq<Scanline>, scanline: nat, head: PointHead): (r: seq<Scanline>)
    requires scanline < |ss|
    ensures |r| == |ss| && |r[scanline].points| == |ss[scanline].points| + 1
  {
    var s := ss[scanline];
    ss[scanline := s.(points := s.points + [Point(head, [])])]
  }

  function WithReturn(ss: seq<Scanline>, scanline: nat, point: nat, ret: Return): (r: seq<Scanline>)
    requires scanline < |ss| && point < |ss[scanline].points|
    ensures |r| == |ss|
  {
    var s := ss[scanline];
    var pt := s.points[point];
    ss[scanline := s.(points := s.points[point := pt.(rets := pt.rets + [ret])])]
  }

  lemma ToNewScanline(base: seq<Scanline>, added: seq<Scanline>, row: Row)
    requires added == [] || added[|added| - 1].id != row.scanline
    ensures var k := |base + added|;
            WithReturn(WithPoint(WithScanline(base + added, row.scanline), k, row.head), k, 0, row.ret)
            == base + AddRow(added, row)
  {
    var k := |base + added|;
    BlankPoint(base + added, row.scanline, row.head);
    var wp := WithPoint(WithScanline(base + added, row.scanline), k, row.head);
    assert wp[k].points[0 := Point(row.head, [row.ret])] == [Point(row.head, [row.ret])];
    assert [] + [row.ret] == [row.ret];
    assert WithReturn(wp, k, 0, row.ret)[k] == Scanline(row.scanline, 0, [Point(row.head, [row.ret])]);
  }

  lemma BlankPoint(ss: seq<Scanline>, id: uint64, head: PointHead)
    ensures WithPoint(WithScanline(ss, id), |ss|, head) == ss + [Scanline(id, 0, [Point(head, [])])]
  {
    var s := WithScanline(ss, id);
    assert s[|ss|].points + [Point(head, [])] == [Point(head, [])];
  }

  lemma OnOnlyPoint(base: seq<Scanline>, rs: seq<Return>, ret: Return)
    ensures WithReturn(base + [Scanline(0, 0, [Point(BLANK_HEAD, rs)])], |base|, 0, ret)
            == base + [Scanline(0, 0, [Point(BLANK_HEAD, rs + [ret])])]
  {
    var ps := [Point(BLANK_HEAD, rs)];
    assert ps[0 := Point(BLANK_HEAD, rs + [ret])] == [Point(BLANK_HEAD, rs + [ret])];
  }

  lemma ToNewPoint(base: seq<Scanline>, added: seq<Scanline>, row: Row)
    requires added != [] && added[|added| - 1].id == row.scanline && added[|added| - 1].points != []
    requires var ps := added[|added| - 1].points; ps[|ps| - 1].head.id != row.head.id
    ensures var k := |base + added| - 1;
            var point := |added[|added| - 1].points|;
            && (base + added)[k] == added[|added| - 1]
            && WithReturn(WithPoint(base + added, k, row.head), k, point, row.ret) == base + AddRow(added, row)
  {
    var last := added[|added| - 1];
    assert [] + [row.ret] == [row.ret];
    assert (last.points + [Point(row.head, [])])[|last.points| := Point(row.head, [row.ret])]
        == last.points + [Point(row.head, [row.ret])];
  }

  lemma ToSamePoint(base: seq<Scanline>, added: seq<Scanline>, row: Row)
    requires added != [] && added[|added| - 1].id == row.scanline && added[|added| - 1].points != []
    requires var ps := added[|added| - 1].points; ps[|ps| - 1].head.id == row.head.id
    ensures var k := |base + added| - 1;
            var point := |added[|added| - 1].points| - 1;
            && (base + added)[k] == added[|added| - 1]
            && WithReturn(base + added, k, point, row.ret) == base + AddRow(added, row)
  {
  }

  method ConvertToNested(frameIn: Frame) returns (frameOut: Frame)
    requires CanRegroup(frameIn)
    ensures IsNested(frameIn, frameOut)
  {
    hide Be32At, ReturnAt, ScanlineId, HasScanlineIds, RowAt, Flatten, Canonical, AddRow, Xyz, AllReturns,
         WithScanline, WithPoint, WithReturn, HeadAt, PointId, Rows, Holds, Lines, PointsPerScanline;
    frameOut := frameIn;
    if frameIn.packed.Some? {
      var p := frameIn.packed.value;
      var scanlines := frameOut.scanlines;
      NestedReadablePrefix(p, frameIn.totalReturns, 0);
      ghost var base := frameIn.scanlines;
      ghost var added: seq<Scanline> := [];
      var scanline, point := -1, -1;   // positions of the current scanline and point; -1 is nullptr

      if p.pointId.None? {
        scanline, point := |scanlines|, 0;
        scanlines := WithScanline(scanlines, 0);
        scanlines := WithPoint(scanlines, scanline, BLANK_HEAD);
        added := [Scanline(0, 0, [Point(BLANK_HEAD, AllReturns(p, 0))])];
        NoReturns(p);
        BlankPoint(base, 0, BLANK_HEAD);
      } else {
        NoRows(frameIn);
      }

      var i := 0;
      while i < frameIn.totalReturns
        invariant i <= frameIn.totalReturns && NestedReadable(p, i)
        invariant scanlines == base + added
        invariant PointsAtLast(base, added, scanline, point)
        invariant p.pointId.Some? ==> Canonical(added) && Flatten(added) == Rows(frameIn, i)
        invariant p.pointId.None? ==> added == [Scanline(0, 0, [Point(BLANK_HEAD, AllReturns(p, i))])]
      {
        NestedReadablePrefix(p, frameIn.totalReturns, i + 1);
        if p.pointId.Some? {
          var id := PointId(p, i);
          var scanlineId := ScanlineId(frameIn, id);
          ghost var row := Row(scanlineId, HeadAt(p, i), ReturnAt(p, i));
          RowsSnoc(frameIn, added, i);
          PointersAfter(added, row);
          HeadId(p, i);

          if scanline == -1 || scanlineId != scanlines[scanline].id {
            ToNewScanline(base, added, row);
            scanline, point := |scanlines|, -1;
            scanlines := WithScanline(scanlines, scanlineId);
          } else if id != scanlines[scanline].points[point].head.id {
            ToNewPoint(base, added, row);
          } else {
            ToSamePoint(base, added, row);
          }
          if point == -1 || id != scanlines[scanline].points[point].head.id {
            point := |scanlines[scanline].points|;
            scanlines := WithPoint(scanlines, scanline, HeadAt(p, i));
          }
          added := AddRow(added, row);
        } else {
          OneMoreReturn(p, i);
          OnOnlyPoint(base, AllReturns(p, i), ReturnAt(p, i));
          added := [Scanline(0, 0, [Point(BLANK_HEAD, AllReturns(p, i + 1))])];
        }

        scanlines := WithReturn(scanlines, scanline, point, ReturnAt(p, i));
        i := i + 1;
      }
      frameOut := frameOut.(scanlines := scanlines);
      frameOut := frameOut.(packed := None);
      assert IsRegrouped(frameIn, added);
    }
  }

  /** The two pointers stand at the last added scanline and its last point, or at nothing. */
  ghost predicate PointsAtLast(base: seq<Scanline>, added: seq<Scanline>, scanline: int, point: int) {
    if added == [] then scanline == -1 && point == -1
    else
      var last := added[|added| - 1];
      last.points != [] && scanline == |base| + |added| - 1 && point == |last.points| - 1
  }

  lemma HeadId(p: Packed, i: nat)
    requires NestedReadable(p, i + 1) && p.pointId.Some?
    ensures HeadAt(p, i).id == PointId(p, i)
  {
  }

  lemma NoReturns(p: Packed)
    ensures AllReturns(p, 0) == []
  {
  }

  lemma NoRows(f: Frame)
    requires f.packed.Some? && f.packed.value.pointId.Some?
    ensures Canonical([]) && Flatten([]) == Rows(f, 0)
  {
  }

  lemma OneMoreReturn(p: Packed, i: nat)
    requires NestedReadable(p, i) && NestedReadable(p, i + 1)
    ensures AllReturns(p, i + 1) == AllReturns(p, i) + [ReturnAt(p, i)]
  {
  }

  lemma PointersAfter(added: seq<Scanline>, row: Row)
    requires Canonical(added)
    ensures var r := AddRow(added, row);
            var last := r[|r| - 1];
            && last.points != []
            && |r| == (if added == [] || added[|added| - 1].id != row.scanline then |added| + 1 else |added|)
            && |last.points| ==
                 (if added == [] || added[|added| - 1].id != row.scanline then 1
                  else
                    var ps := added[|added| - 1].points;
                    if ps[|ps| - 1].head.id != row.head.id then |ps| + 1 else |ps|)
  {
  }

  // ----- directions

  /** Azimuth and elevation of return `i`. */
  function DirectionAt(p: Packed, i: nat): (Float, Float)
    requires p.direction.Some? && Holds(p.direction, 8, i + 1)
  {
    (Be32At(p.direction.value, 2 * i), Be32At(p.direction.value, 2 * i + 1))
  }

  /** Every point of the regrouped frame has the direction of its first return. */
  ghost predicate FaithfulDirections(f: Frame, rows: seq<Row>)
    requires f.packed.Some? && f.packed.value.pointId.Some? && f.packed.value.direction.Some?
    requires Holds(f.packed.value.pointId, 4, |rows|) && Holds(f.packed.value.direction, 8, |rows|)
  {
    var p := f.packed.value;
    forall k :: 0 <= k < |rows| ==> rows[k].head.direction == Some(DirectionAt(p, RunStart(p, k)))
  }

  /** The first return of each run finds its direction where the source looks for it: as words `2k` and
      `2k + 1` of the coordinates. */
  ghost predicate DirectionsInCoordinates(p: Packed, n: nat)
    requires p.pointId.Some? && p.direction.Some? && NestedReadable(p, n) && Holds(p.direction, 8, n)
  {
    forall k :: 0 <= k < n && RunStart(p, k) == k ==>
      DirectionAt(p, k) == (Be32At(p.cartesian.value, 2 * k), Be32At(p.cartesian.value, 2 * k + 1))
  }

  lemma {:induction false} RunStartIsStart(p: Packed, k: nat)
    requires p.pointId.Some? && Holds(p.pointId, 4, k + 1)
    ensures RunStart(p, RunStart(p, k)) == RunStart(p, k)
    decreases k
  {
    if RunStart(p, k) < k {
      RunStartIsStart(p, k - 1);
    }
  }

  /** Exactly when the regrouped points have the directions of the frame. */
  lemma DirectionsFaithfulIff(f: Frame, added: seq<Scanline>)
    requires CanRegroup(f) && f.packed.Some? && IsRegrouped(f, added)
    requires f.packed.value.pointId.Some? && f.packed.value.direction.Some?
    requires Holds(f.packed.value.direction, 8, f.totalReturns)
    ensures |Flatten(added)| == f.totalReturns
    ensures FaithfulDirections(f, Flatten(added)) <==> DirectionsInCoordinates(f.packed.value, f.totalReturns)
  {
    hide Be32At, ReturnAt, ScanlineId, HasScanlineIds, RunStart, Flatten, Canonical;
    var p, n, rows := f.packed.value, f.totalReturns, Flatten(added);
    forall k | 0 <= k < n
      ensures rows[k].head == HeadAt(p, RunStart(p, k)) && RunStart(p, RunStart(p, k)) == RunStart(p, k)
    {
      NestedReadablePrefix(p, n, k + 1);
      assert rows[k] == RowAt(f, k);
      RunStartIsStart(p, k);
    }
  }

  /** A single return at the origin, seen in some other direction. */
  lemma DirectionMistaken()
    ensures var zero := [0, 0, 0, 0];
            var p := Packed(1, Some(zero + zero + zero), Some([0, 0, 0, 1] + zero), None, None, None, None,
                            Some(zero), None, None);
            && NestedReadable(p, 1) && Holds(p.direction, 8, 1)
            && HeadAt(p, 0).direction == Some((0, 0)) && DirectionAt(p, 0) == (1, 0)
  {
  }
}
