/**
 The PointCloud2 publisher: fields laid out one after the other, and the returns of a frame packed
 into one byte buffer by computed offsets.
 */
module PointCloud2 {
  import opened Bytes
  import opened PointCloudData

  const FLOAT32: nat := 7
  const UINT32: nat := 6

  datatype PointField = PointField(name: string, offset: nat, kind: nat, count: nat)

  // ----- layout

  /** Field offsets are the prefix sums of the field sizes. */
  ghost predicate LaidOut(fields: seq<PointField>, sizes: seq<nat>, step: nat) {
    && |fields| == |sizes| && step == Sum(sizes)
    && forall i :: 0 <= i < |fields| ==> fields[i].offset == Sum(sizes[..i])
  }

  lemma NothingLaidOut()
    ensures LaidOut([], [], 0)
  {
  }

  lemma {:induction false} SumMonotone(sizes: seq<nat>, i: nat, j: nat)
    requires i < j <= |sizes|
    ensures Sum(sizes[..i]) + sizes[i] <= Sum(sizes[..j])
    decreases j
  {
    assert sizes[..j][..j - 1] == sizes[..j - 1];
    if i < j - 1 {
      SumMonotone(sizes, i, j - 1);
    }
  }

  /** Fields occupy disjoint ranges, in order, inside the point's record. */
  lemma FieldsDisjoint(fields: seq<PointField>, sizes: seq<nat>, step: nat, i: nat, j: nat)
    requires LaidOut(fields, sizes, step) && i < |fields|
    ensures fields[i].offset + sizes[i] <= step
    ensures i < j < |fields| ==> fields[i].offset + sizes[i] <= fields[j].offset
  {
    SumMonotone(sizes, i, |sizes|);
    assert sizes[..|sizes|] == sizes;
    if i < j < |fields| {
      SumMonotone(sizes, i, j);
    }
  }

  // ----- writing into the buffer

  datatype Write = Write(at: nat, bytes: seq<byte>)

  /** The object representation of an unsigned value of `width` octets on a little-endian host. */
  function LittleEndian(v: nat, width: nat): (s: seq<byte>)
    ensures |s| == width
  {
    if width == 0 then [] else [v % 256] + LittleEndian(v / 256, width - 1)
  }

  lemma {:induction false} LittleEndianPrefix(v: nat, width: nat, n: nat)
    requires n <= width
    ensures LittleEndian(v, width)[..n] == LittleEndian(v, n)
    decreases n
  {
    if n > 0 {
      LittleEndianPrefix(v / 256, width - 1, n - 1);
    }
  }

  function Put(d: seq<byte>, w: Write): (r: seq<byte>)
    requires w.at + |w.bytes| <= |d|
    ensures |r| == |d|
  {
    d[..w.at] + w.bytes + d[w.at + |w.bytes|..]
  }

  predicate Fits(ws: seq<Write>, n: nat) {
    forall i :: 0 <= i < |ws| ==> ws[i].at + |ws[i].bytes| <= n
  }

  function PutAll(d: seq<byte>, ws: seq<Write>): (r: seq<byte>)
    requires Fits(ws, |d|)
    ensures |r| == |d|
  {
    if ws == [] then d else Put(PutAll(d, ws[..|ws| - 1]), ws[|ws| - 1])
  }

  lemma PutAllSnoc(d: seq<byte>, ws: seq<Write>, w: Write)
    requires Fits(ws, |d|) && w.at + |w.bytes| <= |d|
    ensures Fits(ws + [w], |d|)
    ensures PutAll(d, ws + [w]) == Put(PutAll(d, ws), w)
  {
    assert (ws + [w])[..|ws + [w]| - 1] == ws;
  }

  /** What a write put at its start survives as far as no later write begins. */
  lemma {:induction false} WriteSurvives(d: seq<byte>, ws: seq<Write>, j: nat, size: nat)
    requires Fits(ws, |d|) && j < |ws| && size <= |ws[j].bytes|
    requires forall i :: j < i < |ws| ==> ws[j].at + size <= ws[i].at
    ensures PutAll(d, ws)[ws[j].at..ws[j].at + size] == ws[j].bytes[..size]
    decreases |ws|
  {
    var init, last := ws[..|ws| - 1], ws[|ws| - 1];
    var before := PutAll(d, init);
    if j < |init| {
      WriteSurvives(d, init, j, size);
      var at := ws[j].at;
      assert Put(before, last)[..last.at] == before[..last.at];
      assert forall k :: at <= k < at + size ==> Put(before, last)[k] == before[k];
    } else {
      assert Put(before, last)[last.at..last.at + size] == last.bytes[..size];
    }
  }

  // ----- the values of a frame, return by return

  const FIELD_COUNT: nat := 8

  const NAMES: seq<string> := ["x", "y", "z", "intensity", "ambient_light", "time_offset", "point_id", "return_id"]

  type Values = v: seq<nat> | |v| == FIELD_COUNT witness [0, 0, 0, 0, 0, 0, 0, 0]

  /** What the field of that name is to hold for one return. */
  function ValueNamed(name: string, timeOffset: uint64, head: PointHead, ret: Return): nat
    requires |ret.cartesian| >= 3
  {
    if name == "x" then ret.cartesian[0]
    else if name == "y" then ret.cartesian[1]
    else if name == "z" then ret.cartesian[2]
    else if name == "intensity" then ret.intensity
    else if name == "ambient_light" then head.ambient
    else if name == "time_offset" then timeOffset
    else if name == "point_id" then head.id
    else if name == "return_id" then ret.id
    else 0
  }

  /** The values of one return in field order; the time offset is the scanline's plus the point's. */
  function ValuesOf(scanlineOffset: uint64, head: PointHead, ret: Return): (v: Values)
    requires |ret.cartesian| >= 3
  {
    var t := Wrap64(scanlineOffset + head.startOffsetNs);
    seq(FIELD_COUNT, f requires 0 <= f < FIELD_COUNT => ValueNamed(NAMES[f], t, head, ret))
  }

  lemma ValuesByName(scanlineOffset: uint64, head: PointHead, ret: Return)
    requires |ret.cartesian| >= 3
    ensures forall f :: 0 <= f < FIELD_COUNT ==>
              ValuesOf(scanlineOffset, head, ret)[f]
              == ValueNamed(NAMES[f], Wrap64(scanlineOffset + head.startOffsetNs), head, ret)
  {
  }

  predicate HasCoordinates(ss: seq<Scanline>) {
    forall s, p, r :: 0 <= s < |ss| && 0 <= p < |ss[s].points| && 0 <= r < |ss[s].points[p].rets| ==>
                        |ss[s].points[p].rets[r].cartesian| >= 3
  }

  function ReturnValues(scanlineOffset: uint64, head: PointHead, rs: seq<Return>): (vs: seq<Values>)
    requires forall r :: 0 <= r < |rs| ==> |rs[r].cartesian| >= 3
    ensures |vs| == |rs|
  {
    seq(|rs|, r requires 0 <= r < |rs| => ValuesOf(scanlineOffset, head, rs[r]))
  }

  function PointValues(scanlineOffset: uint64, ps: seq<Point>): seq<Values>
    requires forall p, r :: 0 <= p < |ps| && 0 <= r < |ps[p].rets| ==> |ps[p].rets[r].cartesian| >= 3
  {
    if ps == [] then []
    else
      var last := ps[|ps| - 1];
      PointValues(scanlineOffset, ps[..|ps| - 1]) + ReturnValues(scanlineOffset, last.head, last.rets)
  }

  function FrameValues(ss: seq<Scanline>): seq<Values>
    requires HasCoordinates(ss)
  {
    if ss == [] then []
    else
      var last := ss[|ss| - 1];
      FrameValues(ss[..|ss| - 1]) + PointValues(last.startOffsetNs, last.points)
  }

  lemma {:induction false} FewerScanlines(ss: seq<Scanline>, k: nat)
    requires HasCoordinates(ss) && k <= |ss|
    ensures FrameValues(ss[..k]) <= FrameValues(ss)
    decreases |ss| - k
  {
    if k < |ss| {
      FewerScanlines(ss, k + 1);
      assert ss[..k + 1][..k] == ss[..k];
    } else {
      assert ss[..k] == ss;
    }
  }

  lemma {:induction false} FewerPoints(offset: uint64, ps: seq<Point>, k: nat)
    requires forall p, r :: 0 <= p < |ps| && 0 <= r < |ps[p].rets| ==> |ps[p].rets[r].cartesian| >= 3
    requires k <= |ps|
    ensures PointValues(offset, ps[..k]) <= PointValues(offset, ps)
    decreases |ps| - k
  {
    if k < |ps| {
      FewerPoints(offset, ps, k + 1);
      assert ps[..k + 1][..k] == ps[..k];
    } else {
      assert ps[..k] == ps;
    }
  }

  // ----- the writes the fill loop makes

  /** Octets written per field: the size of the value's type, not of the field. */
  type Widths = w: seq<nat> | |w| == FIELD_COUNT witness [4, 4, 4, 4, 4, 4, 4, 4]

  /** `cartesian` is float, `time_offset` a sum of uint64, everything else uint32. */
  const SOURCE_WIDTHS: Widths := [4, 4, 4, 4, 4, 8, 4, 4]

  const STEP: nat := 32

  function FieldWrite(k: nat, f: nat, v: Values, widths: Widths): Write
    requires f < FIELD_COUNT
  {
    Write(k * STEP + 4 * f, LittleEndian(v[f], widths[f]))
  }

  function FirstWrites(k: nat, v: Values, widths: Widths, n: nat): (ws: seq<Write>)
    requires n <= FIELD_COUNT
    ensures |ws| == n
  {
    seq(n, f requires 0 <= f < n => FieldWrite(k, f, v, widths))
  }

  /** All writes for the first returns, in program order: write 8k+f is field f of return k. */
  function Writes(vs: seq<Values>, widths: Widths): (ws: seq<Write>)
    ensures |ws| == FIELD_COUNT * |vs|
    ensures forall i :: 0 <= i < |ws| ==> ws[i] == FieldWrite(i / 8, i % 8, vs[i / 8], widths) && ws[i].at == 4 * i
  {
    if vs == [] then []
    else Writes(vs[..|vs| - 1], widths) + FirstWrites(|vs| - 1, vs[|vs| - 1], widths, FIELD_COUNT)
  }

  /** No field's value reaches past its point's record. */
  predicate StaysInRecord(widths: Widths) {
    forall f :: 0 <= f < FIELD_COUNT ==> 4 * f + widths[f] <= STEP
  }

  /** Every write of `n` points stays in the buffer exactly when every field's write stays in its record. */
  lemma WritesInBounds(vs: seq<Values>, widths: Widths)
    ensures Fits(Writes(vs, widths), |vs| * STEP) <==> vs == [] || StaysInRecord(widths)
  {
    var ws := Writes(vs, widths);
    if vs != [] {
      if StaysInRecord(widths) {
        forall i | 0 <= i < |ws|
          ensures ws[i].at + |ws[i].bytes| <= |vs| * STEP
        {
          assert ws[i] == FieldWrite(i / 8, i % 8, vs[i / 8], widths);
        }
      } else {
        var f :| 0 <= f < FIELD_COUNT && 4 * f + widths[f] > STEP;
        var i := 8 * (|vs| - 1) + f;
        DivMod8(|vs| - 1, f);
        assert ws[i] == FieldWrite(i / 8, i % 8, vs[i / 8], widths);
      }
    }
  }

  /** For a buffer of any size, with the types the source writes: it takes all writes exactly when it has
      a record for every return. */
  lemma SourceWritesFitIff(vs: seq<Values>, n: nat)
    ensures Fits(Writes(vs, SOURCE_WIDTHS), n) <==> |vs| * STEP <= n
  {
    hide Writes, StaysInRecord;
    if vs != [] {
      assert StaysInRecord(SOURCE_WIDTHS) by { SourceStaysInRecord(); }
      WritesInBounds(vs, SOURCE_WIDTHS);
      LastWriteEnds(vs);
    }
  }

  lemma SourceStaysInRecord()
    ensures StaysInRecord(SOURCE_WIDTHS)
  {
  }

  /** The last write fills the last record. */
  lemma LastWriteEnds(vs: seq<Values>)
    requires vs != []
    ensures var w := Writes(vs, SOURCE_WIDTHS)[8 * |vs| - 1]; w.at + |w.bytes| == |vs| * STEP
  {
    hide Writes, LittleEndian;
    var last := 8 * (|vs| - 1) + 7;
    DivMod8(|vs| - 1, 7);
    assert Writes(vs, SOURCE_WIDTHS)[last] == FieldWrite(last / 8, last % 8, vs[last / 8], SOURCE_WIDTHS);
  }

  /** Main result: after all writes the low four octets of every field of every return hold that return's
      value, also where a value is written wider than its field, since later writes start later. */
  lemma FieldsHoldValues(d: seq<byte>, vs: seq<Values>, widths: Widths, k: nat, f: nat)
    requires |vs| * STEP <= |d| && StaysInRecord(widths) && k < |vs| && f < FIELD_COUNT && widths[f] >= 4
    ensures Fits(Writes(vs, widths), |d|)
    ensures var at := k * STEP + 4 * f;
            && PutAll(d, Writes(vs, widths))[at..at + 4] == LittleEndian(vs[k][f], 4)
            && Read32(PutAll(d, Writes(vs, widths)), at) == vs[k][f] % 0x1_0000_0000
  {
    hide Writes, PutAll, StaysInRecord, Read32, LittleEndian;
    WritesInBounds(vs, widths);
    var ws, j := Writes(vs, widths), 8 * k + f;
    DivMod8(k, f);
    assert ws[j] == FieldWrite(j / 8, j % 8, vs[j / 8], widths);
    assert forall i :: j < i < |ws| ==> ws[j].at + 4 <= ws[i].at;
    WriteSurvives(d, ws, j, 4);
    LittleEndianPrefix(vs[k][f], widths[f], 4);
    ReadsBack(PutAll(d, Writes(vs, widths)), k * STEP + 4 * f, vs[k][f]);
  }

  /** The types of the values in the source: only the time offset is wider than its field, and all four
      low octets of every field of every return come out right. */
  lemma SourceFieldsHoldValues(d: seq<byte>, vs: seq<Values>, k: nat, f: nat)
    requires |vs| * STEP <= |d| && k < |vs| && f < FIELD_COUNT
    ensures Fits(Writes(vs, SOURCE_WIDTHS), |d|)
    ensures var at := k * STEP + 4 * f;
            && PutAll(d, Writes(vs, SOURCE_WIDTHS))[at..at + 4] == LittleEndian(vs[k][f], 4)
            && Read32(PutAll(d, Writes(vs, SOURCE_WIDTHS)), at) == vs[k][f] % 0x1_0000_0000
  {
    FieldsHoldValues(d, vs, SOURCE_WIDTHS, k, f);
  }

  lemma DivMod8(k: nat, f: nat)
    requires f < 8
    ensures (8 * k + f) / 8 == k && (8 * k + f) % 8 == f
  {
  }

  lemma TakeAll(ws: seq<Write>, w: seq<Write>)
    ensures forall n :: 0 < n < |w| ==> (ws + w[..n]) + [w[n]] == ws + w[..n + 1]
    ensures w != [] ==> ws + [w[0]] == ws + w[..1]
    ensures ws + w[..|w|] == ws + w
  {
    assert w[..|w|] == w;
  }

  // ----- where a return is packed

  function PointReturns(ps: seq<Point>): nat {
    if ps == [] then 0 else PointReturns(ps[..|ps| - 1]) + |ps[|ps| - 1].rets|
  }

  function Returns(ss: seq<Scanline>): nat {
    if ss == [] then 0 else Returns(ss[..|ss| - 1]) + PointReturns(ss[|ss| - 1].points)
  }

  lemma {:induction false} PointValueCount(offset: uint64, ps: seq<Point>)
    requires forall p, r :: 0 <= p < |ps| && 0 <= r < |ps[p].rets| ==> |ps[p].rets[r].cartesian| >= 3
    ensures |PointValues(offset, ps)| == PointReturns(ps)
    decreases |ps|
  {
    hide ReturnValues;
    if ps != [] {
      PointValueCount(offset, ps[..|ps| - 1]);
    }
  }

  lemma {:induction false} ValueCount(ss: seq<Scanline>)
    requires HasCoordinates(ss)
    ensures |FrameValues(ss)| == Returns(ss)
    decreases |ss|
  {
    hide PointValues;
    if ss != [] {
      ValueCount(ss[..|ss| - 1]);
      PointValueCount(ss[|ss| - 1].startOffsetNs, ss[|ss| - 1].points);
    }
  }

  /** How many returns of the frame come before this one. */
  function Position(ss: seq<Scanline>, s: nat, p: nat, r: nat): nat
    requires s < |ss| && p < |ss[s].points|
  {
    Returns(ss[..s]) + PointReturns(ss[s].points[..p]) + r
  }

  lemma ValuesAtPosition(ss: seq<Scanline>, s: nat, p: nat, r: nat)
    requires HasCoordinates(ss) && s < |ss| && p < |ss[s].points| && r < |ss[s].points[p].rets|
    ensures var k, point := Position(ss, s, p, r), ss[s].points[p];
            k < |FrameValues(ss)| && FrameValues(ss)[k] == ValuesOf(ss[s].startOffsetNs, point.head, point.rets[r])
  {
    hide FrameValues, PointValues, ValuesOf;
    var offset, ps := ss[s].startOffsetNs, ss[s].points;
    FewerScanlines(ss, s + 1);
    NextScanline(ss, s);
    ValueCount(ss[..s]);
    FewerPoints(offset, ps, p + 1);
    NextPoint(offset, ps, p);
    PointValueCount(offset, ps[..p]);
    var before := FrameValues(ss[..s]);
    var inScanline := PointValues(offset, ps);
    assert (before + inScanline)[|before| + PointReturns(ps[..p]) + r] == inScanline[PointReturns(ps[..p]) + r];
  }

  // ----- the size of the buffer

  /** The product of two 32-bit numbers that the buffer is resized to. */
  function BufferSize(n: uint32): uint32 {
    (n * STEP) % TWO_32
  }

  /** The buffer has room for all announced returns exactly when there are fewer than 2^27. */
  lemma BufferSuffices(n: uint32)
    ensures n * STEP <= BufferSize(n) <==> n < 0x800_0000
  {
  }

  /** What a reader of the message finds in the four octets at an offset. */
  function Read32(d: seq<byte>, at: nat): nat
    requires at + 4 <= |d|
  {
    var b1: int, b2: int, b3: int := d[at + 1], d[at + 2], d[at + 3];
    d[at] + 256 * b1 + 65536 * b2 + 16777216 * b3
  }

  lemma LittleEndianReads(v: nat)
    ensures Read32(LittleEndian(v, 4), 0) == v % 0x1_0000_0000
  {
    var a := v / 256;
    var b := a / 256;
    var c := b / 256;
    assert LittleEndian(c, 1) == [c % 256] + LittleEndian(c / 256, 0);
    assert LittleEndian(b, 2) == [b % 256] + LittleEndian(c, 1);
    assert LittleEndian(a, 3) == [a % 256] + LittleEndian(b, 2);
    FourDigits(v);
  }

  lemma FourDigits(v: nat)
    ensures v % 256 + 256 * (v / 256 % 256) + 65536 * (v / 256 / 256 % 256) + 16777216 * (v / 256 / 256 / 256 % 256)
         == v % 0x1_0000_0000
  {
    var a := v / 256;
    var b := a / 256;
    var c := b / 256;
    var e := c / 256;
    assert v == 256 * a + v % 256 && a == 256 * b + a % 256 && b == 256 * c + b % 256 && c == 256 * e + c % 256;
    var r := v % 256 + 256 * (a % 256) + 65536 * (b % 256) + 16777216 * (c % 256);
    assert v == 0x1_0000_0000 * e + r && 0 <= r < 0x1_0000_0000;
    Modulo(e, r);
  }

  lemma Modulo(e: nat, r: nat)
    requires r < 0x1_0000_0000
    ensures (0x1_0000_0000 * e + r) % 0x1_0000_0000 == r
  {
  }

  /** What four octets hold as a value is what is read there. */
  lemma ReadsBack(d: seq<byte>, at: nat, v: nat)
    requires at + 4 <= |d| && d[at..at + 4] == LittleEndian(v, 4)
    ensures Read32(d, at) == v % 0x1_0000_0000
  {
    hide LittleEndian;
    var w := d[at..at + 4];
    assert w[0] == d[at] && w[1] == d[at + 1] && w[2] == d[at + 2] && w[3] == d[at + 3];
    LittleEndianReads(v);
  }

  /** A reader finds each value of the return in its field: x, y, z, intensity, ambient light, the low half
      of the time offset, and the two ids. */
  ghost predicate HoldsReturn(d: seq<byte>, k: nat, timeOffset: uint64, head: PointHead, ret: Return)
    requires |ret.cartesian| >= 3
  {
    var at := 32 * k;
    && at + 32 <= |d|
    && Read32(d, at) == ret.cartesian[0]
    && Read32(d, at + 4) == ret.cartesian[1]
    && Read32(d, at + 8) == ret.cartesian[2]
    && Read32(d, at + 12) == ret.intensity
    && Read32(d, at + 16) == head.ambient
    && Read32(d, at + 20) == timeOffset % 0x1_0000_0000
    && Read32(d, at + 24) == head.id
    && Read32(d, at + 28) == ret.id
  }

  /** Eight fields that hold the values by name are read as the return. */
  lemma FieldsHoldReturn(d: seq<byte>, k: nat, timeOffset: uint64, head: PointHead, ret: Return)
    requires |ret.cartesian| >= 3 && (k + 1) * STEP <= |d|
    requires forall f :: 0 <= f < FIELD_COUNT ==>
               d[k * STEP + 4 * f..k * STEP + 4 * f + 4] == LittleEndian(ValueNamed(NAMES[f], timeOffset, head, ret), 4)
    ensures HoldsReturn(d, k, timeOffset, head, ret)
  {
    hide LittleEndian, Read32, ValueNamed;
    var at := k * STEP;
    forall f | 0 <= f < FIELD_COUNT
      ensures Read32(d, at + 4 * f) == ValueNamed(NAMES[f], timeOffset, head, ret) % 0x1_0000_0000
    {
      ReadsBack(d, at + 4 * f, ValueNamed(NAMES[f], timeOffset, head, ret));
    }
    ValuesNamed(timeOffset, head, ret);
    assert Read32(d, at + 4 * 0) == ret.cartesian[0] && Read32(d, at + 4 * 1) == ret.cartesian[1];
    assert Read32(d, at + 4 * 2) == ret.cartesian[2] && Read32(d, at + 4 * 3) == ret.intensity;
    assert Read32(d, at + 4 * 4) == head.ambient && Read32(d, at + 4 * 5) == timeOffset % 0x1_0000_0000;
    assert Read32(d, at + 4 * 6) == head.id && Read32(d, at + 4 * 7) == ret.id;
  }

  lemma ValuesNamed(timeOffset: uint64, head: PointHead, ret: Return)
    requires |ret.cartesian| >= 3
    ensures ValueNamed(NAMES[0], timeOffset, head, ret) == ret.cartesian[0]
    ensures ValueNamed(NAMES[1], timeOffset, head, ret) == ret.cartesian[1]
    ensures ValueNamed(NAMES[2], timeOffset, head, ret) == ret.cartesian[2]
    ensures ValueNamed(NAMES[3], timeOffset, head, ret) == ret.intensity
    ensures ValueNamed(NAMES[4], timeOffset, head, ret) == head.ambient
    ensures ValueNamed(NAMES[5], timeOffset, head, ret) == timeOffset
    ensures ValueNamed(NAMES[6], timeOffset, head, ret) == head.id
    ensures ValueNamed(NAMES[7], timeOffset, head, ret) == ret.id
  {
    NamesDistinct();
  }

  ghost predicate HoldsFrame(d: seq<byte>, ss: seq<Scanline>)
    requires HasCoordinates(ss)
  {
    forall s, p, r :: 0 <= s < |ss| && 0 <= p < |ss[s].points| && 0 <= r < |ss[s].points[p].rets| ==>
      var point := ss[s].points[p];
      HoldsReturn(d, Position(ss, s, p, r), Wrap64(ss[s].startOffsetNs + point.head.startOffsetNs),
                  point.head, point.rets[r])
  }

  lemma WritesHoldReturn(d: seq<byte>, ss: seq<Scanline>, s: nat, p: nat, r: nat)
    requires HasCoordinates(ss) && s < |ss| && p < |ss[s].points| && r < |ss[s].points[p].rets|
    requires |FrameValues(ss)| * STEP <= |d| && Fits(Writes(FrameValues(ss), SOURCE_WIDTHS), |d|)
    ensures var point := ss[s].points[p];
            HoldsReturn(PutAll(d, Writes(FrameValues(ss), SOURCE_WIDTHS)), Position(ss, s, p, r),
                        Wrap64(ss[s].startOffsetNs + point.head.startOffsetNs), point.head, point.rets[r])
  {
    hide FrameValues, Writes, PutAll, Fits, Position, ValuesOf, ValueNamed, Wrap64, LittleEndian, HoldsReturn;
    var point, vs, k := ss[s].points[p], FrameValues(ss), Position(ss, s, p, r);
    ValuesAtPosition(ss, s, p, r);
    ValuesByName(ss[s].startOffsetNs, point.head, point.rets[r]);
    forall f | 0 <= f < FIELD_COUNT
      ensures PutAll(d, Writes(vs, SOURCE_WIDTHS))[k * STEP + 4 * f..k * STEP + 4 * f + 4] == LittleEndian(vs[k][f], 4)
    {
      SourceFieldsHoldValues(d, vs, k, f);
    }
    FieldsHoldReturn(PutAll(d, Writes(vs, SOURCE_WIDTHS)), k, Wrap64(ss[s].startOffsetNs + point.head.startOffsetNs),
                     point.head, point.rets[r]);
  }

  lemma WritesHoldFrame(d: seq<byte>, ss: seq<Scanline>)
    requires HasCoordinates(ss)
    requires |FrameValues(ss)| * STEP <= |d| && Fits(Writes(FrameValues(ss), SOURCE_WIDTHS), |d|)
    ensures HoldsFrame(PutAll(d, Writes(FrameValues(ss), SOURCE_WIDTHS)), ss)
  {
    hide FrameValues, Writes, PutAll, Fits, Position, HoldsReturn;
    forall s, p, r | 0 <= s < |ss| && 0 <= p < |ss[s].points| && 0 <= r < |ss[s].points[p].rets|
      ensures var point := ss[s].points[p];
              HoldsReturn(PutAll(d, Writes(FrameValues(ss), SOURCE_WIDTHS)), Position(ss, s, p, r),
                          Wrap64(ss[s].startOffsetNs + point.head.startOffsetNs), point.head, point.rets[r])
    {
      WritesHoldReturn(d, ss, s, p, r);
    }
  }

  // ----- the publisher

  /** Four octets each; 7 stands for FLOAT32, 6 for UINT32. */
  const STANDARD_FIELDS: seq<PointField> := [
    PointField("x", 0, 7, 1), PointField("y", 4, 7, 1), PointField("z", 8, 7, 1),
    PointField("intensity", 12, 6, 1), PointField("ambient_light", 16, 6, 1),
    PointField("time_offset", 20, 7, 1), PointField("point_id", 24, 6, 1), PointField("return_id", 28, 6, 1)]

  lemma StandardFields()
    ensures |STANDARD_FIELDS| == FIELD_COUNT
    ensures forall f :: 0 <= f < FIELD_COUNT ==>
              STANDARD_FIELDS[f].name == NAMES[f] && STANDARD_FIELDS[f].offset == 4 * f
  {
  }

  class Message {
    var fields: seq<PointField>
    var pointStep: nat
    var data: array<byte>
    ghost var sizes: seq<nat>

    constructor ()
      ensures fields == [] && pointStep == 0 && sizes == [] && fresh(data) && data.Length == 0
    {
      fields, pointStep, sizes := [], 0, [];
      data := new byte[0];
    }

    method AddPointCloudField(name: string, kind: nat, size: nat)
      requires LaidOut(fields, sizes, pointStep)
      modifies `fields, `pointStep, `sizes
      ensures LaidOut(fields, sizes, pointStep) && sizes == old(sizes) + [size]
      ensures fields == old(fields) + [PointField(name, old(pointStep), kind, 1)] && pointStep == old(pointStep) + size
    {
      fields := fields + [PointField(name, pointStep, kind, 1)];
      pointStep := pointStep + size;
      sizes := sizes + [size];
      assert sizes[..|sizes| - 1] == old(sizes);
      assert forall i :: 0 <= i < |old(sizes)| ==> sizes[..i] == old(sizes)[..i];
    }

    /** -1 when no field has the name, otherwise the first that has. */
    method GetFieldIndex(name: string) returns (index: int)
      ensures -1 <= index < |fields|
      ensures index >= 0 ==> fields[index].name == name && forall i :: 0 <= i < index ==> fields[i].name != name
      ensures index == -1 ==> forall i :: 0 <= i < |fields| ==> fields[i].name != name
    {
      for i := 0 to |fields|
        invariant forall j :: 0 <= j < i ==> fields[j].name != name
      {
        if fields[i].name == name {
          return i;
        }
      }
      index := -1;
    }

    ghost predicate Standard()
      reads this
    {
      fields == STANDARD_FIELDS && pointStep == 32
    }

    method MakePointCloudMessage()
      requires fields == [] && sizes == []
      modifies `fields, `pointStep, `sizes
      ensures Standard() && LaidOut(fields, sizes, pointStep) && sizes == seq(FIELD_COUNT, _ => 4)
    {
      hide Sum, LaidOut;
      pointStep := 0;
      assert LaidOut([], [], 0) by { NothingLaidOut(); }
      AddPointCloudField("x", FLOAT32, 4);
      AddPointCloudField("y", FLOAT32, 4);
      AddPointCloudField("z", FLOAT32, 4);
      AddPointCloudField("intensity", UINT32, 4);
      assert fields == STANDARD_FIELDS[..4] && pointStep == 16 && sizes == [4, 4, 4, 4];
      AddPointCloudField("ambient_light", UINT32, 4);
      AddPointCloudField("time_offset", FLOAT32, 4);
      AddPointCloudField("point_id", UINT32, 4);
      AddPointCloudField("return_id", UINT32, 4);
    }

    /** `data.resize`. */
    method Resize(n: nat)
      modifies `data
      ensures fresh(data) && data[..] == Resized(old(data[..]), n, 0)
    {
      var was := data;
      var bigger := new byte[n](_ => 0);
      var keep := if n < was.Length then n else was.Length;
      for i := 0 to keep
        invariant forall j :: 0 <= j < i ==> bigger[j] == was[j]
        invariant forall j :: i <= j < n ==> bigger[j] == 0
      {
        bigger[i] := was[i];
      }
      data := bigger;
    }

    /** The assignment through the reinterpreted pointer. */
    method Store(at: nat, bytes: seq<byte>)
      requires at + |bytes| <= data.Length
      modifies data
      ensures data[..] == Put(old(data[..]), Write(at, bytes))
    {
      for i := 0 to |bytes|
        invariant forall j :: 0 <= j < data.Length ==>
                    data[j] == if at <= j < at + i then bytes[j - at] else old(data[..])[j]
      {
        data[at + i] := bytes[i];
      }
    }

    /** Writes one value at the named field's offset in the record of point `k`. */
    method AssignField(k: nat, name: string, value: nat, width: nat,
                       ghost f: nat, ghost base: seq<byte>, ghost ws: seq<Write>)
      requires Standard() && f < FIELD_COUNT && NAMES[f] == name
      requires Fits(ws, |base|) && |base| == data.Length && data[..] == PutAll(base, ws)
      requires k * STEP + 4 * f + width <= data.Length
      modifies data
      ensures var w := Write(k * STEP + 4 * f, LittleEndian(value, width));
              Fits(ws + [w], |base|) && data[..] == PutAll(base, ws + [w])
    {
      hide PutAll, Put, LittleEndian;
      var index := GetFieldIndex(name);
      StandardFields();
      NamesDistinct();
      PutAllSnoc(base, ws, Write(k * STEP + 4 * f, LittleEndian(value, width)));
      Store(k * pointStep + fields[index].offset, LittleEndian(value, width));
    }

    /** The eight assignments for one return. */
    method AssignFields(k: nat, timeOffset: uint64, head: PointHead, ret: Return, widths: Widths,
                        ghost v: Values, ghost base: seq<byte>, ghost ws: seq<Write>)
      requires Standard() && StaysInRecord(widths) && (k + 1) * STEP <= data.Length
      requires |ret.cartesian| >= 3
      requires forall f :: 0 <= f < FIELD_COUNT ==> v[f] == ValueNamed(NAMES[f], timeOffset, head, ret)
      requires Fits(ws, |base|) && |base| == data.Length && data[..] == PutAll(base, ws)
      modifies data
      ensures Fits(ws + FirstWrites(k, v, widths, FIELD_COUNT), |base|)
      ensures data[..] == PutAll(base, ws + FirstWrites(k, v, widths, FIELD_COUNT))
    {
      hide PutAll, Put, LittleEndian, Fits;
      ghost var w := FirstWrites(k, v, widths, FIELD_COUNT);
      TakeAll(ws, w);
      AssignField(k, "x", ret.cartesian[0], widths[0], 0, base, ws);
      AssignField(k, "y", ret.cartesian[1], widths[1], 1, base, ws + w[..1]);
      AssignField(k, "z", ret.cartesian[2], widths[2], 2, base, ws + w[..2]);
      AssignField(k, "intensity", ret.intensity, widths[3], 3, base, ws + w[..3]);
      AssignField(k, "ambient_light", head.ambient, widths[4], 4, base, ws + w[..4]);
      AssignField(k, "time_offset", timeOffset, widths[5], 5, base, ws + w[..5]);
      AssignField(k, "point_id", head.id, widths[6], 6, base, ws + w[..6]);
      AssignField(k, "return_id", ret.id, widths[7], 7, base, ws + w[..7]);
    }

    /** The part of the callback that fills the message from a frame. */
    method Fill(frame: Frame, widths: Widths)
      requires Standard() && HasCoordinates(frame.scanlines) && StaysInRecord(widths)
      requires |FrameValues(frame.scanlines)| * STEP <= BufferSize(frame.totalReturns)
      modifies this`data, data
      ensures Standard() && fresh(data)
      ensures var vs, base := FrameValues(frame.scanlines), Resized(old(data[..]), BufferSize(frame.totalReturns), 0);
              Fits(Writes(vs, widths), |base|) && data[..] == PutAll(base, Writes(vs, widths))
    {
      hide PutAll, Fits, Writes, StaysInRecord, FrameValues, PointValues, ValuesOf, FirstWrites;
      Resize((frame.totalReturns * pointStep) % TWO_32);
      ghost var base := data[..];
      ghost var vs: seq<Values> := [];
      NoWrites(base, widths);
      var ss := frame.scanlines;
      var pointIndex := 0;
      assert ss[..0] == [] && FrameValues([]) == [] by { NoValues(); }
      for s := 0 to |ss|
        invariant vs == FrameValues(ss[..s]) && pointIndex == |vs|
        invariant fresh(data) && Standard() && data.Length == |base|
        invariant Fits(Writes(vs, widths), |base|) && data[..] == PutAll(base, Writes(vs, widths))
      {
        var ps, offset := ss[s].points, ss[s].startOffsetNs;
        ghost var scanlineStart := vs;
        FewerScanlines(ss, s + 1);
        NextScanline(ss, s);
        assert ps[..0] == [] && PointValues(offset, []) == [] by { NoValues(); }
        for p := 0 to |ps|
          invariant vs == scanlineStart + PointValues(offset, ps[..p]) && pointIndex == |vs|
          invariant fresh(data) && Standard() && data.Length == |base|
          invariant Fits(Writes(vs, widths), |base|) && data[..] == PutAll(base, Writes(vs, widths))
        {
          var point := ps[p];
          ghost var pointStart, values := vs, ReturnValues(offset, point.head, point.rets);
          FewerPoints(offset, ps, p + 1);
          NextPoint(offset, ps, p);
          for r := 0 to |point.rets|
            invariant vs == pointStart + values[..r] && pointIndex == |vs|
            invariant fresh(data) && Standard() && data.Length == |base|
            invariant Fits(Writes(vs, widths), |base|) && data[..] == PutAll(base, Writes(vs, widths))
          {
            ghost var v := ValuesOf(offset, point.head, point.rets[r]);
            WritesSnoc(vs, v, widths);
            ValuesByName(offset, point.head, point.rets[r]);
            var timeOffset := Wrap64(offset + point.head.startOffsetNs);
            AssignFields(pointIndex, timeOffset, point.head, point.rets[r], widths, v, base, Writes(vs, widths));
            vs := vs + [v];
            pointIndex := pointIndex + 1;
          }
          assert values[..|point.rets|] == values;
        }
        assert ps[..|ps|] == ps;
      }
      assert ss[..|ss|] == ss;
    }

    /** The callback's message filled from a frame, whatever it held before: every field of every return
        holds its value, by name, in the record at the return's position. */
    method Publish(frame: Frame)
      requires Standard() && CanPublish(frame)
      modifies this`data, data
      ensures Standard() && fresh(data) && Shows(data[..], frame)
    {
      hide HoldsFrame, FrameValues, Returns, BufferSize, PutAll, Writes, Fits, HasCoordinates;
      ghost var base := Resized(data[..], BufferSize(frame.totalReturns), 0);
      ValueCount(frame.scanlines);
      Fill(frame, SOURCE_WIDTHS);
      WritesHoldFrame(base, frame.scanlines);
    }
  }

  /** The publisher over all its frames: one message, laid out once and filled again and again. */
  method PublishAll(frames: seq<Frame>) returns (sent: seq<seq<byte>>)
    requires forall i :: 0 <= i < |frames| ==> CanPublish(frames[i])
    ensures |sent| == |frames| && forall i :: 0 <= i < |frames| ==> Shows(sent[i], frames[i])
  {
    hide CanPublish, Shows;
    var message := new Message();
    message.MakePointCloudMessage();
    sent := [];
    for i := 0 to |frames|
      invariant message.Standard() && fresh(message) && fresh(message.data)
      invariant |sent| == i
      invariant forall j :: 0 <= j < i ==> Shows(sent[j], frames[j])
    {
      message.Publish(frames[i]);
      sent := sent + [message.data[..]];
    }
  }

  /** The returns have coordinates and fit the buffer. */
  ghost predicate CanPublish(frame: Frame) {
    && HasCoordinates(frame.scanlines)
    && Returns(frame.scanlines) * STEP <= BufferSize(frame.totalReturns)
  }

  ghost predicate Shows(d: seq<byte>, frame: Frame)
    requires CanPublish(frame)
  {
    |d| == BufferSize(frame.totalReturns) && HoldsFrame(d, frame.scanlines)
  }

  /** That is exactly when the source's writes stay in the buffer it resized. */
  lemma FillInBoundsIff(frame: Frame)
    requires HasCoordinates(frame.scanlines)
    ensures Fits(Writes(FrameValues(frame.scanlines), SOURCE_WIDTHS), BufferSize(frame.totalReturns)) <==>
              CanPublish(frame)
  {
    hide FrameValues, Returns, Writes, Fits, HasCoordinates, BufferSize;
    ValueCount(frame.scanlines);
    SourceWritesFitIff(FrameValues(frame.scanlines), BufferSize(frame.totalReturns));
  }

  lemma NoValues()
    ensures FrameValues([]) == [] && forall offset :: PointValues(offset, []) == []
  {
  }

  lemma NoWrites(base: seq<byte>, widths: Widths)
    ensures Writes([], widths) == [] && Fits([], |base|) && PutAll(base, []) == base
  {
  }

  lemma WritesSnoc(vs: seq<Values>, v: Values, widths: Widths)
    ensures Writes(vs + [v], widths) == Writes(vs, widths) + FirstWrites(|vs|, v, widths, FIELD_COUNT)
  {
    assert (vs + [v])[..|vs + [v]| - 1] == vs;
  }

  lemma NextScanline(ss: seq<Scanline>, s: nat)
    requires s < |ss| && HasCoordinates(ss)
    ensures FrameValues(ss[..s + 1]) == FrameValues(ss[..s]) + PointValues(ss[s].startOffsetNs, ss[s].points)
  {
    assert ss[..s + 1][..s] == ss[..s];
  }

  lemma NextPoint(offset: uint64, ps: seq<Point>, p: nat)
    requires forall p, r :: 0 <= p < |ps| && 0 <= r < |ps[p].rets| ==> |ps[p].rets[r].cartesian| >= 3
    requires p < |ps|
    ensures PointValues(offset, ps[..p + 1]) ==
              PointValues(offset, ps[..p]) + ReturnValues(offset, ps[p].head, ps[p].rets)
  {
    assert ps[..p + 1][..p] == ps[..p];
  }

  lemma NamesDistinct()
    ensures forall i, j :: 0 <= i < j < FIELD_COUNT ==> NAMES[i] != NAMES[j]
  {
    assert NAMES[0][0] == 'x' && NAMES[1][0] == 'y' && NAMES[2][0] == 'z' && NAMES[3][0] == 'i';
    assert NAMES[4][0] == 'a' && NAMES[5][0] == 't' && NAMES[6][0] == 'p' && NAMES[7][0] == 'r';
  }
}
