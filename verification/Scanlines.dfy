/** How many scanlines a frame has, and which scanline a point id belongs to. */
module Scanlines {
  import opened Bytes
  import opened PointCloudData

  // The source passes these counts through `int`; a count of 2^31 or more becomes negative and is
  // turned back into the same unsigned number where it is divided by.
  function AsInt32(n: uint32): int {
    if n < 0x8000_0000 then n else n - TWO_32
  }

  function AsUint32(n: int): uint32
    requires -0x8000_0000 <= n < 0x8000_0000
  {
    if n >= 0 then n else n + TWO_32
  }

  /** `get_total_number_of_scanlines`: -1 when the frame says nothing about its scanlines. */
  function TotalNumberOfScanlines(f: Frame): (n: int)
    ensures -0x8000_0000 <= n < 0x8000_0000
  {
    if f.scanPattern.None? then
      if |f.scanlines| > 0 then AsInt32(|f.scanlines| % TWO_32) else -1
    else
      var p := f.scanPattern.value;
      var up := if CountsUp(p.frameMode, f.isRampUpPhase) then p.scanlinesUp else 0;
      var down := if CountsDown(p.frameMode, f.isRampUpPhase) then p.scanlinesDown else 0;
      AsInt32((up as int + down) % TWO_32)
  }

  predicate CountsUp(mode: FrameMode, rampUp: bool) {
    mode == ONLY_UP || mode == COMBINE_UP_DOWN || (mode == SEPARATE && rampUp)
  }

  predicate CountsDown(mode: FrameMode, rampUp: bool) {
    mode == ONLY_DOWN || mode == COMBINE_UP_DOWN || (mode == SEPARATE && !rampUp)
  }

  /** The scanlines of a frame taken with that mode in that phase. */
  function LinesTaken(f: Frame, p: ScanPattern, mode: FrameMode, up: bool): int {
    TotalNumberOfScanlines(f.(scanPattern := Some(p.(frameMode := mode)), isRampUpPhase := up))
  }

  lemma LinesTakenAre(f: Frame, p: ScanPattern, mode: FrameMode, up: bool)
    requires p.scanlinesUp + p.scanlinesDown < 0x8000_0000
    ensures LinesTaken(f, p, mode, up) ==
              (if CountsUp(mode, up) then p.scanlinesUp else 0) + (if CountsDown(mode, up) then p.scanlinesDown else 0)
  {
  }

  /** The up-ramp and down-ramp frames of a separate pattern together have the scanlines of a combined
      frame, and each has those of a frame that is taken in its phase only. */
  lemma PhasesAddUp(f: Frame, p: ScanPattern)
    requires p.scanlinesUp + p.scanlinesDown < 0x8000_0000
    ensures var separate := LinesTaken(f, p, SEPARATE, true) + LinesTaken(f, p, SEPARATE, false);
            forall up :: LinesTaken(f, p, COMBINE_UP_DOWN, up) == separate
    ensures forall up :: LinesTaken(f, p, ONLY_UP, up) == LinesTaken(f, p, SEPARATE, true)
    ensures forall up :: LinesTaken(f, p, ONLY_DOWN, up) == LinesTaken(f, p, SEPARATE, false)
    ensures forall up :: LinesTaken(f, p, NONE, up) == 0
    ensures LinesTaken(f, p, SEPARATE, true) == p.scanlinesUp && LinesTaken(f, p, SEPARATE, false) == p.scanlinesDown
  {
    hide LinesTaken;
    forall mode: FrameMode, up: bool
      ensures LinesTaken(f, p, mode, up) ==
                (if CountsUp(mode, up) then p.scanlinesUp else 0)
                + (if CountsDown(mode, up) then p.scanlinesDown else 0)
    {
      LinesTakenAre(f, p, mode, up);
    }
  }

  /** A frame without a scan pattern has the scanlines it holds, and says so with -1 when it holds none. */
  lemma WithoutPattern(f: Frame)
    requires f.scanPattern.None? && |f.scanlines| < 0x8000_0000
    ensures TotalNumberOfScanlines(f) == if f.scanlines == [] then -1 else |f.scanlines|
    ensures f.scanlines == [] ==> Lines(f) == 0xFFFF_FFFF
  {
  }

  /** The divisor the source uses. */
  function Lines(f: Frame): uint32 {
    AsUint32(TotalNumberOfScanlines(f))
  }

  function Quotient(n: nat, d: nat): (q: nat)
    requires d > 0
    ensures q * d <= n < q * d + d
    ensures q <= n
  {
    DivisionBounds(n, d);
    n / d
  }

  /** `number_of_points_per_scanline`; dividing by no scanlines is undefined. */
  function PointsPerScanline(f: Frame): uint32
    requires Lines(f) != 0
  {
    Quotient(f.totalPoints, Lines(f))
  }

  /** The frame lets point ids be mapped to scanlines: it has scanlines, and a point for each. */
  predicate HasScanlineIds(f: Frame) {
    0 < Lines(f) <= f.totalPoints
  }

  /** Otherwise the source divides by zero. */
  lemma HasScanlineIdsExactly(f: Frame)
    ensures HasScanlineIds(f) <==> Lines(f) != 0 && PointsPerScanline(f) != 0
  {
    hide Lines;
    if Lines(f) != 0 {
      QuotientPositive(f.totalPoints, Lines(f));
    }
  }

  lemma QuotientPositive(n: nat, d: nat)
    requires d > 0
    ensures Quotient(n, d) != 0 <==> d <= n
  {
    var q := Quotient(n, d);
    if q == 0 {
      assert q * d == 0;
    } else {
      Monotone(1, q, d);
    }
  }

  /** `get_scanline_id_by_point_id`. */
  function ScanlineId(f: Frame, pointId: uint32): uint32
    requires HasScanlineIds(f)
  {
    HasScanlineIdsExactly(f);
    Quotient(pointId, PointsPerScanline(f))
  }

  /** Each scanline covers one contiguous block of point ids. */
  lemma ScanlineBlock(f: Frame, pointId: uint32, s: nat)
    requires HasScanlineIds(f)
    ensures ScanlineId(f, pointId) == s <==> s * PointsPerScanline(f) <= pointId < (s + 1) * PointsPerScanline(f)
  {
    var d: int := PointsPerScanline(f);
    var q: int := pointId / d;
    DivisionBounds(pointId, d);
    if s < q {
      assert (s + 1) * d <= q * d by { Monotone(s + 1, q, d); }
    } else if s > q {
      assert (q + 1) * d <= s * d by { Monotone(q + 1, s, d); }
    }
  }

  lemma DivisionBounds(n: nat, d: nat)
    requires d > 0
    ensures (n / d) * d <= n < (n / d) * d + d
    ensures 0 <= n / d <= n
  {
    var q := n / d;
    assert n == q * d + n % d;
    assert q >= 0;
    Monotone(1, d, q);
    assert q * d == d * q;
  }

  lemma Monotone(a: nat, b: nat, d: nat)
    requires a <= b
    ensures a * d <= b * d
  {
  }

  lemma StrictlyMonotone(a: nat, b: nat, d: nat)
    requires a < b
    ensures a * d + d <= b * d
  {
    Monotone(a + 1, b, d);
    assert (a + 1) * d == a * d + d;
  }

  lemma ScanlineMonotone(f: Frame, a: uint32, b: uint32)
    requires HasScanlineIds(f) && a <= b
    ensures ScanlineId(f, a) <= ScanlineId(f, b)
  {
    ScanlineBlock(f, a, ScanlineId(f, a));
    ScanlineBlock(f, b, ScanlineId(f, b));
    if ScanlineId(f, b) < ScanlineId(f, a) {
      Monotone(ScanlineId(f, b) + 1, ScanlineId(f, a), PointsPerScanline(f));
    }
  }

  /** Every point of the frame falls into one of its scanlines exactly when the scanline count divides
      the point count; otherwise the last points get scanline ids that do not exist. */
  lemma ScanlineIdsInRange(f: Frame)
    requires HasScanlineIds(f)
    ensures (forall id: uint32 :: id < f.totalPoints ==> ScanlineId(f, id) < Lines(f))
            <==> f.totalPoints % Lines(f) == 0
  {
    hide Lines, PointsPerScanline, ScanlineId, Quotient;
    var n: nat, d: nat := Lines(f), PointsPerScanline(f);
    LinesDividePoints(f);
    Remainder(f.totalPoints, n, d);
    if f.totalPoints == n * d {
      forall id: uint32 | id < f.totalPoints
        ensures ScanlineId(f, id) < n
      {
        ScanlineBlock(f, id, ScanlineId(f, id));
        if ScanlineId(f, id) >= n {
          Monotone(n, ScanlineId(f, id), d);
        }
      }
    } else {
      var id: uint32 := n * d;
      ScanlineBlock(f, id, n);
      assert (n + 1) * d == n * d + d;
      assert ScanlineId(f, id) == n;
    }
  }

  lemma LinesDividePoints(f: Frame)
    requires HasScanlineIds(f)
    ensures PointsPerScanline(f) * Lines(f) <= f.totalPoints < PointsPerScanline(f) * Lines(f) + Lines(f)
  {
  }

  /** With d = total / n, nothing is left over exactly when n divides the total. */
  lemma Remainder(total: nat, n: nat, d: nat)
    requires n > 0 && d * n <= total < d * n + n
    ensures n * d <= total
    ensures total == n * d <==> total % n == 0
  {
    assert n * d == d * n;
    assert total / n == d by {
      var q := total / n;
      DivisionBounds(total, n);
      if q < d {
        StrictlyMonotone(q, d, n);
      } else if q > d {
        StrictlyMonotone(d, q, n);
      }
    }
    assert total == (total / n) * n + total % n;
  }
}
