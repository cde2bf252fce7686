/**
 Clock synchronisation between the sensor module and the camera: the drift estimator that scales MCU
 time, and the offset hand-shake with the video thread. Floating point is modelled by exact reals,
 with not-a-number kept apart.
 */
module SensorSync {
  import opened Bytes

  /** TS_SHIFT_VAL_COUNT and NTP_ADJUST_CT. */
  const WINDOW: nat := 50
  const ADJUST_COUNT: int := 1

  datatype Double = Finite(value: real) | NaN

  /** One report of the sensor board together with what the host clocks showed when it was handled.
      `garbage` is what the undefined conversion of not-a-number to an integer happens to give. */
  datatype Sample = Sample(
    mcuTs: uint64, imuValid: bool, syncCapable: bool, frameSync: bool, frameSyncCount: uint32,
    steadyTs: uint64, wallTs: uint64, garbage: uint64)

  datatype Sensor = Sensor(
    firstImu: bool, startTs: uint64, lastMcuTs: uint64, relTs: uint64, scaling: Double,
    lastSyncCount: uint32, mcuQueue: seq<uint64>, sysQueue: seq<uint64>, adjusted: nat,
    syncTs: uint64, ready: bool, syncOffset: int, offsetSum: int, handshakes: nat)

  const START := Sensor(true, 0, 0, 0, Finite(1.0), 0, [], [], 0, 0, false, 0, 0, 0)

  // ----- arithmetic

  /** Unsigned 64-bit difference. */
  function Diff64(a: uint64, b: uint64): (d: uint64)
    ensures a >= b ==> d == a - b
  {
    if a >= b then a - b else a - b + TWO_64
  }

  /** Signed values are taken modulo 2^64 too. */
  function ToUint64(n: int): uint64 {
    n % TWO_64
  }

  lemma InUint64(n: int)
    requires 0 <= n < TWO_64
    ensures ToUint64(n) == n
  {
  }

  /** C++ integer division by three truncates toward zero. */
  function TruncatedThird(n: int): int {
    if n >= 0 then n / 3 else -((-n) / 3)
  }

  /** The clamped quotient of two non-negative spans. Zero by zero compares false with both bounds. */
  function ClampedRatio(cam: nat, imu: nat): Double {
    if imu == 0 then if cam == 0 then NaN else Finite(1.2)
    else
      var scale := cam as real / imu as real;
      Finite(if scale > 1.2 then 1.2 else if scale < 0.8 then 0.8 else scale)
  }

  function Times(a: Double, b: Double): Double {
    if a.NaN? || b.NaN? then NaN else Finite(a.value * b.value)
  }

  /** The scaled advance of the relative clock. */
  function Advance(e: Sensor, s: Sample): int {
    if e.scaling.NaN? then s.garbage else (Diff64(s.mcuTs, e.lastMcuTs) as real * e.scaling.value).Floor
  }

  // ----- one iteration of the sensor thread

  predicate SetsReference(e: Sensor, s: Sample) {
    e.firstImu && s.imuValid
  }

  /** The report belongs to a camera frame. */
  predicate IsSync(e: Sensor, s: Sample) {
    !SetsReference(e, s) && s.syncCapable && e.lastSyncCount != 0 && (s.frameSync || s.frameSyncCount > e.lastSyncCount)
  }

  function NextRel(e: Sensor, s: Sample): uint64 {
    ToUint64(e.relTs + Advance(e, s))
  }

  function DataTs(e: Sensor, s: Sample): uint64 {
    ToUint64(e.startTs - e.syncOffset + NextRel(e, s))
  }

  /** The scale factor that a full window gives. */
  function WindowRatio(mcu: seq<uint64>, sys: seq<uint64>, adjusted: nat): Double
    requires |mcu| == |sys| == WINDOW
  {
    var first := if adjusted <= ADJUST_COUNT then WINDOW / 2 else 5;
    ClampedRatio(Diff64(sys[WINDOW - 1], sys[first]), Diff64(mcu[WINDOW - 1], mcu[first]))
  }

  lemma WindowRatioIs(mcu: seq<uint64>, sys: seq<uint64>, adjusted: nat)
    ensures |mcu| == |sys| == WINDOW ==>
              var first := if adjusted <= ADJUST_COUNT then WINDOW / 2 else 5;
              WindowRatio(mcu, sys, adjusted) ==
              ClampedRatio(Diff64(sys[WINDOW - 1], sys[first]), Diff64(mcu[WINDOW - 1], mcu[first]))
  {
  }

  function Processed(e: Sensor, s: Sample): Sensor {
    if SetsReference(e, s) then e.(startTs := s.wallTs, lastMcuTs := s.mcuTs, firstImu := false)
    else
      var ts := DataTs(e, s);
      var e1 := e.(relTs := NextRel(e, s), lastMcuTs := s.mcuTs, lastSyncCount := s.frameSyncCount);
      if IsSync(e, s) then WithSync(e1, ts, s.steadyTs) else e1
  }

  /** One more synchronised report; a full window adjusts the scale and starts over. */
  function WithSync(e: Sensor, ts: uint64, steadyTs: uint64): Sensor {
    var mcu, sys := e.mcuQueue + [ts], e.sysQueue + [steadyTs];
    if |sys| == WINDOW && |mcu| == WINDOW then
      e.(scaling := Times(e.scaling, WindowRatio(mcu, sys, e.adjusted)), mcuQueue := [], sysQueue := [],
         adjusted := e.adjusted + 1, syncTs := ts, ready := true)
    else e.(mcuQueue := mcu, sysQueue := sys)
  }

  /** `updateTimestampOffset`, called by the video thread with the timestamp of a frame. */
  function Handshaken(e: Sensor, frameTs: uint64): Sensor {
    var sum := e.offsetSum + e.syncTs - frameTs;
    if e.handshakes + 1 == 3
    then e.(syncOffset := e.syncOffset + TruncatedThird(sum), offsetSum := 0, handshakes := 0, ready := false)
    else e.(offsetSum := sum, handshakes := e.handshakes + 1, ready := false)
  }

  // ----- the object

  class SensorCapture {
    var firstImuData: bool
    var startSysTs: uint64
    var lastMcuTs: uint64
    var relMcuTs: uint64
    var ntpTsScaling: Double
    var lastFrameSyncCount: uint32
    var mcuTsQueue: seq<uint64>
    var sysTsQueue: seq<uint64>
    var ntpAdjustedCount: nat
    var syncTs: uint64
    var readyToSync: bool
    var syncOffset: int
    var offsetSum: int
    var count: nat

    function State(): Sensor
      reads this
    {
      Sensor(firstImuData, startSysTs, lastMcuTs, relMcuTs, ntpTsScaling, lastFrameSyncCount,
             mcuTsQueue, sysTsQueue, ntpAdjustedCount, syncTs, readyToSync, syncOffset, offsetSum, count)
    }

    constructor ()
      ensures State() == START
    {
      firstImuData, startSysTs, lastMcuTs, relMcuTs, ntpTsScaling := true, 0, 0, 0, Finite(1.0);
      lastFrameSyncCount, mcuTsQueue, sysTsQueue, ntpAdjustedCount := 0, [], [], 0;
      syncTs, readyToSync, syncOffset, offsetSum, count := 0, false, 0, 0, 0;
    }

    /** The timestamp and drift part of one grab iteration; None when it only set the reference. */
    method Grab(s: Sample) returns (timestamp: Option<uint64>)
      requires |mcuTsQueue| == |sysTsQueue| < WINDOW
      modifies this
      ensures State() == Processed(old(State()), s)
      ensures timestamp == if SetsReference(old(State()), s) then None else Some(DataTs(old(State()), s))
    {
      hide ToUint64, Diff64, WindowRatio, Times;
      if firstImuData && s.imuValid {
        startSysTs := s.wallTs;
        lastMcuTs := s.mcuTs;
        firstImuData := false;
        return None;
      }
      var delta := Diff64(s.mcuTs, lastMcuTs);
      lastMcuTs := s.mcuTs;
      var advance: int := if ntpTsScaling.NaN? then s.garbage else (delta as real * ntpTsScaling.value).Floor;
      relMcuTs := ToUint64(relMcuTs + advance);
      var ts := ToUint64(startSysTs - syncOffset + relMcuTs);

      if s.syncCapable {
        if lastFrameSyncCount != 0 && (s.frameSync || s.frameSyncCount > lastFrameSyncCount) {
          RecordSync(ts, s.steadyTs);
        }
      }
      lastFrameSyncCount := s.frameSyncCount;
      timestamp := Some(ts);
    }

    /** The queues, and the drift factor once they are full. */
    method RecordSync(ts: uint64, steadyTs: uint64)
      requires |mcuTsQueue| == |sysTsQueue| < WINDOW
      modifies `mcuTsQueue, `sysTsQueue, `ntpTsScaling, `ntpAdjustedCount, `syncTs, `readyToSync
      ensures State() == WithSync(old(State()), ts, steadyTs)
    {
      hide Diff64, ClampedRatio, Times, WindowRatio;
      WindowRatioIs(mcuTsQueue + [ts], sysTsQueue + [steadyTs], ntpAdjustedCount);
      sysTsQueue := sysTsQueue + [steadyTs];
      mcuTsQueue := mcuTsQueue + [ts];
      if |sysTsQueue| == WINDOW && |mcuTsQueue| == WINDOW {
        var first := 5;
        if ntpAdjustedCount <= ADJUST_COUNT {
          first := WINDOW / 2;
        }
        var imu := Diff64(mcuTsQueue[|mcuTsQueue| - 1], mcuTsQueue[first]);
        var cam := Diff64(sysTsQueue[|sysTsQueue| - 1], sysTsQueue[first]);
        ntpTsScaling := Times(ntpTsScaling, ClampedRatio(cam, imu));
        mcuTsQueue := [];
        sysTsQueue := [];
        ntpAdjustedCount := ntpAdjustedCount + 1;
        syncTs := ts;
        readyToSync := true;
      }
    }

    method SetStartTimestamp(ts: uint64)
      modifies `startSysTs
      ensures State() == old(State()).(startTs := ts)
    {
      startSysTs := ts;
    }

    method UpdateTimestampOffset(frameTs: uint64)
      modifies this
      ensures State() == Handshaken(old(State()), frameTs)
    {
      readyToSync := false;
      offsetSum := offsetSum + (syncTs - frameTs);
      count := count + 1;
      if count == 3 {
        var offset := TruncatedThird(offsetSum);
        syncOffset := syncOffset + offset;
        offsetSum := 0;
        count := 0;
      }
    }
  }

  // ----- runs of both threads

  datatype Event = Report(sample: Sample) | SetStart(ts: uint64) | Handshake(frameTs: uint64)

  function Step(e: Sensor, ev: Event): Sensor {
    match ev
    case Report(s) => Processed(e, s)
    case SetStart(ts) => e.(startTs := ts)
    case Handshake(ts) => Handshaken(e, ts)
  }

  function Run(e: Sensor, evs: seq<Event>): Sensor {
    if evs == [] then e else Step(Run(e, evs[..|evs| - 1]), evs[|evs| - 1])
  }

  /** How many reports of a run belonged to a camera frame. */
  function SyncReports(e: Sensor, evs: seq<Event>): nat {
    if evs == [] then 0
    else
      var init, last := evs[..|evs| - 1], evs[|evs| - 1];
      SyncReports(e, init) + if last.Report? && IsSync(Run(e, init), last.sample) then 1 else 0
  }

  function Power(b: real, k: nat): real {
    if k == 0 then 1.0 else b * Power(b, k - 1)
  }

  /** Bounds on the scale after `k` adjustments, unless a window had no extent on either clock. */
  ghost predicate ScaleInBounds(scaling: Double, k: nat) {
    scaling.Finite? ==> Power(0.8, k) <= scaling.value <= Power(1.2, k)
  }

  ghost predicate Estimating(e: Sensor, syncReports: nat) {
    && |e.mcuQueue| == |e.sysQueue| < WINDOW
    && syncReports == e.adjusted * WINDOW + |e.mcuQueue|
    && ScaleInBounds(e.scaling, e.adjusted)
    && e.handshakes < 3
  }

  lemma {:induction false} PowersPositive(k: nat)
    ensures 0.0 < Power(0.8, k) <= Power(1.2, k)
    decreases k
  {
    if k > 0 {
      PowersPositive(k - 1);
      assert 0.8 * Power(0.8, k - 1) <= 1.2 * Power(1.2, k - 1);
    }
  }

  lemma ScaleStep(scaling: Double, ratio: Double, k: nat)
    requires ScaleInBounds(scaling, k) && (ratio.Finite? ==> 0.8 <= ratio.value <= 1.2)
    ensures ScaleInBounds(Times(scaling, ratio), k + 1)
  {
    if scaling.Finite? && ratio.Finite? {
      PowersPositive(k);
      ProductBounds(Power(0.8, k), scaling.value, Power(1.2, k), ratio.value);
    }
  }

  lemma ProductBounds(lo: real, x: real, hi: real, r: real)
    requires 0.0 < lo <= x <= hi && 0.8 <= r <= 1.2
    ensures 0.8 * lo <= x * r <= 1.2 * hi
  {
    assert x * r >= x * 0.8 >= lo * 0.8;
    assert x * r <= x * 1.2 <= hi * 1.2;
  }

  lemma RatioInBounds(cam: nat, imu: nat)
    ensures var r := ClampedRatio(cam, imu);
            (r.Finite? ==> 0.8 <= r.value <= 1.2) && (r.NaN? <==> cam == 0 && imu == 0)
  {
  }

  /** The ratio itself where it lies between the bounds, and otherwise the bound it passes. */
  lemma RatioExactly(cam: nat, imu: nat)
    requires cam != 0 || imu != 0
    ensures var r := ClampedRatio(cam, imu);
            && r.Finite?
            && (10 * cam > 12 * imu ==> r.value == 1.2)
            && (10 * cam < 8 * imu ==> r.value == 0.8)
            && (8 * imu <= 10 * cam <= 12 * imu ==> r.value == cam as real / imu as real)
  {
    if imu > 0 {
      QuotientOrder(cam as real, imu as real, 1.2);
      QuotientOrder(cam as real, imu as real, 0.8);
    }
  }

  lemma QuotientOrder(c: real, i: real, bound: real)
    requires i > 0.0
    ensures c / i > bound <==> c > bound * i
    ensures c / i < bound <==> c < bound * i
  {
    var q := c / i;
    assert q * i == c;
    SameSign(q - bound, i);
    assert (q - bound) * i == c - bound * i;
  }

  lemma SameSign(x: real, i: real)
    requires i > 0.0
    ensures x > 0.0 <==> x * i > 0.0
    ensures x < 0.0 <==> x * i < 0.0
  {
  }

  /** What an adjustment is for: if the scaled MCU clock covered `imu` while the camera clock covered `cam`,
      then with the new scale the same raw span covers `cam`. */
  lemma AdjustmentMatchesClocks(scaling: real, raw: real, cam: nat, imu: nat)
    requires imu > 0 && scaling * raw == imu as real
    requires 0.8 * imu as real <= cam as real <= 1.2 * imu as real
    ensures Times(Finite(scaling), ClampedRatio(cam, imu)).Finite?
    ensures Times(Finite(scaling), ClampedRatio(cam, imu)).value * raw == cam as real
  {
    var ratio := cam as real / imu as real;
    RatioBounds(cam as real, imu as real, ratio);
    assert (scaling * ratio) * raw == ratio * (scaling * raw);
  }

  lemma RatioBounds(c: real, i: real, ratio: real)
    requires i > 0.0 && ratio * i == c && 0.8 * i <= c <= 1.2 * i
    ensures 0.8 <= ratio <= 1.2
  {
    assert (ratio - 0.8) * i >= 0.0 && (1.2 - ratio) * i >= 0.0;
    SignOfFactor(ratio - 0.8, i);
    SignOfFactor(1.2 - ratio, i);
  }

  lemma SignOfFactor(x: real, i: real)
    requires i > 0.0 && x * i >= 0.0
    ensures x >= 0.0
  {
  }

  lemma StepEstimating(e: Sensor, ev: Event, n: nat)
    requires Estimating(e, n)
    ensures Estimating(Step(e, ev), n + if ev.Report? && IsSync(e, ev.sample) then 1 else 0)
  {
    hide ClampedRatio, Diff64, ToUint64, DataTs, NextRel, ScaleInBounds;
    if ev.Report? && IsSync(e, ev.sample) && |e.sysQueue| + 1 == WINDOW {
      var mcu, sys := e.mcuQueue + [DataTs(e, ev.sample)], e.sysQueue + [ev.sample.steadyTs];
      var first := if e.adjusted <= ADJUST_COUNT then WINDOW / 2 else 5;
      RatioInBounds(Diff64(sys[WINDOW - 1], sys[first]), Diff64(mcu[WINDOW - 1], mcu[first]));
      ScaleStep(e.scaling, WindowRatio(mcu, sys, e.adjusted), e.adjusted);
    }
  }

  lemma {:induction false} RunEstimating(evs: seq<Event>)
    ensures Estimating(Run(START, evs), SyncReports(START, evs))
    decreases |evs|
  {
    hide Step, IsSync;
    if evs == [] {
      assert Power(0.8, 0) == 1.0 && Power(1.2, 0) == 1.0;
    } else {
      RunEstimating(evs[..|evs| - 1]);
      StepEstimating(Run(START, evs[..|evs| - 1]), evs[|evs| - 1], SyncReports(START, evs[..|evs| - 1]));
    }
  }

  // ----- when the scale stays a number

  /** The report fills the window. */
  predicate Completes(e: Sensor, s: Sample) {
    IsSync(e, s) && |e.mcuQueue| == |e.sysQueue| == WINDOW - 1
  }

  /** The report fills a window that has no extent on either clock. */
  predicate ZeroWindow(e: Sensor, s: Sample) {
    Completes(e, s) &&
    var first := if e.adjusted <= ADJUST_COUNT then WINDOW / 2 else 5;
    s.steadyTs == e.sysQueue[first] && DataTs(e, s) == e.mcuQueue[first]
  }

  ghost predicate ZeroWindowAt(e: Sensor, evs: seq<Event>, k: nat) {
    k < |evs| && evs[k].Report? && ZeroWindow(Run(e, evs[..k]), evs[k].sample)
  }

  ghost predicate HasZeroWindow(e: Sensor, evs: seq<Event>) {
    exists k: nat :: ZeroWindowAt(e, evs, k)
  }

  lemma ZeroSpan(a: uint64, b: uint64)
    ensures Diff64(a, b) == 0 <==> a == b
  {
  }

  /** A report makes the scale not-a-number exactly when it fills a window without extent. */
  lemma StepNaN(e: Sensor, ev: Event, n: nat)
    requires Estimating(e, n) && e.scaling.Finite?
    ensures Step(e, ev).scaling.NaN? <==> ev.Report? && ZeroWindow(e, ev.sample)
  {
    hide Diff64, ToUint64, DataTs, NextRel, ScaleInBounds;
    if ev.Report? && Completes(e, ev.sample) {
      var first := if e.adjusted <= ADJUST_COUNT then WINDOW / 2 else 5;
      ZeroSpan(ev.sample.steadyTs, e.sysQueue[first]);
      ZeroSpan(DataTs(e, ev.sample), e.mcuQueue[first]);
    }
  }

  lemma StaysNaN(e: Sensor, ev: Event)
    requires e.scaling.NaN?
    ensures Step(e, ev).scaling.NaN?
  {
    hide ToUint64, DataTs, NextRel, WindowRatio;
  }

  lemma HasZeroWindowSnoc(e: Sensor, evs: seq<Event>)
    requires evs != []
    ensures HasZeroWindow(e, evs) <==>
              HasZeroWindow(e, evs[..|evs| - 1]) || ZeroWindowAt(e, evs, |evs| - 1)
  {
    hide ZeroWindow, Run;
    var init := evs[..|evs| - 1];
    forall k: nat | k < |init|
      ensures ZeroWindowAt(e, init, k) <==> ZeroWindowAt(e, evs, k)
    {
      assert init[..k] == evs[..k];
    }
    if HasZeroWindow(e, evs) {
      var k: nat :| ZeroWindowAt(e, evs, k);
      assert k < |init| ==> ZeroWindowAt(e, init, k);
    }
    if HasZeroWindow(e, init) {
      var k: nat :| ZeroWindowAt(e, init, k);
      assert ZeroWindowAt(e, evs, k);
    }
  }

  lemma {:induction false} RunNaN(evs: seq<Event>)
    ensures Run(START, evs).scaling.NaN? <==> HasZeroWindow(START, evs)
    decreases |evs|
  {
    hide Step, ZeroWindow, HasZeroWindow, Estimating;
    if evs == [] {
      NoWindowYet();
    } else {
      var init, last := evs[..|evs| - 1], evs[|evs| - 1];
      RunNaN(init);
      HasZeroWindowSnoc(START, evs);
      RunEstimating(init);
      if Run(START, init).scaling.NaN? {
        StaysNaN(Run(START, init), last);
      } else {
        StepNaN(Run(START, init), last, SyncReports(START, init));
      }
    }
  }

  lemma NoWindowYet()
    ensures !HasZeroWindow(START, [])
  {
  }

  /** Main result on the estimator: in every run of both threads the two queues have the same length, below
      the window size, and the number of adjustments is the number of synchronised reports divided by the
      window size. The scale is a number exactly when no window filled so far lacked extent on both clocks,
      and then it has moved by at most 20 % per adjustment. */
  lemma DriftEstimator(evs: seq<Event>)
    ensures var e, n := Run(START, evs), SyncReports(START, evs);
            && |e.mcuQueue| == |e.sysQueue| == n % WINDOW
            && e.adjusted == n / WINDOW
            && ScaleInBounds(e.scaling, n / WINDOW)
            && (e.scaling.Finite? <==> !HasZeroWindow(START, evs))
            && (!HasZeroWindow(START, evs) ==>
                  Power(0.8, n / WINDOW) <= e.scaling.value <= Power(1.2, n / WINDOW))
  {
    hide Run, SyncReports, Power, HasZeroWindow;
    RunEstimating(evs);
    RunNaN(evs);
    var e := Run(START, evs);
    DivideByWindow(e.adjusted, |e.mcuQueue|);
    assert ScaleInBounds(e.scaling, e.adjusted);
  }

  /** Reports that show the same clock values over and over. */
  const FROZEN := Sample(0, false, true, true, 1, 0, 0, 0)

  function Frozen(n: nat): (evs: seq<Event>)
    ensures |evs| == n
  {
    seq(n, _ => Report(FROZEN))
  }

  /** The state after `n` of them, the first having set the frame count. */
  function FrozenState(n: nat): Sensor {
    START.(lastSyncCount := 1, mcuQueue := seq(n, _ => 0), sysQueue := seq(n, _ => 0))
  }

  lemma FrozenStep(n: nat)
    requires n + 1 < WINDOW
    ensures Step(FrozenState(n), Report(FROZEN)) == FrozenState(n + 1)
  {
    hide WindowRatio;
    assert seq(n, _ => 0) + [0] == seq(n + 1, _ => 0);
  }

  lemma FrozenStart()
    ensures Run(START, Frozen(1)) == FrozenState(0)
  {
    assert Frozen(1)[..0] == [];
    assert seq(0, _ => 0) == [];
  }

  lemma {:induction false} FrozenRun(n: nat)
    requires n < WINDOW
    ensures Run(START, Frozen(n + 1)) == FrozenState(n)
    decreases n
  {
    hide FrozenState, Step;
    if n == 0 {
      FrozenStart();
    } else {
      FrozenRun(n - 1);
      FrozenStep(n - 1);
      LastStep(START, Frozen(n + 1));
      assert Frozen(n + 1)[..n] == Frozen(n);
    }
  }

  /** Such a run: with both clocks frozen, the first window makes the scale not-a-number. */
  lemma FrozenClocks()
    ensures Run(START, Frozen(WINDOW + 1)).scaling.NaN?
  {
    var evs := Frozen(WINDOW + 1);
    FrozenRun(WINDOW - 1);
    assert evs[..WINDOW] == Frozen(WINDOW);
    var e := Run(START, evs[..WINDOW]);
    assert ZeroWindow(e, FROZEN);
    assert ZeroWindowAt(START, evs, WINDOW);
    RunNaN(evs);
  }

  lemma DivideByWindow(q: nat, r: nat)
    requires r < WINDOW
    ensures (q * WINDOW + r) / WINDOW == q && (q * WINDOW + r) % WINDOW == r
  {
  }

  // ----- timestamps of successive reports

  /** The MCU clock does not go back and nothing leaves the 64-bit range. */
  predicate Quiet(e: Sensor, s: Sample) {
    && !SetsReference(e, s) && e.lastMcuTs <= s.mcuTs
    && (e.scaling.Finite? ==> e.scaling.value >= 0.0)
    && 0 <= e.startTs - e.syncOffset
    && e.startTs - e.syncOffset + e.relTs + Advance(e, s) < TWO_64
  }

  lemma NextTimestampNotEarlier(e: Sensor, s1: Sample, s2: Sample)
    requires Quiet(e, s1) && Quiet(Processed(e, s1), s2)
    ensures DataTs(e, s1) <= DataTs(Processed(e, s1), s2)
  {
    hide ToUint64;
    var e2 := Processed(e, s1);
    AdvanceNonNegative(e, s1);
    AdvanceNonNegative(e2, s2);
    InUint64(e.relTs + Advance(e, s1));
    InUint64(e.startTs - e.syncOffset + NextRel(e, s1));
    InUint64(e2.relTs + Advance(e2, s2));
    InUint64(e2.startTs - e2.syncOffset + NextRel(e2, s2));
  }

  /** The timestamps of a run of reports during which no other thread interferes. */
  function Timestamps(e: Sensor, ss: seq<Sample>): (ts: seq<uint64>)
    ensures |ts| == |ss|
    decreases |ss|
  {
    if ss == [] then [] else [DataTs(e, ss[0])] + Timestamps(Processed(e, ss[0]), ss[1..])
  }

  predicate AllQuiet(e: Sensor, ss: seq<Sample>)
    decreases |ss|
  {
    ss == [] || (Quiet(e, ss[0]) && AllQuiet(Processed(e, ss[0]), ss[1..]))
  }

  /** While start time and offset are unchanged and the MCU clock does not go back, the timestamps of the
      reports do not go back either, whatever adjustments happen in between. */
  lemma {:induction false} TimestampsNonDecreasing(e: Sensor, ss: seq<Sample>, i: nat, j: nat)
    requires AllQuiet(e, ss) && i <= j < |ss|
    ensures Timestamps(e, ss)[i] <= Timestamps(e, ss)[j]
    decreases |ss|
  {
    hide Quiet, DataTs, Processed;
    if i > 0 {
      TimestampsNonDecreasing(Processed(e, ss[0]), ss[1..], i - 1, j - 1);
    } else if j > 0 {
      TimestampsNonDecreasing(Processed(e, ss[0]), ss[1..], 0, j - 1);
      NextTimestampNotEarlier(e, ss[0], ss[1]);
      assert ss[1..][0] == ss[1];
    }
  }

  lemma AdvanceNonNegative(e: Sensor, s: Sample)
    requires e.scaling.Finite? ==> e.scaling.value >= 0.0
    ensures Advance(e, s) >= 0
  {
    if e.scaling.Finite? {
      var d := Diff64(s.mcuTs, e.lastMcuTs) as real;
      assert d * e.scaling.value >= 0.0;
    }
  }

  // ----- what the scale does to timestamps

  /** The state after reports during which no other thread interferes. */
  function Reports(e: Sensor, ss: seq<Sample>): Sensor
    decreases |ss|
  {
    if ss == [] then e else Reports(Processed(e, ss[0]), ss[1..])
  }

  /** Every report after the first is handled with that scale. */
  predicate ScaleHolds(e: Sensor, ss: seq<Sample>, scale: real)
    decreases |ss|
  {
    |ss| <= 1 || (Processed(e, ss[0]).scaling == Finite(scale) && ScaleHolds(Processed(e, ss[0]), ss[1..], scale))
  }

  /** From one report to the next the timestamp advances by the scaled MCU time, rounded down. */
  lemma NextTimestamp(e: Sensor, s1: Sample, s2: Sample, scale: real)
    requires Quiet(e, s1) && Quiet(Processed(e, s1), s2) && Processed(e, s1).scaling == Finite(scale)
    ensures var raw: int, d: int := s2.mcuTs - s1.mcuTs, DataTs(Processed(e, s1), s2) - DataTs(e, s1);
            raw >= 0 && scale >= 0.0 && scale * raw as real - 1.0 < d as real <= scale * raw as real
  {
    hide ToUint64, WindowRatio, Times;
    var e2 := Processed(e, s1);
    AdvanceNonNegative(e, s1);
    AdvanceNonNegative(e2, s2);
    InUint64(e.relTs + Advance(e, s1));
    InUint64(e.startTs - e.syncOffset + NextRel(e, s1));
    InUint64(e2.relTs + Advance(e2, s2));
    InUint64(e2.startTs - e2.syncOffset + NextRel(e2, s2));
    assert e2.lastMcuTs == s1.mcuTs;
    var raw := (s2.mcuTs - s1.mcuTs) as real;
    assert Advance(e2, s2) == (raw * scale).Floor;
    assert raw * scale == scale * raw;
  }

  /** A product kept by name in the proofs. */
  function Scaled(scale: real, raw: int): real {
    scale * raw as real
  }

  lemma ScaledAdds(scale: real, a: int, b: int)
    ensures Scaled(scale, a + b) == Scaled(scale, a) + Scaled(scale, b)
  {
    assert (a + b) as real == a as real + b as real;
  }

  /** How far the timestamps advance over some reports, and the MCU clock. */
  function Advanced(e: Sensor, ss: seq<Sample>): int
    requires ss != []
  {
    Timestamps(e, ss)[|ss| - 1] as int - Timestamps(e, ss)[0]
  }

  function RawSpan(ss: seq<Sample>): int
    requires ss != []
  {
    ss[|ss| - 1].mcuTs as int - ss[0].mcuTs
  }

  /** `d` is `span`, short by at most `n`. */
  predicate Near(d: int, span: real, n: int) {
    span - n as real <= d as real <= span
  }

  lemma NearAdds(d: int, span: real, n: int, d': int, span': real, n': int)
    requires Near(d, span, n) && Near(d', span', n')
    ensures Near(d + d', span + span', n + n')
  {
  }

  lemma FirstStep(e: Sensor, s1: Sample, s2: Sample, scale: real)
    requires Quiet(e, s1) && Quiet(Processed(e, s1), s2) && Processed(e, s1).scaling == Finite(scale)
    ensures var raw := s2.mcuTs as int - s1.mcuTs;
            raw >= 0 && Near(DataTs(Processed(e, s1), s2) as int - DataTs(e, s1), Scaled(scale, raw), 1)
  {
    hide Quiet, DataTs, Processed;
    NextTimestamp(e, s1, s2, scale);
  }

  lemma {:induction false} AdvancedIsScaled(e: Sensor, ss: seq<Sample>, scale: real)
    requires ss != [] && AllQuiet(e, ss) && ScaleHolds(e, ss, scale) && scale >= 0.0
    ensures RawSpan(ss) >= 0 && Near(Advanced(e, ss), Scaled(scale, RawSpan(ss)), |ss| - 1)
    decreases |ss|
  {
    hide Quiet, DataTs, Processed, Near;
    if |ss| == 1 {
      NothingScaled(scale);
      assert RawSpan(ss) == 0 && Advanced(e, ss) == 0;
    } else {
      hide Scaled;
      var e2, rest := Processed(e, ss[0]), ss[1..];
      assert Quiet(e2, rest[0]);
      FirstStep(e, ss[0], ss[1], scale);
      AdvancedIsScaled(e2, rest, scale);
      var step := ss[1].mcuTs as int - ss[0].mcuTs;
      ScaledAdds(scale, step, RawSpan(rest));
      AdvancedSteps(e, ss);
      NearAdds(DataTs(e2, ss[1]) as int - DataTs(e, ss[0]), Scaled(scale, step), 1,
               Advanced(e2, rest), Scaled(scale, RawSpan(rest)), |rest| - 1);
    }
  }

  lemma NothingScaled(scale: real)
    ensures Near(0, Scaled(scale, 0), 0)
  {
  }

  lemma AdvancedSteps(e: Sensor, ss: seq<Sample>)
    requires |ss| > 1
    ensures var e2 := Processed(e, ss[0]);
            Advanced(e, ss) == DataTs(e2, ss[1]) as int - DataTs(e, ss[0]) + Advanced(e2, ss[1..])
  {
    hide DataTs, Processed;
  }

  /** While the scale is constant and nothing wraps, the timestamps of two reports of a run, the first and the
      last of these, differ by the scale times the MCU difference, up to one unit per report. */
  lemma ScaledTimestamps(e: Sensor, ss: seq<Sample>, scale: real)
    requires ss != [] && AllQuiet(e, ss) && ScaleHolds(e, ss, scale) && scale >= 0.0
    ensures var ts, n := Timestamps(e, ss), |ss| - 1;
            var raw, d := ss[n].mcuTs as int - ss[0].mcuTs, ts[n] as int - ts[0];
            raw >= 0 && scale * raw as real - n as real <= d as real <= scale * raw as real
  {
    hide AllQuiet, ScaleHolds, Timestamps;
    AdvancedIsScaled(e, ss, scale);
  }

  /** Reports only ever add adjustments. */
  lemma {:induction false} AdjustmentsGrow(e: Sensor, ss: seq<Sample>)
    ensures Reports(e, ss).adjusted >= e.adjusted
    decreases |ss|
  {
    if ss != [] {
      hide DataTs, NextRel, WindowRatio, Times;
      AdjustmentsGrow(Processed(e, ss[0]), ss[1..]);
    }
  }

  /** Without an adjustment the scale stays, and so does what is in the queues. */
  lemma {:induction false} NothingAdjusted(e: Sensor, ss: seq<Sample>, more: seq<Sample>)
    requires |e.mcuQueue| == |e.sysQueue| < WINDOW && Reports(e, ss).adjusted == e.adjusted && |more| <= 1
    ensures var t := Reports(e, ss);
            && t.scaling == e.scaling && |t.mcuQueue| == |t.sysQueue| < WINDOW
            && e.mcuQueue <= t.mcuQueue && e.sysQueue <= t.sysQueue
    ensures e.scaling.Finite? ==> ScaleHolds(e, ss + more, e.scaling.value)
    decreases |ss|
  {
    hide DataTs, NextRel, WindowRatio, Times;
    if ss == [] {
      assert ss + more == more;
    } else {
      var e2 := Processed(e, ss[0]);
      AdjustmentsGrow(e2, ss[1..]);
      assert e2.adjusted == e.adjusted;
      NothingAdjusted(e2, ss[1..], more);
      assert (ss + more)[1..] == ss[1..] + more;
    }
  }

  /** Where in the queues the span of a window begins. */
  function FirstUsed(adjusted: nat): nat {
    if adjusted <= 1 then WINDOW / 2 else 5
  }

  function NewScale(scale: real, cam: nat, imu: nat): real
    requires imu > 0
  {
    scale * (cam as real / imu as real)
  }

  /** The raw span takes `cam`, and at most 1.2 `n` more. */
  predicate Takes(span: real, cam: nat, n: int) {
    cam as real <= span <= cam as real + 1.2 * n as real
  }

  /** The rate at which the adjusted clock runs: a raw span that took `imu` with the old scale, up to `n`,
      takes `cam` with the new one, up to 1.2 `n`. */
  lemma AdjustedSpan(scale: real, raw: int, cam: nat, imu: nat, n: nat)
    requires imu > 0 && 8 * imu <= 10 * cam <= 12 * imu && Near(imu, Scaled(scale, raw), n)
    ensures Takes(Scaled(NewScale(scale, cam, imu), raw), cam, n)
  {
    var ratio, span := cam as real / imu as real, Scaled(scale, raw);
    assert ratio * imu as real == cam as real;
    RatioBounds(cam as real, imu as real, ratio);
    assert (scale * ratio) * raw as real == ratio * (scale * raw as real);
    RatioOfSpan(ratio, span, imu as real, n as real);
  }

  lemma RatioOfSpan(ratio: real, span: real, imu: real, n: real)
    requires 0.8 <= ratio <= 1.2 && n >= 0.0 && span - n <= imu <= span
    ensures ratio * imu <= ratio * span <= ratio * imu + 1.2 * n
  {
    var more := span - imu;
    assert ratio * span == ratio * imu + ratio * more;
    assert ratio * more >= 0.0;
    assert (1.2 - ratio) * more >= 0.0;
  }

  /** The span from one report to the report that fills a window: `imu` by the timestamps, `cam` by the host
      clock, with a ratio within the clamp. */
  predicate SpanIs(e: Sensor, first: Sample, e1: Sensor, last: Sample, imu: nat, cam: nat) {
    && imu == DataTs(e1, last) - DataTs(e, first) && cam == last.steadyTs - first.steadyTs
    && imu > 0 && 8 * imu <= 10 * cam <= 12 * imu
  }

  /** The scale after the report that fills the window. */
  lemma AdjustedScale(e: Sensor, e1: Sensor, first: Sample, last: Sample, imu: nat, cam: nat)
    requires Completes(e1, last) && e1.scaling.Finite? && SpanIs(e, first, e1, last, imu, cam)
    requires var k := FirstUsed(e1.adjusted);
             k < WINDOW - 1 && e1.mcuQueue[k] == DataTs(e, first) && e1.sysQueue[k] == first.steadyTs
    ensures Processed(e1, last).scaling == Finite(NewScale(e1.scaling.value, cam, imu))
  {
    hide DataTs, NextRel, WindowRatio, ClampedRatio;
    WindowRatioIs(e1.mcuQueue + [DataTs(e1, last)], e1.sysQueue + [last.steadyTs], e1.adjusted);
    RatioExactly(cam, imu);
  }

  /** From the report that begins the span to the one that fills the window, `e1` being the state before it. */
  predicate FillsWindow(e: Sensor, before: seq<Sample>, e1: Sensor, last: Sample) {
    && before != [] && e.scaling.Finite? && e.scaling.value >= 0.0
    && |e.mcuQueue| == |e.sysQueue| == FirstUsed(e.adjusted) && IsSync(e, before[0])
    && e1 == Reports(e, before) && e1.adjusted == e.adjusted && Completes(e1, last)
    && AllQuiet(e, before + [last])
  }

  /** What the estimator is for. `before` are the reports from the one where a window's span begins up to the
      one that fills it, which is the first of `after`. If the host clock measured that span as `cam`, within
      the clamp, then the next raw span of the same length advances the timestamps by `cam`: short by at most
      one unit per report in it, long by at most 1.2 units per report in the window. */
  lemma AdjustmentCorrectsTimestamps(e: Sensor, before: seq<Sample>, e1: Sensor, after: seq<Sample>, imu: nat, cam: nat)
    requires |after| > 1 && FillsWindow(e, before, e1, after[0]) && AllQuiet(e1, after)
    requires Reports(e1, after[..|after| - 1]).adjusted == e1.adjusted + 1
    requires SpanIs(e, before[0], e1, after[0], imu, cam)
    requires after[|after| - 1].mcuTs - after[0].mcuTs == after[0].mcuTs - before[0].mcuTs
    ensures var ts := Timestamps(e1, after);
            var d := ts[|after| - 1] as int - ts[0];
            cam as real - (|after| - 1) as real <= d as real <= cam as real + 1.2 * |before| as real
  {
    hide DataTs, AllQuiet, IsSync, Timestamps, Reports, ScaleHolds, Processed, Completes, FirstUsed, Scaled, NewScale;
    var scale := e.scaling.value;
    var next := NewScale(scale, cam, imu);
    WindowFilled(e, before, e1, after[0]);
    WindowSpan(e, before, e1, after[0], imu, cam, scale);
    AdjustedScale(e, e1, before[0], after[0], imu, cam);
    ScaleNonNegative(scale, cam, imu);
    ScaleAfter(e1, after, next);
    AdvancedIsScaled(e1, after, next);
    assert RawSpan(after) == RawSpan(before + [after[0]]);
  }

  lemma ScaleNonNegative(scale: real, cam: nat, imu: nat)
    requires scale >= 0.0 && imu > 0
    ensures NewScale(scale, cam, imu) >= 0.0
  {
    assert cam as real / imu as real >= 0.0;
  }

  /** With the new scale the raw span of the window takes `cam`, up to the rounding in the window. */
  lemma WindowSpan(e: Sensor, before: seq<Sample>, e1: Sensor, last: Sample, imu: nat, cam: nat, scale: real)
    requires FillsWindow(e, before, e1, last) && SpanIs(e, before[0], e1, last, imu, cam) && e.scaling == Finite(scale)
    requires ScaleHolds(e, before + [last], scale)
    ensures Takes(Scaled(NewScale(scale, cam, imu), RawSpan(before + [last])), cam, |before|)
  {
    hide DataTs, AllQuiet, IsSync, Timestamps, Reports, ScaleHolds, Completes, FirstUsed, Scaled, RawSpan, Near,
         NewScale, Takes;
    TimestampEnds(e, before, last);
    AdvancedIsScaled(e, before + [last], scale);
    assert Advanced(e, before + [last]) == imu;
    AdjustedSpan(scale, RawSpan(before + [last]), cam, imu, |before|);
  }

  lemma Queued(e: Sensor, s: Sample)
    requires IsSync(e, s) && |e.mcuQueue| == |e.sysQueue| < WINDOW - 1
    ensures var t := Processed(e, s);
            && t.mcuQueue == e.mcuQueue + [DataTs(e, s)] && t.sysQueue == e.sysQueue + [s.steadyTs]
            && t.adjusted == e.adjusted && t.scaling == e.scaling
  {
    hide DataTs, NextRel, WindowRatio, Times;
  }

  /** The report that begins the span is still in its place when the window is full, and the scale is the same. */
  lemma WindowFilled(e: Sensor, before: seq<Sample>, e1: Sensor, last: Sample)
    requires FillsWindow(e, before, e1, last)
    ensures var k := FirstUsed(e.adjusted);
            && e1.scaling == e.scaling && e1.adjusted == e.adjusted && k < WINDOW - 1
            && |e1.mcuQueue| == |e1.sysQueue| == WINDOW - 1
            && e1.mcuQueue[k] == DataTs(e, before[0]) && e1.sysQueue[k] == before[0].steadyTs
    ensures ScaleHolds(e, before + [last], e.scaling.value)
  {
    hide DataTs, Processed, IsSync, ScaleHolds, AllQuiet;
    var e2 := Processed(e, before[0]);
    Queued(e, before[0]);
    NothingAdjusted(e, before, [last]);
    AdjustmentsGrow(e2, before[1..]);
    NothingAdjusted(e2, before[1..], [last]);
  }

  lemma {:induction false} TimestampEnds(e: Sensor, before: seq<Sample>, last: Sample)
    ensures var ts := Timestamps(e, before + [last]);
            && ts[|before|] == DataTs(Reports(e, before), last)
            && (before != [] ==> ts[0] == DataTs(e, before[0]))
    decreases |before|
  {
    hide DataTs, Processed;
    if before == [] {
      assert before + [last] == [last];
    } else {
      assert (before + [last])[1..] == before[1..] + [last];
      TimestampEnds(Processed(e, before[0]), before[1..], last);
    }
  }

  lemma ScaleAfter(e1: Sensor, after: seq<Sample>, scale: real)
    requires |after| > 1 && Completes(e1, after[0]) && Processed(e1, after[0]).scaling == Finite(scale)
    requires Reports(e1, after[..|after| - 1]).adjusted == e1.adjusted + 1
    ensures ScaleHolds(e1, after, scale)
  {
    hide DataTs, NextRel, WindowRatio, Times, IsSync;
    var e2, n := Processed(e1, after[0]), |after| - 1;
    var rest := after[1..n];
    assert after[..n][1..] == rest && after[..n][0] == after[0];
    assert e2.adjusted == e1.adjusted + 1 && e2.mcuQueue == e2.sysQueue == [] by { Emptied(e1, after[0]); }
    NothingAdjusted(e2, rest, [after[n]]);
    assert rest + [after[n]] == after[1..];
  }

  lemma Emptied(e: Sensor, s: Sample)
    requires Completes(e, s)
    ensures Processed(e, s).adjusted == e.adjusted + 1 && Processed(e, s).mcuQueue == Processed(e, s).sysQueue == []
  {
    hide DataTs, NextRel, WindowRatio, Times;
  }

  // ----- which reports count

  /** No report so far had valid inertial data. */
  predicate NoneValid(evs: seq<Event>) {
    forall i :: 0 <= i < |evs| && evs[i].Report? ==> !evs[i].sample.imuValid
  }

  /** The frame count of the last report, not counting the first valid one. */
  function LastCount(evs: seq<Event>): uint32 {
    if evs == [] then 0
    else
      var init, last := evs[..|evs| - 1], evs[|evs| - 1];
      if last.Report? && !(NoneValid(init) && last.sample.imuValid) then last.sample.frameSyncCount else LastCount(init)
  }

  lemma {:induction false} RunRemembers(evs: seq<Event>)
    ensures Run(START, evs).firstImu <==> NoneValid(evs)
    ensures Run(START, evs).lastSyncCount == LastCount(evs)
    decreases |evs|
  {
    hide DataTs, NextRel, WindowRatio, Times, TruncatedThird;
    if evs != [] {
      RunRemembers(evs[..|evs| - 1]);
      assert evs == evs[..|evs| - 1] + [evs[|evs| - 1]];
    }
  }

  /** In every run a report belongs to a camera frame exactly when it is not the first valid one, the board
      can synchronise, a frame was counted before, and the board flags a frame or counts one more. */
  lemma SyncCondition(evs: seq<Event>, s: Sample)
    ensures IsSync(Run(START, evs), s) <==>
              && !(NoneValid(evs) && s.imuValid) && s.syncCapable && LastCount(evs) != 0
              && (s.frameSync || s.frameSyncCount > LastCount(evs))
  {
    hide Run;
    RunRemembers(evs);
  }

  /** In every run the first valid report sets the start time to the wall clock, and until the video thread
      sets another one that is the start time. */
  lemma {:induction false} FirstValidReportSetsStart(evs: seq<Event>, i: nat)
    requires i < |evs| && NoneValid(evs[..i]) && evs[i].Report? && evs[i].sample.imuValid
    requires forall j :: i < j < |evs| ==> !evs[j].SetStart?
    ensures Run(START, evs).startTs == evs[i].sample.wallTs
    decreases |evs|
  {
    hide DataTs, NextRel, WindowRatio, Times, TruncatedThird;
    var init := evs[..|evs| - 1];
    RunRemembers(init);
    if i < |init| {
      assert init[..i] == evs[..i] && !NoneValid(init);
      FirstValidReportSetsStart(init, i);
    } else {
      assert init == evs[..i];
    }
  }

  // ----- the offset hand-shake

  /** The clock differences that a sequence of hand-shakes observes, summed. */
  function Total(ds: seq<int>): int {
    if ds == [] then 0 else Total(ds[..|ds| - 1]) + ds[|ds| - 1]
  }

  /** The hand-shake state on its own. */
  datatype Offset = Offset(offset: int, sum: int, count: nat)

  function Observe(o: Offset, d: int): Offset {
    if o.count + 1 == 3 then Offset(o.offset + TruncatedThird(o.sum + d), 0, 0)
    else Offset(o.offset, o.sum + d, o.count + 1)
  }

  function ObserveAll(o: Offset, ds: seq<int>): Offset {
    if ds == [] then o else Observe(ObserveAll(o, ds[..|ds| - 1]), ds[|ds| - 1])
  }

  function OffsetOf(e: Sensor): Offset {
    Offset(e.syncOffset, e.offsetSum, e.handshakes)
  }

  /** Only hand-shakes change the offset, and each observes the difference of its two timestamps. */
  lemma OffsetStep(e: Sensor, ev: Event)
    ensures OffsetOf(Step(e, ev)) == if ev.Handshake? then Observe(OffsetOf(e), e.syncTs - ev.frameTs) else OffsetOf(e)
  {
  }

  lemma ThirdIsClose(n: int)
    ensures -2 <= 3 * TruncatedThird(n) - n <= 2
  {
  }

  lemma NextOfThree(n: nat)
    ensures (n + 1) % 3 == if n % 3 == 2 then 0 else n % 3 + 1
    ensures (n + 1) / 3 == if n % 3 == 2 then n / 3 + 1 else n / 3
  {
  }

  /** The offset changes only on every third hand-shake, and after 3m of them three times its total change
      differs from the sum of all observed differences by at most 2m. */
  lemma {:induction false} OffsetTracksDifferences(o: Offset, ds: seq<int>)
    requires o.sum == 0 && o.count == 0
    ensures var p, m := ObserveAll(o, ds), |ds| / 3;
            && p.count == |ds| % 3
            && -2 * m <= 3 * (p.offset - o.offset) + p.sum - Total(ds) <= 2 * m
            && (p.count == 0 ==> p.sum == 0)
            && (p.count != 0 ==> p.offset == ObserveAll(o, ds[..|ds| - 1]).offset)
    decreases |ds|
  {
    if ds != [] {
      hide TruncatedThird;
      var init, d := ds[..|ds| - 1], ds[|ds| - 1];
      OffsetTracksDifferences(o, init);
      NextOfThree(|init|);
      ThirdIsClose(ObserveAll(o, init).sum + d);
    }
  }

  /** Hand-shakes with a camera whose clock differs by a constant: each observes what is left of it. */
  function ClosedLoop(o: Offset, difference: int, n: nat): Offset {
    if n == 0 then o
    else
      var p := ClosedLoop(o, difference, n - 1);
      Observe(p, difference - (p.offset - o.offset))
  }

  /** What a hand-shake observes after a full window: the clock difference to the camera less the offset
      already applied, if nothing leaves the 64-bit range. */
  lemma ObservedDifference(e: Sensor, s: Sample, frameTs: uint64, difference: int)
    requires IsSync(e, s) && |e.mcuQueue| == |e.sysQueue| == WINDOW - 1
    requires 0 <= e.startTs - e.syncOffset + NextRel(e, s) < TWO_64
    requires frameTs == e.startTs + NextRel(e, s) - difference
    ensures var t := Processed(e, s);
            t.ready && Handshaken(t, frameTs).handshakes == (if e.handshakes == 2 then 0 else e.handshakes + 1)
            && t.syncTs - frameTs == difference - e.syncOffset
  {
    hide ToUint64, WindowRatio, Times, NextRel;
    InUint64(e.startTs - e.syncOffset + NextRel(e, s));
  }

  lemma ExactThird(d: int)
    ensures TruncatedThird(d + d + d) == d && TruncatedThird(0) == 0
  {
  }

  lemma SettledStep(p: Offset)
    requires p.sum == 0 && p.count < 3
    ensures Observe(p, 0) == Offset(p.offset, 0, if p.count == 2 then 0 else p.count + 1)
  {
    ExactThird(0);
  }

  /** A constant clock difference is gone after three hand-shakes and stays gone. */
  lemma {:induction false} ConstantDifferenceVanishes(o: Offset, difference: int, n: nat)
    requires o.sum == 0 && o.count == 0
    ensures var p := ClosedLoop(o, difference, n);
            if n < 3 then p == Offset(o.offset, n * difference, n) else p == Offset(o.offset + difference, 0, n % 3)
    decreases n
  {
    if n > 3 {
      hide Observe;
      ConstantDifferenceVanishes(o, difference, n - 1);
      NextOfThree(n - 1);
      SettledStep(ClosedLoop(o, difference, n - 1));
    } else if n > 0 {
      hide TruncatedThird;
      ConstantDifferenceVanishes(o, difference, n - 1);
      ExactThird(difference);
    }
  }

  // ----- the hand-shake in runs of both threads

  /** The differences that the hand-shakes of a run observe. */
  function Differences(e: Sensor, evs: seq<Event>): seq<int> {
    if evs == [] then []
    else
      var init, last := evs[..|evs| - 1], evs[|evs| - 1];
      Differences(e, init) + if last.Handshake? then [Run(e, init).syncTs - last.frameTs] else []
  }

  lemma {:induction false} RunObserves(e: Sensor, evs: seq<Event>)
    ensures OffsetOf(Run(e, evs)) == ObserveAll(OffsetOf(e), Differences(e, evs))
    decreases |evs|
  {
    hide Step;
    if evs != [] {
      var init, last := evs[..|evs| - 1], evs[|evs| - 1];
      RunObserves(e, init);
      OffsetStep(Run(e, init), last);
      var before := Differences(e, init);
      if last.Handshake? {
        assert (before + [Run(e, init).syncTs - last.frameTs])[..|before|] == before;
      } else {
        assert Differences(e, evs) == before;
      }
    }
  }

  /** In every run of both threads: only every third hand-shake changes the offset, and after 3m of them three
      times the offset differs from the sum of all observed differences by at most 2m. */
  lemma RunTracksDifferences(evs: seq<Event>)
    ensures var e, ds := Run(START, evs), Differences(START, evs);
            && e.handshakes == |ds| % 3
            && -2 * (|ds| / 3) <= 3 * e.syncOffset + e.offsetSum - Total(ds) <= 2 * (|ds| / 3)
            && (|ds| % 3 == 0 ==> e.offsetSum == 0)
            && (evs != [] && e.syncOffset != Run(START, evs[..|evs| - 1]).syncOffset ==>
                  evs[|evs| - 1].Handshake? && |ds| % 3 == 0)
  {
    hide Run, Differences, ObserveAll, Step, Total;
    RunObserves(START, evs);
    OffsetTracksDifferences(OffsetOf(START), Differences(START, evs));
    if evs != [] {
      ThirdHandshake(Run(START, evs[..|evs| - 1]), evs[|evs| - 1]);
      assert Run(START, evs) == Step(Run(START, evs[..|evs| - 1]), evs[|evs| - 1]) by { LastStep(START, evs); }
    }
  }

  lemma LastStep(e: Sensor, evs: seq<Event>)
    requires evs != []
    ensures Run(e, evs) == Step(Run(e, evs[..|evs| - 1]), evs[|evs| - 1])
  {
  }

  lemma ThirdHandshake(e: Sensor, ev: Event)
    ensures Step(e, ev).syncOffset != e.syncOffset ==> ev.Handshake? && Step(e, ev).handshakes == 0
  {
    hide Step;
    OffsetStep(e, ev);
  }

  /** The time of the report that filled the last window, before the offset is taken off. */
  function WindowTime(e: Sensor, evs: seq<Event>): int {
    if evs == [] then 0
    else
      var init, last := evs[..|evs| - 1], evs[|evs| - 1];
      if last.Report? && Completes(Run(e, init), last.sample)
      then Run(e, init).startTs + NextRel(Run(e, init), last.sample)
      else WindowTime(e, init)
  }

  /** What may happen next for the camera clock to differ by a constant: a hand-shake follows a full window,
      with a frame taken at that time by the camera clock; and window times fit 64 bits. */
  predicate Steady(e: Sensor, windowTime: int, ev: Event, difference: int) {
    match ev
    case Report(s) => Completes(e, s) ==> 0 <= e.startTs - e.syncOffset + NextRel(e, s) < TWO_64
    case SetStart(_) => true
    case Handshake(frameTs) => e.ready && frameTs == windowTime - difference
  }

  predicate ConstantDifference(evs: seq<Event>, difference: int)
    decreases |evs|
  {
    evs == [] ||
    var init := evs[..|evs| - 1];
    ConstantDifference(init, difference)
    && Steady(Run(START, init), WindowTime(START, init), evs[|evs| - 1], difference)
  }

  ghost predicate InLoop(e: Sensor, windowTime: int, difference: int, n: nat) {
    && OffsetOf(e) == ClosedLoop(OffsetOf(START), difference, n)
    && (e.ready ==> e.syncTs == windowTime - e.syncOffset)
    && |e.mcuQueue| == |e.sysQueue| < WINDOW
  }

  lemma ReportInLoop(e: Sensor, s: Sample, windowTime: int, difference: int, n: nat)
    requires InLoop(e, windowTime, difference, n) && Steady(e, windowTime, Report(s), difference)
    ensures InLoop(Processed(e, s), if Completes(e, s) then e.startTs + NextRel(e, s) else windowTime, difference, n)
  {
    hide NextRel, ToUint64, WindowRatio, Times, ClosedLoop;
    if Completes(e, s) {
      InUint64(e.startTs - e.syncOffset + NextRel(e, s));
    }
  }

  lemma HandshakeInLoop(e: Sensor, frameTs: uint64, windowTime: int, difference: int, n: nat)
    requires InLoop(e, windowTime, difference, n) && Steady(e, windowTime, Handshake(frameTs), difference)
    ensures InLoop(Handshaken(e, frameTs), windowTime, difference, n + 1)
  {
    hide TruncatedThird;
    OffsetStep(e, Handshake(frameTs));
  }

  lemma StepInLoop(evs: seq<Event>, ev: Event, difference: int, n: nat)
    requires InLoop(Run(START, evs), WindowTime(START, evs), difference, n)
    requires Steady(Run(START, evs), WindowTime(START, evs), ev, difference)
    ensures InLoop(Run(START, evs + [ev]), WindowTime(START, evs + [ev]), difference,
                   if ev.Handshake? then n + 1 else n)
  {
    hide Processed, Handshaken, InLoop, NextRel, Completes;
    assert (evs + [ev])[..|evs|] == evs;
    var e, w := Run(START, evs), WindowTime(START, evs);
    match ev {
      case Report(s) => ReportInLoop(e, s, w, difference, n);
      case Handshake(frameTs) => HandshakeInLoop(e, frameTs, w, difference, n);
      case SetStart(ts) => StartInLoop(e, ts, w, difference, n);
    }
  }

  lemma StartInLoop(e: Sensor, ts: uint64, windowTime: int, difference: int, n: nat)
    requires InLoop(e, windowTime, difference, n)
    ensures InLoop(e.(startTs := ts), windowTime, difference, n)
  {
  }

  lemma {:induction false} RunInLoop(evs: seq<Event>, difference: int)
    requires ConstantDifference(evs, difference)
    ensures InLoop(Run(START, evs), WindowTime(START, evs), difference, |Differences(START, evs)|)
    decreases |evs|
  {
    hide Run, WindowTime, InLoop, Steady;
    if evs == [] {
      StartsInLoop(difference);
    } else {
      var init, last := evs[..|evs| - 1], evs[|evs| - 1];
      RunInLoop(init, difference);
      StepInLoop(init, last, difference, |Differences(START, init)|);
      assert init + [last] == evs;
    }
  }

  lemma StartsInLoop(difference: int)
    ensures InLoop(Run(START, []), WindowTime(START, []), difference, 0)
  {
  }

  /** In every run of both threads whose hand-shakes see a camera clock that differs by a constant, the offset
      is that difference from the third hand-shake on, so that report times are camera times; before it the
      offset is zero. */
  lemma RunRemovesDifference(evs: seq<Event>, difference: int)
    requires ConstantDifference(evs, difference)
    ensures var e, n := Run(START, evs), |Differences(START, evs)|;
            && e.syncOffset == (if n < 3 then 0 else difference)
            && (n >= 3 ==> e.offsetSum == 0)
            && (e.ready && n >= 3 ==> e.syncTs == WindowTime(START, evs) - difference)
  {
    hide Run, WindowTime, Differences, ClosedLoop;
    RunInLoop(evs, difference);
    ConstantDifferenceVanishes(OffsetOf(START), difference, |Differences(START, evs)|);
  }
}
