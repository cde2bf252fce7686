/** The temporal filters of the thermal camera, over exact reals and against the history of their inputs. */
module Filters {

  type Image = seq<real>

  // ----- sums and means

  function Total(xs: seq<real>): real {
    if xs == [] then 0.0 else Total(xs[..|xs| - 1]) + xs[|xs| - 1]
  }

  predicate SameSize(frames: seq<Image>, pixels: nat) {
    forall i :: 0 <= i < |frames| ==> |frames[i]| == pixels
  }

  /** One pixel of every frame, in order. */
  function Pixel(frames: seq<Image>, pixels: nat, p: nat): (xs: seq<real>)
    requires SameSize(frames, pixels) && p < pixels
    ensures |xs| == |frames|
  {
    seq(|frames|, i requires 0 <= i < |frames| => frames[i][p])
  }

  /** `np.sum(frames, axis=0)`. */
  function SumFrames(frames: seq<Image>, pixels: nat): (r: Image)
    requires SameSize(frames, pixels)
    ensures |r| == pixels
  {
    seq(pixels, p requires 0 <= p < pixels => Total(Pixel(frames, pixels, p)))
  }

  function Divided(im: Image, n: nat): (r: Image)
    requires n > 0
    ensures |r| == |im|
  {
    seq(|im|, p requires 0 <= p < |im| => im[p] / n as real)
  }

  function Mean(frames: seq<Image>, pixels: nat): Image
    requires SameSize(frames, pixels) && frames != []
  {
    Divided(SumFrames(frames, pixels), |frames|)
  }

  /** At every pixel, the number of frames times the image is the sum of the frames. */
  ghost predicate TimesCountIsTotal(im: Image, frames: seq<Image>, pixels: nat)
    requires SameSize(frames, pixels)
  {
    |im| == pixels
    && forall p :: 0 <= p < pixels ==> |frames| as real * im[p] == Total(Pixel(frames, pixels, p))
  }

  /** So it is for the mean. */
  lemma MeanTimesCount(frames: seq<Image>, pixels: nat)
    requires SameSize(frames, pixels) && frames != []
    ensures TimesCountIsTotal(Mean(frames, pixels), frames, pixels)
  {
    hide Total, Pixel;
    forall p | 0 <= p < pixels
      ensures |frames| as real * Mean(frames, pixels)[p] == Total(Pixel(frames, pixels, p))
    {
      QuotientTimes(Total(Pixel(frames, pixels, p)), |frames|);
    }
  }

  lemma QuotientTimes(t: real, n: nat)
    requires n > 0
    ensures n as real * (t / n as real) == t
  {
  }

  function Min(a: nat, b: nat): nat {
    if a < b then a else b
  }

  /** The last `n` frames, or all there are. */
  function Recent(history: seq<Image>, n: nat): seq<Image> {
    history[|history| - Min(|history|, n)..]
  }

  lemma {:induction false} TotalConcat(a: seq<real>, b: seq<real>)
    ensures Total(a + b) == Total(a) + Total(b)
    decreases |b|
  {
    if b == [] {
      assert a + b == a;
    } else {
      assert (a + b)[..|a + b| - 1] == a + b[..|b| - 1];
      TotalConcat(a, b[..|b| - 1]);
    }
  }

  // ----- the ring buffer

  function Blank(pixels: nat): (im: Image)
    ensures |im| == pixels
  {
    seq(pixels, _ => 0.0)
  }

  /** The buffer holds the recent history: filled from the front at first, then rotated so that the oldest
      frame is at `ix`. */
  ghost predicate RingOf(buf: seq<Image>, ix: nat, history: seq<Image>, depth: nat, pixels: nat) {
    && |buf| == depth > 0 && ix < depth && SameSize(buf, pixels) && SameSize(history, pixels)
    && if |history| < depth then ix == |history| && buf == history + seq(depth - |history|, _ => Blank(pixels))
       else buf[ix..] + buf[..ix] == Recent(history, depth)
  }

  function NextIndex(ix: nat, depth: nat): nat {
    if ix + 1 > depth - 1 then 0 else ix + 1
  }

  lemma RingStep(buf: seq<Image>, ix: nat, history: seq<Image>, depth: nat, pixels: nat, image: Image)
    requires RingOf(buf, ix, history, depth, pixels) && |image| == pixels
    ensures RingOf(buf[ix := image], NextIndex(ix, depth), history + [image], depth, pixels)
  {
    var b, h := buf[ix := image], history + [image];
    if |history| < depth {
      assert b == history + [image] + seq(depth - |history| - 1, _ => Blank(pixels));
      if |h| == depth {
        assert b[0..] + b[..0] == b == h;
        assert Recent(h, depth) == h;
      }
    } else {
      var window := buf[ix..] + buf[..ix];
      assert Recent(h, depth) == window[1..] + [image];
      var next := NextIndex(ix, depth);
      if next == 0 {
        assert b[0..] + b[..0] == b;
        assert window[1..] == buf[..ix];
      } else {
        assert window[1..] == buf[ix + 1..] + buf[..ix];
        assert b[next..] == buf[ix + 1..] && b[..next] == buf[..ix] + [image];
      }
    }
  }

  lemma {:induction false} ZerosTotal(n: nat)
    ensures Total(seq(n, _ => 0.0)) == 0.0
    decreases n
  {
    if n > 0 {
      var z := seq<real>(n, _ => 0.0);
      assert z[..n - 1] == seq(n - 1, _ => 0.0);
      ZerosTotal(n - 1);
    }
  }

  /** Summing the buffer is summing the recent history, pixel by pixel. */
  lemma RingSum(buf: seq<Image>, ix: nat, history: seq<Image>, depth: nat, pixels: nat)
    requires RingOf(buf, ix, history, depth, pixels)
    ensures SameSize(Recent(history, depth), pixels)
    ensures SumFrames(buf, pixels) == SumFrames(Recent(history, depth), pixels)
  {
    var recent := Recent(history, depth);
    forall p | 0 <= p < pixels
      ensures Total(Pixel(buf, pixels, p)) == Total(Pixel(recent, pixels, p))
    {
      if |history| < depth {
        var rest := depth - |history|;
        assert recent == history;
        assert Pixel(buf, pixels, p) == Pixel(history, pixels, p) + seq(rest, _ => 0.0);
        TotalConcat(Pixel(history, pixels, p), seq(rest, _ => 0.0));
        ZerosTotal(rest);
      } else {
        var a, b := Pixel(buf[..ix], pixels, p), Pixel(buf[ix..], pixels, p);
        assert Pixel(buf, pixels, p) == a + b;
        assert Pixel(recent, pixels, p) == b + a;
        TotalConcat(a, b);
        TotalConcat(b, a);
      }
    }
  }

  class TrueAverageFilter {
    const depth: nat
    const pixels: nat
    var buf: seq<Image>
    var counter: nat
    var ix: nat
    var av: Image
    ghost var history: seq<Image>

    ghost predicate Valid()
      reads this
    {
      RingOf(buf, ix, history, depth, pixels) && counter == Min(|history|, depth)
    }

    constructor (depth: nat, pixels: nat)
      requires depth >= 1
      ensures Valid() && history == [] && this.depth == depth && this.pixels == pixels
    {
      this.depth, this.pixels := depth, pixels;
      buf := seq(depth, _ => Blank(pixels));
      counter, ix, av, history := 0, 0, [], [];
      new;
      assert buf == history + seq(depth - |history|, _ => Blank(pixels));
    }

    /** Returns the pixel-wise mean of the last `depth` frames, or of all there are. */
    method Update(image: Image) returns (r: Image)
      requires Valid() && |image| == pixels
      modifies this
      ensures Valid() && history == old(history) + [image] && r == av
      ensures SameSize(Recent(history, depth), pixels) && Recent(history, depth) != []
      ensures r == Mean(Recent(history, depth), pixels)
      ensures TimesCountIsTotal(r, Recent(history, depth), pixels)
    {
      hide SumFrames, Recent, SameSize, TimesCountIsTotal;
      RingStep(buf, ix, history, depth, pixels, image);
      if counter < depth {
        counter := counter + 1;
      }
      buf := buf[ix := image];
      history := history + [image];
      RingSum(buf, NextIndex(ix, depth), history, depth, pixels);
      RecentLength(history, depth);
      av := SumFrames(buf, pixels);
      av := Divided(av, counter);
      MeanTimesCount(Recent(history, depth), pixels);
      ix := ix + 1;
      if ix > depth - 1 {
        ix := 0;
      }
      r := av;
    }
  }

  lemma RecentLength(history: seq<Image>, n: nat)
    ensures |Recent(history, n)| == Min(|history|, n)
  {
  }

  // ----- products, kept by name so that each proof expands only the ones it needs

  function Mul(a: real, b: real): real {
    a * b
  }

  function Inverse(n: nat): real
    requires n > 0
  {
    1.0 / n as real
  }

  lemma InverseBounds(n: nat)
    requires n > 0
    ensures 0.0 < Inverse(n) <= 1.0 && Mul(n as real, Inverse(n)) == 1.0
  {
  }

  lemma MulAdds(c: real, a: real, b: real)
    ensures Mul(c, a + b) == Mul(c, a) + Mul(c, b)
  {
  }

  lemma MulAssociates(a: real, b: real, c: real)
    ensures Mul(Mul(a, b), c) == Mul(a, Mul(b, c))
  {
    assert (a * b) * c == a * (b * c);
  }

  lemma MulNonNegative(a: real, b: real)
    requires a >= 0.0 && b >= 0.0
    ensures Mul(a, b) >= 0.0
  {
  }

  // ----- weighted averages

  function Dot(ws: seq<real>, xs: seq<real>): real
    requires |ws| == |xs|
  {
    if ws == [] then 0.0 else Dot(ws[..|ws| - 1], xs[..|xs| - 1]) + Mul(ws[|ws| - 1], xs[|xs| - 1])
  }

  predicate NonNegative(ws: seq<real>) {
    forall i :: 0 <= i < |ws| ==> ws[i] >= 0.0
  }

  function Scaled(ws: seq<real>, c: real): (r: seq<real>)
    ensures |r| == |ws|
  {
    seq(|ws|, i requires 0 <= i < |ws| => Mul(c, ws[i]))
  }

  lemma ScaledInit(ws: seq<real>, c: real)
    requires ws != []
    ensures Scaled(ws, c)[..|ws| - 1] == Scaled(ws[..|ws| - 1], c)
  {
    hide Mul;
  }

  lemma {:induction false} ScaledTotal(ws: seq<real>, c: real)
    ensures Total(Scaled(ws, c)) == Mul(c, Total(ws))
    decreases |ws|
  {
    if ws == [] {
      assert Mul(c, 0.0) == 0.0;
    } else {
      hide Mul;
      ScaledInit(ws, c);
      ScaledTotal(ws[..|ws| - 1], c);
      MulAdds(c, Total(ws[..|ws| - 1]), ws[|ws| - 1]);
    }
  }

  lemma {:induction false} ScaledDot(ws: seq<real>, xs: seq<real>, c: real)
    requires |ws| == |xs|
    ensures Dot(Scaled(ws, c), xs) == Mul(c, Dot(ws, xs))
    decreases |ws|
  {
    if ws == [] {
      assert Mul(c, 0.0) == 0.0;
    } else {
      hide Mul;
      var init := xs[..|xs| - 1];
      ScaledInit(ws, c);
      ScaledDot(ws[..|ws| - 1], init, c);
      MulAdds(c, Dot(ws[..|ws| - 1], init), Mul(ws[|ws| - 1], xs[|xs| - 1]));
      MulAssociates(c, ws[|ws| - 1], xs[|xs| - 1]);
    }
  }

  /** Non-negative weights keep the weighted sum between the bounds times the total weight. */
  lemma {:induction false} DotBounds(ws: seq<real>, xs: seq<real>, lo: real, hi: real)
    requires |ws| == |xs| && NonNegative(ws) && forall i :: 0 <= i < |xs| ==> lo <= xs[i] <= hi
    ensures Mul(lo, Total(ws)) <= Dot(ws, xs) <= Mul(hi, Total(ws))
    decreases |ws|
  {
    if ws == [] {
      assert Mul(lo, 0.0) == 0.0 && Mul(hi, 0.0) == 0.0;
    } else {
      hide Mul;
      DotBounds(ws[..|ws| - 1], xs[..|xs| - 1], lo, hi);
      Between(ws[|ws| - 1], xs[|xs| - 1], lo, hi);
      MulAdds(lo, Total(ws[..|ws| - 1]), ws[|ws| - 1]);
      MulAdds(hi, Total(ws[..|ws| - 1]), ws[|ws| - 1]);
    }
  }

  lemma Between(w: real, x: real, lo: real, hi: real)
    requires w >= 0.0 && lo <= x <= hi
    ensures Mul(lo, w) <= Mul(w, x) <= Mul(hi, w)
  {
    assert w * (x - lo) >= 0.0;
    assert w * (hi - x) >= 0.0;
  }

  // ----- the rolling average

  /** The weight of each of the first `n` inputs in the filter's value. */
  function RollingWeights(n: nat, window: nat): (ws: seq<real>)
    requires n >= 1 && window >= 1
    ensures |ws| == n
  {
    if n <= window then Constant(n, Inverse(n))
    else Scaled(RollingWeights(n - 1, window), 1.0 - Inverse(window)) + [Inverse(window)]
  }

  function Constant(n: nat, c: real): (s: seq<real>)
    ensures |s| == n
  {
    seq(n, _ => c)
  }

  lemma {:induction false} ConstantTotal(n: nat, c: real)
    ensures Total(Constant(n, c)) == Mul(n as real, c)
    decreases n
  {
    if n > 0 {
      assert Constant(n, c)[..n - 1] == Constant(n - 1, c);
      ConstantTotal(n - 1, c);
      assert n as real * c == (n - 1) as real * c + c;
    }
  }

  lemma {:induction false} ConstantDot(xs: seq<real>, c: real)
    ensures Dot(Constant(|xs|, c), xs) == Mul(c, Total(xs))
    decreases |xs|
  {
    if xs == [] {
      assert Mul(c, 0.0) == 0.0;
    } else {
      hide Mul;
      assert Constant(|xs|, c)[..|xs| - 1] == Constant(|xs| - 1, c);
      ConstantDot(xs[..|xs| - 1], c);
      MulAdds(c, Total(xs[..|xs| - 1]), xs[|xs| - 1]);
    }
  }

  /** The weights are those of a convex combination. */
  lemma {:induction false} RollingWeightsConvex(n: nat, window: nat)
    requires n >= 1 && window >= 1
    ensures NonNegative(RollingWeights(n, window)) && Total(RollingWeights(n, window)) == 1.0
    decreases n
  {
    hide Mul, Inverse, Total;
    if n <= window {
      ConstantTotal(n, Inverse(n));
      InverseBounds(n);
    } else {
      RollingWeightsConvex(n - 1, window);
      InverseBounds(window);
      var c, earlier := 1.0 - Inverse(window), RollingWeights(n - 1, window);
      ScaledTotal(earlier, c);
      forall i | 0 <= i < |earlier|
        ensures Mul(c, earlier[i]) >= 0.0
      {
        MulNonNegative(c, earlier[i]);
      }
      assert Mul(c, 1.0) == c by { TimesOne(c); }
      TotalConcat(Scaled(earlier, c), [Inverse(window)]);
      TotalOne(Inverse(window));
    }
  }

  lemma TimesOne(c: real)
    ensures Mul(c, 1.0) == c
  {
  }

  lemma TotalOne(x: real)
    ensures Total([x]) == x
  {
    assert [x][..0] == [];
  }

  /** One more input during the first `window`: the running mean stays the mean. */
  lemma MeanStep(xs: seq<real>, x: real, av: real)
    requires Mul(|xs| as real, av) == Total(xs)
    ensures Mul((|xs| + 1) as real, av + Mul(Inverse(|xs| + 1), x - av)) == Total(xs + [x])
  {
    hide Mul, Inverse;
    assert (xs + [x])[..|xs|] == xs;
    InverseBounds(|xs| + 1);
    RunningMean(Total(xs), |xs| as real, x, av, Inverse(|xs| + 1));
  }

  lemma RunningMean(t: real, n: real, x: real, av: real, c: real)
    requires Mul(n, av) == t && Mul(n + 1.0, c) == 1.0
    ensures Mul(n + 1.0, av + Mul(c, x - av)) == t + x
  {
    assert (n + 1.0) * (c * (x - av)) == ((n + 1.0) * c) * (x - av);
    assert (n + 1.0) * av == n * av + av;
    assert (n + 1.0) * (av + c * (x - av)) == (n + 1.0) * av + (n + 1.0) * (c * (x - av));
  }

  class RollingAverageFilter {
    const window: nat
    var count: nat
    var av: real
    var steady: bool     // which of the two update methods is installed
    ghost var history: seq<real>

    ghost predicate Valid()
      reads this
    {
      && window >= 1
      && steady == (|history| >= window)
      && (!steady ==> count == |history|)
      && (history == [] ==> av == 0.0)
      && (history != [] ==> av == Dot(RollingWeights(|history|, window), history))
      && (|history| <= window ==> Mul(|history| as real, av) == Total(history))
    }

    constructor (window: nat)
      requires window >= 1
      ensures Valid() && history == [] && this.window == window
    {
      this.window := window;
      count, av, steady, history := 0, 0.0, false, [];
    }

    /** The exact mean of the first `window` inputs, and afterwards a fixed convex combination of all. */
    method Update(x: real) returns (r: real)
      requires Valid()
      modifies this
      ensures Valid() && history == old(history) + [x] && r == av
      ensures |history| <= window ==> |history| as real * r == Total(history)
      ensures r == Dot(RollingWeights(|history|, window), history)
      ensures |history| > window ==> window as real * (r - old(av)) == x - old(av)
    {
      hide Dot, RollingWeights, Total, Mul, Inverse;
      if !steady {
        MeanStep(history, x, av);
        count := count + 1;
        av := av + Mul(Inverse(count), x - av);
        if !(count < window) {
          steady := true;
        }
        history := history + [x];
        MeanIsDot(history, window, av);
      } else {
        SteadyStep(history, x, av, window);
        InverseTimes(window, x - av);
        av := av + Mul(Inverse(window), x - av);
        history := history + [x];
      }
      MulIs(|history| as real, av);
      r := av;
    }
  }

  lemma InverseTimes(n: nat, x: real)
    requires n > 0
    ensures n as real * Mul(Inverse(n), x) == x
  {
    var c := 1.0 / n as real;
    assert n as real * c == 1.0;
    assert n as real * (c * x) == (n as real * c) * x;
  }

  lemma MulIs(a: real, b: real)
    ensures Mul(a, b) == a * b
  {
  }

  lemma MeanIsDot(xs: seq<real>, window: nat, av: real)
    requires 0 < |xs| <= window && Mul(|xs| as real, av) == Total(xs)
    ensures av == Dot(RollingWeights(|xs|, window), xs)
  {
    hide Dot, Total, Mul, Inverse, Constant;
    var c, n := Inverse(|xs|), |xs| as real;
    ConstantDot(xs, c);
    InverseBounds(|xs|);
    Cancel(n, c, av);
  }

  lemma Cancel(n: real, c: real, av: real)
    requires Mul(n, c) == 1.0
    ensures Mul(c, Mul(n, av)) == av
  {
    assert c * (n * av) == (n * c) * av;
  }

  lemma SteadyStep(xs: seq<real>, x: real, av: real, window: nat)
    requires |xs| >= window >= 1 && av == Dot(RollingWeights(|xs|, window), xs)
    ensures av + Mul(Inverse(window), x - av) == Dot(RollingWeights(|xs| + 1, window), xs + [x])
  {
    hide Mul, Inverse;
    var c := Inverse(window);
    var ws := RollingWeights(|xs|, window);
    var more := RollingWeights(|xs| + 1, window);
    assert more[..|xs|] == Scaled(ws, 1.0 - c);
    assert (xs + [x])[..|xs|] == xs;
    ScaledDot(ws, xs, 1.0 - c);
    Blend(c, av, x);
  }

  lemma Blend(c: real, av: real, x: real)
    ensures Mul(1.0 - c, av) + Mul(c, x) == av + Mul(c, x - av)
  {
  }

  /** So the filter never leaves the range of its inputs. */
  lemma RollingInRange(xs: seq<real>, window: nat, lo: real, hi: real)
    requires xs != [] && window >= 1 && forall i :: 0 <= i < |xs| ==> lo <= xs[i] <= hi
    ensures lo <= Dot(RollingWeights(|xs|, window), xs) <= hi
  {
    hide Dot, RollingWeights, Total, Mul;
    RollingWeightsConvex(|xs|, window);
    DotBounds(RollingWeights(|xs|, window), xs, lo, hi);
    TimesOne(lo);
    TimesOne(hi);
  }

  // ----- the Fibonacci-weighted average

  const FIB: seq<nat> := [0, 1, 2, 3, 5, 8, 13, 21, 34, 55]

  /** The numbers are 0, 1, 2, and from there on each the sum of the two before it. */
  lemma FibIsFibonacci()
    ensures |FIB| == 10 && FIB[0] == 0 && FIB[1] == 1 && FIB[2] == 2
    ensures forall i :: 3 <= i < 10 ==> FIB[i] == FIB[i - 1] + FIB[i - 2]
  {
  }

  function Clip(n: nat): nat {
    if n < |FIB| then n else |FIB|
  }

  /** `fib[s:p]` as reals; a slice stops at the end of the list. */
  function FibSlice(start: nat, n: nat): (r: seq<real>)
    ensures |r| <= n
    ensures NonNegative(r)
  {
    var a, b := Clip(start), Clip(start + n);
    seq(b - a, i requires 0 <= i < b - a => FIB[a + i] as real)
  }

  /** Normalised weights; without a positive total there are none. */
  function FibWeights(start: nat, n: nat): (r: seq<real>)
    requires Total(FibSlice(start, n)) > 0.0
    ensures |r| <= n
  {
    Scaled(FibSlice(start, n), 1.0 / Total(FibSlice(start, n)))
  }

  /** Pairs up to the shorter list, as `zip` does. */
  function ZipDot(ws: seq<real>, xs: seq<real>): real
    requires |ws| <= |xs|
  {
    Dot(ws, xs[..|ws|])
  }

  lemma FibSliceAt(start: nat, n: nat, i: nat)
    requires i < |FibSlice(start, n)|
    ensures |FibSlice(start, n)| == (if start + n <= 10 then n else 10 - start) && start + i < 10
    ensures FibSlice(start, n)[i] == FIB[start + i] as real
    ensures i > 0 ==> FibSlice(start, n)[i - 1] <= FibSlice(start, n)[i]
  {
    if i > 0 {
      FibGrows(start + i);
    }
  }

  lemma FibGrows(i: nat)
    requires 0 < i < 10
    ensures FIB[i - 1] <= FIB[i]
  {
    FibIsFibonacci();
  }

  /** The i-th weight is in proportion to the number at `start + i`; there is one for each of the `n` frames as
      far as the list of ten reaches, and later frames weigh no less. */
  lemma FibWeightAt(start: nat, n: nat, i: nat)
    requires Total(FibSlice(start, n)) > 0.0 && i < |FibWeights(start, n)|
    ensures |FibWeights(start, n)| == (if start + n <= 10 then n else 10 - start) && start + i < 10
    ensures FibWeights(start, n)[i] * Total(FibSlice(start, n)) == FIB[start + i] as real
    ensures i > 0 ==> FibWeights(start, n)[i - 1] <= FibWeights(start, n)[i]
  {
    hide Total, FibSlice, Mul;
    var ws, t := FibSlice(start, n), Total(FibSlice(start, n));
    FibSliceAt(start, n, i);
    ProportionTo(ws[i], t);
    if i > 0 {
      Proportions(ws[i - 1], ws[i], t);
    }
  }

  lemma ProportionTo(x: real, t: real)
    requires t > 0.0
    ensures Mul(1.0 / t, x) * t == x
  {
    assert (1.0 / t) * t == 1.0;
    assert ((1.0 / t) * x) * t == ((1.0 / t) * t) * x;
  }

  lemma Proportions(x: real, y: real, t: real)
    requires t > 0.0 && x <= y
    ensures Mul(1.0 / t, x) <= Mul(1.0 / t, y)
  {
    assert (1.0 / t) * (y - x) >= 0.0;
  }

  lemma FibWeightsConvex(start: nat, n: nat)
    requires Total(FibSlice(start, n)) > 0.0
    ensures NonNegative(FibWeights(start, n)) && Total(FibWeights(start, n)) == 1.0
  {
    hide Total, Mul, FibSlice;
    var ws := FibSlice(start, n);
    var t := Total(ws);
    ScaledTotal(ws, 1.0 / t);
    Reciprocal(t);
    forall i | 0 <= i < |ws|
      ensures Mul(1.0 / t, ws[i]) >= 0.0
    {
      MulNonNegative(1.0 / t, ws[i]);
    }
  }

  lemma Reciprocal(t: real)
    requires t > 0.0
    ensures 1.0 / t > 0.0 && Mul(1.0 / t, t) == 1.0
  {
  }

  class FibonacciAverageFilter {
    const n: nat
    const weights: seq<real>
    var frames: seq<real>
    ghost var lo: real
    ghost var hi: real

    /** Everything remembered lies between the least and the greatest value seen. */
    ghost predicate Valid()
      reads this
    {
      && n >= 1 && |frames| == n
      && NonNegative(weights) && Total(weights) == 1.0 && |weights| <= n
      && (forall i :: 0 <= i < n ==> lo <= frames[i] <= hi)
    }

    constructor (initial: real, n: nat, start: nat)
      requires n >= 1 && Total(FibSlice(start, n)) > 0.0
      ensures Valid() && lo == initial == hi && this.n == n && weights == FibWeights(start, n)
    {
      this.n := n;
      frames := seq(n, _ => initial);
      weights := FibWeights(start, n);
      lo, hi := initial, initial;
      new;
      FibWeightsConvex(start, n);
    }

    /** The result lies between the least and the greatest of the initial value and all inputs. */
    method Call(x: real) returns (r: real)
      requires Valid()
      modifies this
      ensures Valid()
      ensures lo == (if x < old(lo) then x else old(lo)) && hi == if x > old(hi) then x else old(hi)
      ensures lo <= r <= hi
      ensures |weights| <= n && r == Dot(weights, (old(frames)[1..] + [x])[..|weights|])
      ensures frames == old(frames)[1..] + [r]
    {
      hide Total, Dot, Mul;
      frames := frames[1..] + [x];
      if x < lo {
        lo := x;
      }
      if x > hi {
        hi := x;
      }
      DotBounds(weights, frames[..|weights|], lo, hi);
      TimesOne(lo);
      TimesOne(hi);
      frames := frames[|frames| - 1 := ZipDot(weights, frames)];
      r := frames[|frames| - 1];
    }
  }
}
