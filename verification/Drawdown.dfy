/** Equity drawdown: the one-pass metric and the bucketed series (src/analytics/feedbackEngine.ts). */
module Drawdown {
  import opened Basics
  import opened Sorting

  /** Peaks at or below this carry no drawdown (1e-6). */
  const DEFAULT_PEAK_EPSILON: real := 0.000001

  datatype Metrics = Metrics(drawdownPct: real, drawdownConfidence: bool, peakEquity: real, equityNow: real)

  // ---------------------------------------------------------------- the equity curve

  /** Equity after all of `pnls`. */
  function Equity(pnls: seq<real>): real {
    if pnls == [] then 0.0 else Equity(pnls[..|pnls| - 1]) + pnls[|pnls| - 1]
  }

  /** Running maximum of equity, from 0. */
  function Peak(pnls: seq<real>): real {
    if pnls == [] then 0.0 else Max(Peak(pnls[..|pnls| - 1]), Equity(pnls))
  }

  /** Fall from a peak in percent of the peak. */
  function Fall(peak: real, equity: real): real
    requires peak > 0.0
  {
    ((peak - equity) / peak) * 100.0
  }

  function MaxFall(pnls: seq<real>, epsilon: real): real
    requires epsilon > 0.0
  {
    if pnls == [] then 0.0
    else
      var before := MaxFall(pnls[..|pnls| - 1], epsilon);
      if Peak(pnls) > epsilon then Max(before, Fall(Peak(pnls), Equity(pnls))) else before
  }

  function EpsilonOf(peakEpsilon: real): (e: real)
    ensures e > 0.0
    ensures peakEpsilon > 0.0 ==> e == peakEpsilon
    ensures peakEpsilon <= 0.0 ==> e == 0.000001
  {
    if peakEpsilon > 0.0 then peakEpsilon else DEFAULT_PEAK_EPSILON
  }

  method ComputeRollingDrawdownMetricsFromPnl(pnlSeries: seq<real>, peakEpsilon: real) returns (r: Metrics)
    ensures r.equityNow == Equity(pnlSeries) && r.peakEquity == Peak(pnlSeries)
    ensures r.drawdownConfidence <==> Peak(pnlSeries) > EpsilonOf(peakEpsilon)
    ensures r.drawdownPct == MaxFall(pnlSeries, EpsilonOf(peakEpsilon))
  {
    hide Fall;
    var epsilon := EpsilonOf(peakEpsilon);
    var equity := 0.0;
    var peak := 0.0;
    var maxDrawdown := 0.0;
    for i := 0 to |pnlSeries|
      invariant equity == Equity(pnlSeries[..i]) && peak == Peak(pnlSeries[..i])
      invariant maxDrawdown == MaxFall(pnlSeries[..i], epsilon)
    {
      assert pnlSeries[..i + 1][..i] == pnlSeries[..i];
      equity := equity + pnlSeries[i];
      if equity > peak {
        peak := equity;
      }
      if peak > epsilon {
        var dd := Fall(peak, equity);
        if dd > maxDrawdown {
          maxDrawdown := dd;
        }
      }
    }
    assert pnlSeries[..|pnlSeries|] == pnlSeries;
    MaxFallNonNegative(pnlSeries, epsilon);
    PeakIsMaximum(pnlSeries);
    var peakEquity := Max(0.0, peak);
    var drawdownConfidence := peakEquity > epsilon;
    r := Metrics(if drawdownConfidence then Max(0.0, maxDrawdown) else 0.0, drawdownConfidence, peakEquity, equity);
    if !drawdownConfidence {
      NoPeakNoFall(pnlSeries, epsilon);
    }
  }

  lemma {:induction false} MaxFallNonNegative(pnls: seq<real>, epsilon: real)
    requires epsilon > 0.0
    ensures MaxFall(pnls, epsilon) >= 0.0
  {
    hide Fall;
    if pnls == [] {
    } else {
      MaxFallNonNegative(pnls[..|pnls| - 1], epsilon);
    }
  }

  lemma {:induction false} NoPeakNoFall(pnls: seq<real>, epsilon: real)
    requires epsilon > 0.0 && Peak(pnls) <= epsilon
    ensures MaxFall(pnls, epsilon) == 0.0
  {
    hide Fall;
    if pnls == [] {
    } else {
      NoPeakNoFall(pnls[..|pnls| - 1], epsilon);
    }
  }

  /** The peak is the largest equity reached, counting the 0 at the start, and it is reached. */
  lemma {:induction false} PeakIsMaximum(pnls: seq<real>)
    ensures Peak(pnls) >= 0.0
    ensures forall j :: 0 <= j <= |pnls| ==> Equity(pnls[..j]) <= Peak(pnls)
    ensures exists j :: 0 <= j <= |pnls| && Equity(pnls[..j]) == Peak(pnls)
  {
    if pnls == [] {
      assert Equity(pnls[..0]) == Peak(pnls);
    } else {
      var n := |pnls|;
      PeakIsMaximum(pnls[..n - 1]);
      forall j | 0 <= j <= n
        ensures Equity(pnls[..j]) <= Peak(pnls)
      {
        if j < n {
          assert pnls[..n - 1][..j] == pnls[..j];
        } else {
          assert pnls[..j] == pnls;
        }
      }
      if Peak(pnls) == Equity(pnls) {
        assert Equity(pnls[..n]) == Peak(pnls) by { assert pnls[..n] == pnls; }
      } else {
        var j :| 0 <= j <= n - 1 && Equity(pnls[..n - 1][..j]) == Peak(pnls[..n - 1]);
        assert pnls[..n - 1][..j] == pnls[..j];
        assert Equity(pnls[..j]) == Peak(pnls);
      }
    }
  }

  // ---------------------------------------------------------------- what the one pass computes

  /** Fall at step j from the running peak, where that peak counts. */
  ghost predicate CountsAt(pnls: seq<real>, epsilon: real, j: nat) {
    j <= |pnls| && Peak(pnls[..j]) > epsilon
  }

  ghost function FallAt(pnls: seq<real>, j: nat): real
    requires j <= |pnls| && Peak(pnls[..j]) > 0.0
  {
    Fall(Peak(pnls[..j]), Equity(pnls[..j]))
  }

  /** The one-pass result is the maximum over all steps of the fall from the running peak. */
  lemma {:induction false} OnePassIsMaximum(pnls: seq<real>, epsilon: real)
    requires epsilon > 0.0
    ensures forall j: nat :: CountsAt(pnls, epsilon, j) ==> FallAt(pnls, j) <= MaxFall(pnls, epsilon)
    ensures MaxFall(pnls, epsilon) == 0.0
         || exists j: nat :: CountsAt(pnls, epsilon, j) && FallAt(pnls, j) == MaxFall(pnls, epsilon)
  {
    hide Fall, Peak, Equity;
    if pnls == [] {
      EmptyCurve();
      assert pnls[..0] == [];
    } else {
      var n, init := |pnls|, pnls[..|pnls| - 1];
      OnePassIsMaximum(init, epsilon);
      assert pnls[..n] == pnls;
      assert forall j: nat :: j < n ==> pnls[..j] == init[..j];
      forall j: nat | CountsAt(pnls, epsilon, j)
        ensures FallAt(pnls, j) <= MaxFall(pnls, epsilon)
      {
        if j < n {
          assert CountsAt(init, epsilon, j) && FallAt(init, j) == FallAt(pnls, j);
        }
      }
      if MaxFall(pnls, epsilon) == MaxFall(init, epsilon) {
        if MaxFall(init, epsilon) != 0.0 {
          var j: nat :| CountsAt(init, epsilon, j) && FallAt(init, j) == MaxFall(init, epsilon);
          assert CountsAt(pnls, epsilon, j) && FallAt(pnls, j) == FallAt(init, j);
        }
      } else {
        assert CountsAt(pnls, epsilon, n) && FallAt(pnls, n) == MaxFall(pnls, epsilon);
      }
    }
  }

  lemma EmptyCurve()
    ensures Peak([]) == 0.0 && Equity([]) == 0.0
  {
  }

  /** Equity never goes below zero. */
  ghost predicate NeverNegative(pnls: seq<real>) {
    forall j :: 0 <= j <= |pnls| ==> Equity(pnls[..j]) >= 0.0
  }

  /** `pct` bounds the fall between any two steps that starts above epsilon, and one of them reaches it. */
  ghost predicate IsLargestFall(pnls: seq<real>, epsilon: real, pct: real)
    requires epsilon > 0.0
  {
    && (forall i, j :: 0 <= i <= j <= |pnls| && Equity(pnls[..i]) > epsilon ==>
          Fall(Equity(pnls[..i]), Equity(pnls[..j])) <= pct)
    && (pct == 0.0 || exists i, j :: 0 <= i <= j <= |pnls| && Equity(pnls[..i]) > epsilon
                                      && Fall(Equity(pnls[..i]), Equity(pnls[..j])) == pct)
  }

  /** From a higher peak the fall to the same non-negative equity is at least as large. */
  lemma HigherPeakFallsMore(a: real, b: real, e: real)
    requires 0.0 < a <= b && e >= 0.0
    ensures Fall(a, e) <= Fall(b, e)
  {
    ScaleLe(a, b, e);
    var p, q := a - e, b - e;
    assert q * a - p * b == b * e - a * e;
    DivideLe(p, a, q, b);
  }

  /** To a negative equity it is smaller. */
  lemma HigherPeakFallsLess(a: real, b: real, e: real)
    requires 0.0 < a < b && e < 0.0
    ensures Fall(a, e) > Fall(b, e)
  {
    PositiveProduct(b - a, -e);
    var p, q := b - e, a - e;
    assert q * b - p * a == (b - a) * -e;
    DivideLt(p, b, q, a);
  }

  lemma DivideLt(a: real, b: real, c: real, d: real)
    requires b > 0.0 && d > 0.0 && a * d < c * b
    ensures a / b < c / d
  {
    var x, y := a / b, c / d;
    assert a * d - c * b == (x - y) * (b * d);
    PositiveProduct(b, d);
    if x >= y {
      ProductNonNegative(x - y, b * d);
      assert false;
    }
  }

  /** A fall is at most 100 percent exactly when the equity is not negative. */
  lemma FallRange(peak: real, e: real)
    requires peak > 0.0 && e <= peak
    ensures Fall(peak, e) >= 0.0
    ensures Fall(peak, e) <= 100.0 <==> e >= 0.0
  {
    var q := (peak - e) / peak;
    DivideLe(0.0, 1.0, peak - e, peak);
    if e >= 0.0 {
      DivideLe(peak - e, peak, 1.0, 1.0);
    } else {
      DivideLt(1.0, 1.0, peak - e, peak);
    }
  }

  /** If equity never goes negative, the one-pass result is the largest fall over all pairs of steps. */
  lemma OnePassIsLargestFall(pnls: seq<real>, epsilon: real)
    requires epsilon > 0.0 && NeverNegative(pnls)
    ensures IsLargestFall(pnls, epsilon, MaxFall(pnls, epsilon))
    ensures 0.0 <= MaxFall(pnls, epsilon) <= 100.0
  {
    hide Fall, Equity, Peak, MaxFall;
    OnePassRange(pnls, epsilon);
    forall j | 0 <= j <= |pnls|
      ensures StepIsCovered(pnls, epsilon, j)
    {
      NonNegativeStepIsCovered(pnls, epsilon, j);
    }
    LargestFallCoversSteps(pnls, epsilon);
  }

  /** The one-pass result, unless 0, is the fall between some two steps. */
  lemma MaxFallIsReached(pnls: seq<real>, epsilon: real)
    requires epsilon > 0.0
    ensures MaxFall(pnls, epsilon) == 0.0
         || exists i, j :: 0 <= i <= j <= |pnls| && Equity(pnls[..i]) > epsilon
                           && Fall(Equity(pnls[..i]), Equity(pnls[..j])) == MaxFall(pnls, epsilon)
  {
    hide Fall, Equity, Peak;
    OnePassIsMaximum(pnls, epsilon);
    if MaxFall(pnls, epsilon) != 0.0 {
      var j: nat :| CountsAt(pnls, epsilon, j) && FallAt(pnls, j) == MaxFall(pnls, epsilon);
      PeakIsMaximum(pnls[..j]);
      var i :| 0 <= i <= j && Equity(pnls[..j][..i]) == Peak(pnls[..j]);
      assert pnls[..j][..i] == pnls[..i];
      assert Equity(pnls[..i]) > epsilon && Fall(Equity(pnls[..i]), Equity(pnls[..j])) == MaxFall(pnls, epsilon);
    }
  }

  /** The smallest equity above epsilon met so far: the start from which a fall below zero is largest. */
  function LowestStart(pnls: seq<real>, epsilon: real): (r: Option<real>)
    ensures r.Some? ==> r.value > epsilon
  {
    if pnls == [] then None
    else
      var before, e := LowestStart(pnls[..|pnls| - 1], epsilon), Equity(pnls);
      if e > epsilon && (before.None? || e < before.value) then Some(e) else before
  }

  lemma {:induction false} LowestStartIsMinimum(pnls: seq<real>, epsilon: real)
    requires epsilon > 0.0
    ensures var low := LowestStart(pnls, epsilon);
            && (forall i :: 0 <= i <= |pnls| && Equity(pnls[..i]) > epsilon ==>
                low.Some? && low.value <= Equity(pnls[..i]))
            && (low.Some? ==>
                  exists i :: 0 <= i <= |pnls| && Equity(pnls[..i]) > epsilon && Equity(pnls[..i]) == low.value)
  {
    hide Equity;
    if pnls == [] {
      EmptyCurve();
      assert pnls[..0] == [];
    } else {
      var n, init := |pnls|, pnls[..|pnls| - 1];
      LowestStartIsMinimum(init, epsilon);
      assert pnls[..n] == pnls;
      assert forall i :: 0 <= i < n ==> pnls[..i] == init[..i];
      var low := LowestStart(pnls, epsilon);
      if low.Some? && low == LowestStart(init, epsilon) {
        var i :| 0 <= i <= n - 1 && Equity(init[..i]) > epsilon && Equity(init[..i]) == low.value;
        assert Equity(pnls[..i]) == low.value;
      } else if low.Some? {
        assert Equity(pnls[..n]) == low.value;
      }
    }
  }

  /**
   For every curve: the one-pass result is the largest fall over all pairs of steps if and only if no
   step below zero has fallen further from the smallest start so far.
   */
  lemma LargestFallIff(pnls: seq<real>, epsilon: real)
    requires epsilon > 0.0
    ensures IsLargestFall(pnls, epsilon, MaxFall(pnls, epsilon))
       <==> forall j :: 0 <= j <= |pnls| && Equity(pnls[..j]) < 0.0 && LowestStart(pnls[..j], epsilon).Some? ==>
              Fall(LowestStart(pnls[..j], epsilon).value, Equity(pnls[..j])) <= MaxFall(pnls, epsilon)
  {
    hide Fall, Equity, Peak, LowestStart, StepIsCovered, IsLargestFall;
    LargestFallCoversSteps(pnls, epsilon);
    forall j | 0 <= j <= |pnls|
      ensures StepIsCovered(pnls, epsilon, j)
         <==> (Equity(pnls[..j]) < 0.0 && LowestStart(pnls[..j], epsilon).Some? ==>
                Fall(LowestStart(pnls[..j], epsilon).value, Equity(pnls[..j])) <= MaxFall(pnls, epsilon))
    {
      StepCoveredIff(pnls, epsilon, j);
    }
  }

  /** No start makes the fall to step j larger than the one-pass result. */
  ghost predicate StepIsCovered(pnls: seq<real>, epsilon: real, j: nat)
    requires epsilon > 0.0 && j <= |pnls|
  {
    forall i :: 0 <= i <= j && Equity(pnls[..i]) > epsilon ==>
        Fall(Equity(pnls[..i]), Equity(pnls[..j])) <= MaxFall(pnls, epsilon)
  }

  lemma LargestFallCoversSteps(pnls: seq<real>, epsilon: real)
    requires epsilon > 0.0
    ensures IsLargestFall(pnls, epsilon, MaxFall(pnls, epsilon))
       <==> forall j :: 0 <= j <= |pnls| ==> StepIsCovered(pnls, epsilon, j)
  {
    hide Fall, Equity, MaxFall;
    MaxFallIsReached(pnls, epsilon);
    if forall j :: 0 <= j <= |pnls| ==> StepIsCovered(pnls, epsilon, j) {
      forall i, j | 0 <= i <= j <= |pnls| && Equity(pnls[..i]) > epsilon
        ensures Fall(Equity(pnls[..i]), Equity(pnls[..j])) <= MaxFall(pnls, epsilon)
      {
        assert StepIsCovered(pnls, epsilon, j);
      }
    }
  }

  lemma StepCoveredIff(pnls: seq<real>, epsilon: real, j: nat)
    requires epsilon > 0.0 && j <= |pnls|
    ensures var low, e := LowestStart(pnls[..j], epsilon), Equity(pnls[..j]);
            StepIsCovered(pnls, epsilon, j)
            <==> (e < 0.0 && low.Some? ==> Fall(low.value, e) <= MaxFall(pnls, epsilon))
  {
    hide Fall, Equity, Peak, LowestStart, MaxFall;
    var low, e := LowestStart(pnls[..j], epsilon), Equity(pnls[..j]);
    LowestStartIsMinimum(pnls[..j], epsilon);
    assert forall i :: 0 <= i <= j ==> pnls[..j][..i] == pnls[..i];
    if e >= 0.0 {
      NonNegativeStepIsCovered(pnls, epsilon, j);
    } else if low.Some? {
      var first :| 0 <= first <= j && Equity(pnls[..j][..first]) > epsilon && Equity(pnls[..j][..first]) == low.value;
      assert Equity(pnls[..first]) == low.value;
      forall i | 0 <= i <= j && Equity(pnls[..i]) > epsilon
        ensures Fall(Equity(pnls[..i]), e) <= Fall(low.value, e)
      {
        assert low.value <= Equity(pnls[..j][..i]);
        if low.value < Equity(pnls[..i]) {
          HigherPeakFallsLess(low.value, Equity(pnls[..i]), e);
        }
      }
    }
  }

  lemma NonNegativeStepIsCovered(pnls: seq<real>, epsilon: real, j: nat)
    requires epsilon > 0.0 && j <= |pnls| && Equity(pnls[..j]) >= 0.0
    ensures StepIsCovered(pnls, epsilon, j)
  {
    hide Fall, Equity, Peak, MaxFall;
    OnePassIsMaximum(pnls, epsilon);
    forall i | 0 <= i <= j && Equity(pnls[..i]) > epsilon
      ensures Fall(Equity(pnls[..i]), Equity(pnls[..j])) <= MaxFall(pnls, epsilon)
    {
      PeakIsMaximum(pnls[..j]);
      assert pnls[..j][..i] == pnls[..i];
      HigherPeakFallsMore(Equity(pnls[..i]), Peak(pnls[..j]), Equity(pnls[..j]));
      assert CountsAt(pnls, epsilon, j) && FallAt(pnls, j) <= MaxFall(pnls, epsilon);
    }
  }

  /**
   When only the last step can go below zero: the result is the largest fall if and only if it does not,
   or every equity above epsilon before it was the peak itself.
   */
  lemma FirstLossLargestFallIff(init: seq<real>, x: real, epsilon: real)
    requires epsilon > 0.0 && NeverNegative(init)
    ensures IsLargestFall(init + [x], epsilon, MaxFall(init + [x], epsilon))
       <==> Equity(init + [x]) >= 0.0
            || forall i :: 0 <= i <= |init| && Equity(init[..i]) > epsilon ==> Equity(init[..i]) == Peak(init)
  {
    hide Fall, Equity, Peak, MaxFall;
    var pnls, n, e := init + [x], |init| + 1, Equity(init + [x]);
    assert pnls[..n] == pnls && pnls[..n - 1] == init;
    assert forall i :: 0 <= i < n ==> pnls[..i] == init[..i];
    LargestFallCoversSteps(pnls, epsilon);
    forall j | 0 <= j < n
      ensures StepIsCovered(pnls, epsilon, j)
    {
      NonNegativeStepIsCovered(pnls, epsilon, j);
    }
    assert IsLargestFall(pnls, epsilon, MaxFall(pnls, epsilon)) <==> StepIsCovered(pnls, epsilon, n);
    if e >= 0.0 {
      NonNegativeStepIsCovered(pnls, epsilon, n);
    } else {
      LossFromPeak(init, x, epsilon);
      PeakIsMaximum(init);
      forall i | 0 <= i <= |init| && Equity(init[..i]) > epsilon
        ensures Fall(Equity(init[..i]), e) <= MaxFall(pnls, epsilon) <==> Equity(init[..i]) == Peak(init)
      {
        if Equity(init[..i]) < Peak(init) {
          HigherPeakFallsLess(Equity(init[..i]), Peak(init), e);
        }
      }
    }
  }

  /** A first step below zero sets the result to its fall from the peak, where that counts. */
  lemma LossFromPeak(init: seq<real>, x: real, epsilon: real)
    requires epsilon > 0.0 && NeverNegative(init) && Equity(init + [x]) < 0.0
    ensures Peak(init) > epsilon ==> MaxFall(init + [x], epsilon) == Fall(Peak(init), Equity(init + [x]))
  {
    hide Fall, Equity;
    var pnls := init + [x];
    assert pnls[..|pnls| - 1] == init;
    PeakIsMaximum(init);
    if Peak(init) > epsilon {
      OnePassIsLargestFall(init, epsilon);
      FallRange(Peak(init), Equity(pnls));
    }
  }

  /** The result is a percentage up to 100 exactly when equity is not negative once the peak counts. */
  lemma OnePassRange(pnls: seq<real>, epsilon: real)
    requires epsilon > 0.0
    ensures MaxFall(pnls, epsilon) >= 0.0
    ensures MaxFall(pnls, epsilon) <= 100.0
       <==> forall j: nat :: CountsAt(pnls, epsilon, j) ==> Equity(pnls[..j]) >= 0.0
  {
    hide Fall, Equity, Peak;
    MaxFallNonNegative(pnls, epsilon);
    OnePassIsMaximum(pnls, epsilon);
    forall j: nat | CountsAt(pnls, epsilon, j)
      ensures FallAt(pnls, j) <= 100.0 <==> Equity(pnls[..j]) >= 0.0
    {
      PeakIsMaximum(pnls[..j]);
      assert pnls[..j][..j] == pnls[..j];
      FallRange(Peak(pnls[..j]), Equity(pnls[..j]));
    }
  }

  /** With equity 1, 2, -1 the one-pass result is 150 percent, but the fall from the first step is 200 percent. */
  lemma NegativeEquityHidesLargerFall()
    ensures MaxFall([1.0, 1.0, -3.0], 0.5) == 150.0
    ensures !IsLargestFall([1.0, 1.0, -3.0], 0.5, 150.0)
  {
    var p1, p2, p3 := [1.0], [1.0, 1.0], [1.0, 1.0, -3.0];
    assert p1[..0] == [] && p2[..1] == p1 && p3[..2] == p2 && p3[..1] == p1 && p3[..3] == p3;
    assert Equity(p1) == 1.0 && Equity(p2) == 2.0 && Equity(p3) == -1.0;
    assert Peak(p1) == 1.0 && Peak(p2) == 2.0 && Peak(p3) == 2.0;
    assert MaxFall(p1, 0.5) == 0.0;
    assert MaxFall(p2, 0.5) == 0.0;
    assert Fall(Equity(p3[..1]), Equity(p3[..3])) == 200.0;
  }

  // ---------------------------------------------------------------- the bucketed series

  datatype PnlEvent = PnlEvent(ts: int, pnl: real)

  /** `drawdown` is a fraction of the peak. */
  datatype Point = Point(ts: int, equity: real, drawdown: real)

  function TsKey(e: PnlEvent): real {
    e.ts as real
  }

  function BucketOf(ts: int, bucketMs: int): int
    requires bucketMs > 0
  {
    (ts / bucketMs) * bucketMs
  }

  function PnlsOf(events: seq<PnlEvent>): (r: seq<real>)
    ensures |r| == |events|
  {
    seq(|events|, i requires 0 <= i < |events| => events[i].pnl)
  }

  /** Running totals of the loop. `done` events are flushed into points; `ends` records how many at each point. */
  datatype Buckets = Buckets(equity: real, maxEquity: real, points: seq<Point>, bucket: int, bucketPnl: real,
                             done: nat, ends: seq<nat>)

  function DrawdownOf(maxEquity: real, equity: real): real {
    if maxEquity > 0.0 then (maxEquity - equity) / maxEquity else 0.0
  }

  function Flush(b: Buckets, n: nat): Buckets {
    var equity := b.equity + b.bucketPnl;
    var maxEquity := Max(b.maxEquity, equity);
    b.(equity := equity, maxEquity := maxEquity, bucketPnl := 0.0, done := n, ends := b.ends + [n],
       points := b.points + [Point(b.bucket, equity, DrawdownOf(maxEquity, equity))])
  }

  function Fold(sorted: seq<PnlEvent>, bucketMs: int): Buckets
    requires bucketMs > 0 && sorted != []
  {
    var n := |sorted| - 1;
    var bucket := BucketOf(sorted[n].ts, bucketMs);
    if n == 0 then Buckets(0.0, 0.0, [], bucket, sorted[0].pnl, 0, [])
    else
      var b := Fold(sorted[..n], bucketMs);
      if bucket > b.bucket then Flush(b, n).(bucket := bucket, bucketPnl := sorted[n].pnl)
      else b.(bucketPnl := b.bucketPnl + sorted[n].pnl)
  }

  function RollingDrawdown(events: seq<PnlEvent>, bucketMs: int): seq<Point>
    requires bucketMs > 0
  {
    var sorted := StableSort(events, TsKey);
    if sorted == [] then [] else Flush(Fold(sorted, bucketMs), |sorted|).points
  }

  lemma FoldStep(sorted: seq<PnlEvent>, i: nat, bucketMs: int)
    requires bucketMs > 0 && i < |sorted|
    ensures var bucket := BucketOf(sorted[i].ts, bucketMs);
            var next := Fold(sorted[..i + 1], bucketMs);
            if i == 0 then next == Buckets(0.0, 0.0, [], bucket, sorted[0].pnl, 0, [])
            else
              var b := Fold(sorted[..i], bucketMs);
              next == if bucket > b.bucket then Flush(b, i).(bucket := bucket, bucketPnl := sorted[i].pnl)
                      else b.(bucketPnl := b.bucketPnl + sorted[i].pnl)
  {
    assert sorted[..i + 1][..i] == sorted[..i];
  }

  method GetRollingDrawdown(events: seq<PnlEvent>, bucketMs: int) returns (points: seq<Point>)
    requires bucketMs > 0
    ensures points == RollingDrawdown(events, bucketMs)
  {
    hide BucketOf, DrawdownOf, Fold;
    var sorted := StableSort(events, TsKey);
    if sorted == [] {
      return [];
    }
    var equity := 0.0;
    var maxEquity := 0.0;
    points := [];
    var currentBucket := BucketOf(sorted[0].ts, bucketMs);
    var bucketPnl := 0.0;
    for i := 0 to |sorted|
      invariant i == 0 ==> equity == 0.0 && maxEquity == 0.0 && points == [] && bucketPnl == 0.0
                           && currentBucket == BucketOf(sorted[0].ts, bucketMs)
      invariant i > 0 ==> var b := Fold(sorted[..i], bucketMs);
                          equity == b.equity && maxEquity == b.maxEquity && points == b.points
                          && bucketPnl == b.bucketPnl && currentBucket == b.bucket
    {
      FoldStep(sorted, i, bucketMs);
      var pnl := sorted[i].pnl;
      var eventBucket := BucketOf(sorted[i].ts, bucketMs);
      if eventBucket > currentBucket {
        equity := equity + bucketPnl;
        maxEquity := Max(maxEquity, equity);
        points := points + [Point(currentBucket, equity, DrawdownOf(maxEquity, equity))];
        currentBucket := eventBucket;
        bucketPnl := pnl;
      } else {
        bucketPnl := bucketPnl + pnl;
      }
    }
    assert sorted[..|sorted|] == sorted;
    equity := equity + bucketPnl;
    maxEquity := Max(maxEquity, equity);
    points := points + [Point(currentBucket, equity, DrawdownOf(maxEquity, equity))];
  }

  /** Largest equity among the points up to and including `k`, from 0. */
  function PointPeak(points: seq<Point>, k: nat): real
    requires k <= |points|
  {
    if k == 0 then 0.0 else Max(PointPeak(points, k - 1), points[k - 1].equity)
  }

  lemma PnlsOfPrefix(events: seq<PnlEvent>, n: nat)
    requires n <= |events|
    ensures PnlsOf(events[..n]) == PnlsOf(events)[..n]
  {
  }

  lemma EquityOfAppended(events: seq<PnlEvent>)
    requires events != []
    ensures Equity(PnlsOf(events)) == Equity(PnlsOf(events[..|events| - 1])) + events[|events| - 1].pnl
  {
    PnlsOfPrefix(events, |events| - 1);
  }

  /** Flushed and unflushed profit together are the equity so far. */
  lemma {:induction false} FoldTotals(sorted: seq<PnlEvent>, bucketMs: int)
    requires bucketMs > 0 && sorted != []
    ensures var b := Fold(sorted, bucketMs);
            && b.done < |sorted| && |b.ends| == |b.points|
            && b.equity == Equity(PnlsOf(sorted)[..b.done])
            && b.equity + b.bucketPnl == Equity(PnlsOf(sorted))
  {
    hide BucketOf, DrawdownOf;
    var n := |sorted| - 1;
    EquityOfAppended(sorted);
    if n == 0 {
      assert PnlsOf(sorted)[..0] == [];
      assert Equity(PnlsOf(sorted[..0])) == 0.0;
    } else {
      FoldTotals(sorted[..n], bucketMs);
      PnlsOfPrefix(sorted, n);
      assert forall k :: 0 <= k <= n ==> PnlsOf(sorted[..n])[..k] == PnlsOf(sorted)[..k];
    }
  }

  /** Each point holds the equity of a prefix of the events, later points of longer ones. */
  ghost predicate EndsOk(points: seq<Point>, ends: seq<nat>, pnls: seq<real>, done: nat) {
    && |ends| == |points| && done <= |pnls|
    && (forall k :: 0 <= k < |ends| ==> ends[k] <= done && points[k].equity == Equity(pnls[..ends[k]]))
    && (forall j, k :: 0 <= j <= k < |ends| ==> ends[j] <= ends[k])
  }

  lemma {:induction false} FoldEnds(sorted: seq<PnlEvent>, bucketMs: int)
    requires bucketMs > 0 && sorted != []
    ensures var b := Fold(sorted, bucketMs);
            EndsOk(b.points, b.ends, PnlsOf(sorted), b.done)
  {
    hide BucketOf, DrawdownOf, Equity;
    var n := |sorted| - 1;
    if n == 0 {
    } else {
      FoldEnds(sorted[..n], bucketMs);
      FoldTotals(sorted[..n], bucketMs);
      PnlsOfPrefix(sorted, n);
      assert forall k :: 0 <= k <= n ==> PnlsOf(sorted[..n])[..k] == PnlsOf(sorted)[..k];
      assert PnlsOf(sorted[..n]) == PnlsOf(sorted)[..n];
    }
  }

  ghost predicate PeaksOk(points: seq<Point>, maxEquity: real) {
    && maxEquity == PointPeak(points, |points|)
    && forall k :: 0 <= k < |points| ==> points[k].drawdown == DrawdownOf(PointPeak(points, k + 1), points[k].equity)
  }

  lemma {:induction false} PointPeakOfPrefix(points: seq<Point>, p: Point, k: nat)
    requires k <= |points|
    ensures PointPeak(points + [p], k) == PointPeak(points, k)
  {
    if k == 0 {
    } else {
      PointPeakOfPrefix(points, p, k - 1);
    }
  }

  lemma FlushKeepsPeaks(b: Buckets, n: nat)
    requires PeaksOk(b.points, b.maxEquity)
    ensures PeaksOk(Flush(b, n).points, Flush(b, n).maxEquity)
  {
    hide DrawdownOf;
    var points := Flush(b, n).points;
    forall k | 0 <= k <= |b.points|
      ensures PointPeak(points, k) == PointPeak(b.points, k)
    {
      PointPeakOfPrefix(b.points, points[|b.points|], k);
    }
  }

  lemma {:induction false} FoldPeaks(sorted: seq<PnlEvent>, bucketMs: int)
    requires bucketMs > 0 && sorted != []
    ensures PeaksOk(Fold(sorted, bucketMs).points, Fold(sorted, bucketMs).maxEquity)
  {
    hide BucketOf, DrawdownOf, PeaksOk;
    var n := |sorted| - 1;
    if n == 0 {
      NoPointsPeak();
    } else {
      FoldPeaks(sorted[..n], bucketMs);
      FlushKeepsPeaks(Fold(sorted[..n], bucketMs), n);
    }
  }

  lemma NoPointsPeak()
    ensures PeaksOk([], 0.0)
  {
  }

  lemma BucketMonotone(a: int, b: int, bucketMs: int)
    requires bucketMs > 0 && a <= b
    ensures BucketOf(a, bucketMs) <= BucketOf(b, bucketMs)
    ensures BucketOf(a, bucketMs) <= a < BucketOf(a, bucketMs) + bucketMs
  {
    var q, r := a / bucketMs, b / bucketMs;
    assert a == q * bucketMs + a % bucketMs && b == r * bucketMs + b % bucketMs;
    if q > r {
      MultiplyLe(r + 1, q, bucketMs);
      assert false;
    }
    MultiplyLe(q, r, bucketMs);
  }

  lemma MultiplyLe(a: int, b: int, c: int)
    requires a <= b && c > 0
    ensures a * c <= b * c
  {
  }

  /** Point `k` covers the first `ends[k]` events: those of its bucket and of earlier ones, and no others. */
  ghost predicate CoversOk(points: seq<Point>, ends: seq<nat>, sorted: seq<PnlEvent>, bucketMs: int)
    requires bucketMs > 0
  {
    && |ends| == |points|
    && (forall k, i :: 0 <= k < |ends| && 0 <= i < |sorted| ==>
          (i < ends[k] <==> BucketOf(sorted[i].ts, bucketMs) <= points[k].ts))
    && (forall j, k :: 0 <= j < k < |points| ==> points[j].ts < points[k].ts)
  }

  ghost predicate InBucket(b: Buckets, sorted: seq<PnlEvent>, bucketMs: int)
    requires bucketMs > 0
  {
    && (forall k :: 0 <= k < |b.points| ==> b.points[k].ts < b.bucket)
    && (forall k :: 0 <= k < |b.ends| ==> b.ends[k] <= |sorted|)
    && (forall i :: 0 <= i < |sorted| ==> BucketOf(sorted[i].ts, bucketMs) <= b.bucket)
  }

  lemma MoreEventsCovered(points: seq<Point>, ends: seq<nat>, sorted: seq<PnlEvent>, bucketMs: int)
    requires bucketMs > 0 && sorted != []
    requires var n := |sorted| - 1;
             && CoversOk(points, ends, sorted[..n], bucketMs)
             && (forall k :: 0 <= k < |points| ==> points[k].ts < BucketOf(sorted[n].ts, bucketMs) && ends[k] <= n)
    ensures CoversOk(points, ends, sorted, bucketMs)
  {
    hide BucketOf;
    var n := |sorted| - 1;
    assert forall i :: 0 <= i < n ==> sorted[i] == sorted[..n][i];
  }

  lemma NewPointCovered(points: seq<Point>, ends: seq<nat>, p: Point, sorted: seq<PnlEvent>, n: nat, bucketMs: int)
    requires bucketMs > 0 && n < |sorted| && CoversOk(points, ends, sorted, bucketMs)
    requires forall k :: 0 <= k < |points| ==> points[k].ts < p.ts
    requires forall i :: 0 <= i < |sorted| ==> (i < n <==> BucketOf(sorted[i].ts, bucketMs) <= p.ts)
    ensures CoversOk(points + [p], ends + [n], sorted, bucketMs)
  {
    hide BucketOf;
  }

  lemma {:induction false} FoldCovers(sorted: seq<PnlEvent>, bucketMs: int)
    requires bucketMs > 0 && sorted != [] && Sorted(sorted, TsKey)
    ensures var b := Fold(sorted, bucketMs);
            CoversOk(b.points, b.ends, sorted, bucketMs) && InBucket(b, sorted, bucketMs)
  {
    hide BucketOf, DrawdownOf, CoversOk, Fold;
    var n := |sorted| - 1;
    assert sorted[..n + 1] == sorted;
    FoldStep(sorted, n, bucketMs);
    if n == 0 {
      NoPointsCover(sorted, bucketMs);
    } else {
      var init, b := sorted[..n], Fold(sorted[..n], bucketMs);
      FoldCovers(init, bucketMs);
      FoldTotals(init, bucketMs);
      FoldLastBucket(init, bucketMs);
      assert forall i :: 0 <= i < n ==> sorted[i] == init[i];
      assert TsKey(sorted[n - 1]) <= TsKey(sorted[n]);
      BucketMonotone(sorted[n - 1].ts, sorted[n].ts, bucketMs);
      MoreEventsCovered(b.points, b.ends, sorted, bucketMs);
      if BucketOf(sorted[n].ts, bucketMs) > b.bucket {
        NewPointCovered(b.points, b.ends, Flush(b, n).points[|b.points|], sorted, n, bucketMs);
      }
    }
  }

  lemma NoPointsCover(sorted: seq<PnlEvent>, bucketMs: int)
    requires bucketMs > 0
    ensures CoversOk([], [], sorted, bucketMs)
  {
  }

  /** The current bucket is the last event's own. */
  lemma {:induction false} FoldLastBucket(sorted: seq<PnlEvent>, bucketMs: int)
    requires bucketMs > 0 && sorted != [] && Sorted(sorted, TsKey)
    ensures Fold(sorted, bucketMs).bucket == BucketOf(sorted[|sorted| - 1].ts, bucketMs)
  {
    hide BucketOf, DrawdownOf;
    var n := |sorted| - 1;
    if n == 0 {
    } else {
      FoldLastBucket(sorted[..n], bucketMs);
      assert TsKey(sorted[n - 1]) <= TsKey(sorted[n]);
      BucketMonotone(sorted[n - 1].ts, sorted[n].ts, bucketMs);
    }
  }

  // ---------------------------------------------------------------- what the series means

  function TotalPnl(events: seq<PnlEvent>): real {
    if events == [] then 0.0 else events[0].pnl + TotalPnl(events[1..])
  }

  lemma {:induction false} TotalOfInserted(e: PnlEvent, events: seq<PnlEvent>)
    ensures TotalPnl(Insert(e, events, TsKey)) == e.pnl + TotalPnl(events)
  {
    var r := Insert(e, events, TsKey);
    if |events| == 0 || TsKey(e) <= TsKey(events[0]) {
      assert r[1..] == events;
    } else {
      assert r[1..] == Insert(e, events[1..], TsKey);
      TotalOfInserted(e, events[1..]);
    }
  }

  lemma {:induction false} TotalOfSorted(events: seq<PnlEvent>)
    ensures TotalPnl(StableSort(events, TsKey)) == TotalPnl(events)
  {
    if |events| == 0 {
    } else {
      TotalOfSorted(events[1..]);
      TotalOfInserted(events[0], StableSort(events[1..], TsKey));
    }
  }

  lemma {:induction false} TotalAppends(events: seq<PnlEvent>, e: PnlEvent)
    ensures TotalPnl(events + [e]) == TotalPnl(events) + e.pnl
  {
    if events == [] {
      assert [] + [e] == [e] && [e][1..] == [];
    } else {
      assert (events + [e])[1..] == events[1..] + [e];
      TotalAppends(events[1..], e);
    }
  }

  lemma {:induction false} EquityIsTotal(events: seq<PnlEvent>)
    ensures Equity(PnlsOf(events)) == TotalPnl(events)
  {
    if events == [] {
    } else {
      var n := |events| - 1;
      EquityIsTotal(events[..n]);
      EquityOfAppended(events);
      TotalAppends(events[..n], events[n]);
      assert events == events[..n] + [events[n]];
    }
  }

  predicate InBucketUpTo(bucketMs: int, ts: int, e: PnlEvent)
    requires bucketMs > 0
  {
    BucketOf(e.ts, bucketMs) <= ts
  }

  function UpTo(bucketMs: int, ts: int): PnlEvent -> bool
    requires bucketMs > 0
  {
    (e: PnlEvent) => InBucketUpTo(bucketMs, ts, e)
  }

  /** All profit booked in the bucket `ts` and before, whatever the order of the events. */
  function EquityUpTo(events: seq<PnlEvent>, bucketMs: int, ts: int): real
    requires bucketMs > 0
  {
    TotalPnl(Filter(events, UpTo(bucketMs, ts)))
  }

  /** The loop's totals after the last flush. */
  function Final(events: seq<PnlEvent>, bucketMs: int): Buckets
    requires bucketMs > 0 && events != []
  {
    var sorted := StableSort(events, TsKey);
    Flush(Fold(sorted, bucketMs), |sorted|)
  }

  lemma FinalOk(events: seq<PnlEvent>, bucketMs: int)
    requires bucketMs > 0 && events != []
    ensures var f, sorted := Final(events, bucketMs), StableSort(events, TsKey);
            && RollingDrawdown(events, bucketMs) == f.points && |f.points| > 0
            && EndsOk(f.points, f.ends, PnlsOf(sorted), |sorted|) && f.ends[|f.ends| - 1] == |sorted|
            && PeaksOk(f.points, f.maxEquity)
            && CoversOk(f.points, f.ends, sorted, bucketMs)
  {
    hide BucketOf, DrawdownOf, Equity, CoversOk, PeaksOk, Fold;
    var sorted := StableSort(events, TsKey);
    var n, b := |sorted|, Fold(sorted, bucketMs);
    StableSortSorted(events, TsKey);
    FoldTotals(sorted, bucketMs);
    FoldEnds(sorted, bucketMs);
    FoldPeaks(sorted, bucketMs);
    FlushKeepsPeaks(b, n);
    FoldCovers(sorted, bucketMs);
    assert PnlsOf(sorted)[..n] == PnlsOf(sorted);
    NewPointCovers(b, sorted, bucketMs);
  }

  lemma NewPointCovers(b: Buckets, sorted: seq<PnlEvent>, bucketMs: int)
    requires bucketMs > 0 && CoversOk(b.points, b.ends, sorted, bucketMs) && InBucket(b, sorted, bucketMs)
    ensures CoversOk(Flush(b, |sorted|).points, Flush(b, |sorted|).ends, sorted, bucketMs)
  {
    hide BucketOf, DrawdownOf;
  }

  /**
   Every point of the series holds all profit of its bucket and of earlier ones, points are in
   ascending order of time, and the last one holds the sum of all profit.
   */
  lemma PointsAreCumulative(events: seq<PnlEvent>, bucketMs: int)
    requires bucketMs > 0 && events != []
    ensures var points := RollingDrawdown(events, bucketMs);
            && |points| > 0
            && points[|points| - 1].equity == TotalPnl(events)
            && (forall k :: 0 <= k < |points| ==> points[k].equity == EquityUpTo(events, bucketMs, points[k].ts))
            && (forall j, k :: 0 <= j < k < |points| ==> points[j].ts < points[k].ts)
  {
    hide BucketOf, Equity, Final, RollingDrawdown, PeaksOk, TotalPnl, Filter;
    var f, sorted := Final(events, bucketMs), StableSort(events, TsKey);
    FinalOk(events, bucketMs);
    forall k | 0 <= k < |f.points|
      ensures f.points[k].equity == EquityUpTo(events, bucketMs, f.points[k].ts)
    {
      PointIsCumulative(events, bucketMs, f.points[k], f.ends[k]);
    }
    assert PnlsOf(sorted)[..|sorted|] == PnlsOf(sorted);
    EquityIsTotal(sorted);
    TotalOfSorted(events);
  }

  lemma PointIsCumulative(events: seq<PnlEvent>, bucketMs: int, p: Point, end: nat)
    requires bucketMs > 0 && end <= |events|
    requires var sorted := StableSort(events, TsKey);
             && p.equity == Equity(PnlsOf(sorted)[..end])
             && forall i :: 0 <= i < |sorted| ==> (i < end <==> BucketOf(sorted[i].ts, bucketMs) <= p.ts)
    ensures p.equity == EquityUpTo(events, bucketMs, p.ts)
  {
    hide BucketOf, Filter;
    var sorted, keep := StableSort(events, TsKey), UpTo(bucketMs, p.ts);
    PnlsOfPrefix(sorted, end);
    EquityIsTotal(sorted[..end]);
    FilterIsPrefix(sorted, keep, end);
    FilterCommutesWithSort(events, TsKey, keep);
    TotalOfSorted(Filter(events, keep));
  }

  /** The peak over points is one of the equities met by then, so never above the true peak. */
  lemma {:induction false} PointPeakIsHidden(points: seq<Point>, ends: seq<nat>, pnls: seq<real>, k: nat, end: nat)
    requires EndsOk(points, ends, pnls, |pnls|) && k <= |points| && end <= |pnls|
    requires forall j :: 0 <= j < k ==> ends[j] <= end
    ensures PointPeak(points, k) <= Peak(pnls[..end])
  {
    hide Equity, Peak;
    PeakIsMaximum(pnls[..end]);
    if k == 0 {
    } else {
      PointPeakIsHidden(points, ends, pnls, k - 1, end);
      assert pnls[..end][..ends[k - 1]] == pnls[..ends[k - 1]];
    }
  }

  /** Every positive equity on the curve counts as a peak. */
  ghost predicate PositiveCounts(pnls: seq<real>, epsilon: real) {
    forall j :: 0 <= j <= |pnls| && Equity(pnls[..j]) > 0.0 ==> Equity(pnls[..j]) > epsilon
  }

  /** The events of the bucket `ts` and of earlier ones, in order of time. */
  function CurveUpTo(events: seq<PnlEvent>, bucketMs: int, ts: int): seq<real>
    requires bucketMs > 0
  {
    PnlsOf(StableSort(Filter(events, UpTo(bucketMs, ts)), TsKey))
  }

  /**
   For every point of the series whose peak counts: it reports no more than the true fall from the peak
   of all equities met by the end of its bucket if and only if its equity is not negative or an earlier
   point, or itself, has that peak.
   */
  lemma PointAgainstTruePeak(events: seq<PnlEvent>, bucketMs: int, k: nat)
    requires bucketMs > 0 && events != [] && k < |RollingDrawdown(events, bucketMs)|
    requires PointPeak(RollingDrawdown(events, bucketMs), k + 1) > 0.0
    ensures var points := RollingDrawdown(events, bucketMs);
            var curve := CurveUpTo(events, bucketMs, points[k].ts);
            && Equity(curve) == points[k].equity
            && Peak(curve) >= PointPeak(points, k + 1)
            && (points[k].drawdown * 100.0 <= Fall(Peak(curve), Equity(curve))
                <==> points[k].equity >= 0.0 || PointPeak(points, k + 1) == Peak(curve))
  {
    hide *;
    var points := RollingDrawdown(events, bucketMs);
    PointFacts(events, bucketMs, k);
    ReportedAgainstTrue(PointPeak(points, k + 1), Peak(CurveUpTo(events, bucketMs, points[k].ts)), points[k].equity);
  }

  lemma PointFacts(events: seq<PnlEvent>, bucketMs: int, k: nat)
    requires bucketMs > 0 && events != [] && k < |RollingDrawdown(events, bucketMs)|
    ensures var points := RollingDrawdown(events, bucketMs);
            var curve := CurveUpTo(events, bucketMs, points[k].ts);
            && Equity(curve) == points[k].equity
            && Peak(curve) >= PointPeak(points, k + 1)
            && points[k].drawdown == DrawdownOf(PointPeak(points, k + 1), points[k].equity)
  {
    hide *;
    var f := Final(events, bucketMs);
    FinalOk(events, bucketMs);
    PointCurve(events, bucketMs, k);
    PointOnCurve(f.points, f.ends, f.maxEquity, PnlsOf(StableSort(events, TsKey)), k);
  }

  lemma PointOnCurve(points: seq<Point>, ends: seq<nat>, maxEquity: real, pnls: seq<real>, k: nat)
    requires EndsOk(points, ends, pnls, |pnls|) && PeaksOk(points, maxEquity) && k < |points|
    ensures |ends| == |points| && ends[k] <= |pnls| && points[k].equity == Equity(pnls[..ends[k]])
    ensures PointPeak(points, k + 1) <= Peak(pnls[..ends[k]])
    ensures points[k].drawdown == DrawdownOf(PointPeak(points, k + 1), points[k].equity)
  {
    hide Equity, Peak, PointPeak, DrawdownOf;
    PointPeakIsHidden(points, ends, pnls, k + 1, ends[k]);
  }

  lemma PointCurve(events: seq<PnlEvent>, bucketMs: int, k: nat)
    requires bucketMs > 0 && events != [] && k < |Final(events, bucketMs).points|
    ensures var f, pnls := Final(events, bucketMs), PnlsOf(StableSort(events, TsKey));
            |f.ends| == |f.points| && f.ends[k] <= |pnls|
            && CurveUpTo(events, bucketMs, f.points[k].ts) == pnls[..f.ends[k]]
  {
    hide BucketOf, Filter, Final, Equity, PeaksOk;
    FinalOk(events, bucketMs);
    var f, sorted := Final(events, bucketMs), StableSort(events, TsKey);
    var end, keep := f.ends[k], UpTo(bucketMs, f.points[k].ts);
    PnlsOfPrefix(sorted, end);
    FilterIsPrefix(sorted, keep, end);
    FilterCommutesWithSort(events, TsKey, keep);
  }

  lemma ReportedAgainstTrue(peak: real, truePeak: real, equity: real)
    requires 0.0 < peak <= truePeak
    ensures DrawdownOf(peak, equity) * 100.0 <= Fall(truePeak, equity) <==> equity >= 0.0 || peak == truePeak
  {
    hide Fall;
    assert DrawdownOf(peak, equity) * 100.0 == Fall(peak, equity) by { DrawdownIsFall(peak, equity); }
    if equity >= 0.0 {
      HigherPeakFallsMore(peak, truePeak, equity);
    } else if peak < truePeak {
      HigherPeakFallsLess(peak, truePeak, equity);
    }
  }

  lemma DrawdownIsFall(peak: real, equity: real)
    requires peak > 0.0
    ensures DrawdownOf(peak, equity) * 100.0 == Fall(peak, equity)
  {
  }

  /**
   The bucketed series never reports a larger drawdown than the one pass, when every positive equity
   counts as a peak and equity is not negative at the ends of buckets.
   */
  lemma BucketsNeverReportMore(events: seq<PnlEvent>, bucketMs: int, epsilon: real)
    requires bucketMs > 0 && events != [] && epsilon > 0.0
    requires PositiveCounts(PnlsOf(StableSort(events, TsKey)), epsilon)
    requires forall p :: p in RollingDrawdown(events, bucketMs) ==> p.equity >= 0.0
    ensures forall p :: p in RollingDrawdown(events, bucketMs) ==>
              p.drawdown * 100.0 <= MaxFall(PnlsOf(StableSort(events, TsKey)), epsilon)
  {
    hide BucketOf, DrawdownOf, Fall, Equity, Peak, Final, RollingDrawdown, CoversOk;
    var f, pnls := Final(events, bucketMs), PnlsOf(StableSort(events, TsKey));
    FinalOk(events, bucketMs);
    OnePassIsMaximum(pnls, epsilon);
    MaxFallNonNegative(pnls, epsilon);
    forall k | 0 <= k < |f.points|
      ensures f.points[k].drawdown * 100.0 <= MaxFall(pnls, epsilon)
    {
      var end, peak := f.ends[k], PointPeak(f.points, k + 1);
      assert f.points[k] in f.points;
      PointPeakIsHidden(f.points, f.ends, pnls, k + 1, end);
      if peak > 0.0 {
        PeakCounts(pnls, epsilon, end);
        ReportedAgainstTrue(peak, Peak(pnls[..end]), f.points[k].equity);
        assert CountsAt(pnls, epsilon, end);
      } else {
        NoDrawdownWithoutPeak(peak, f.points[k].equity);
      }
    }
  }

  // ---------------------------------------------------------------- one point per bucket

  function Times(points: seq<Point>): set<int> {
    set p | p in points :: p.ts
  }

  function BucketsOf(events: seq<PnlEvent>, bucketMs: int): set<int>
    requires bucketMs > 0
  {
    set e | e in events :: BucketOf(e.ts, bucketMs)
  }

  lemma {:induction false} FoldTimes(sorted: seq<PnlEvent>, bucketMs: int)
    requires bucketMs > 0 && sorted != [] && Sorted(sorted, TsKey)
    ensures var b := Fold(sorted, bucketMs);
            Times(b.points) + {b.bucket} == BucketsOf(sorted, bucketMs)
  {
    hide BucketOf, DrawdownOf, Fold, Times, BucketsOf, Sorted;
    var n := |sorted| - 1;
    assert sorted[..n + 1] == sorted;
    FoldStep(sorted, n, bucketMs);
    BucketsOfAppended(sorted[..n], sorted[n], bucketMs);
    NoBuckets(bucketMs);
    assert sorted == sorted[..n] + [sorted[n]];
    if n == 0 {
      assert sorted[..n] == [];
    } else {
      var init, b := sorted[..n], Fold(sorted[..n], bucketMs);
      LastTwoInOrder(sorted);
      FoldTimes(init, bucketMs);
      FoldLastBucket(init, bucketMs);
      BucketMonotone(sorted[n - 1].ts, sorted[n].ts, bucketMs);
      if BucketOf(sorted[n].ts, bucketMs) > b.bucket {
        TimesOfAppended(b.points, Flush(b, n).points[|b.points|]);
      }
    }
  }

  lemma NoBuckets(bucketMs: int)
    requires bucketMs > 0
    ensures Times([]) == {} && BucketsOf([], bucketMs) == {}
  {
  }

  lemma LastTwoInOrder(sorted: seq<PnlEvent>)
    requires Sorted(sorted, TsKey) && |sorted| > 1
    ensures Sorted(sorted[..|sorted| - 1], TsKey) && sorted[|sorted| - 2].ts <= sorted[|sorted| - 1].ts
  {
    assert TsKey(sorted[|sorted| - 2]) <= TsKey(sorted[|sorted| - 1]);
  }

  lemma TimesOfAppended(points: seq<Point>, p: Point)
    ensures Times(points + [p]) == Times(points) + {p.ts}
  {
    assert forall q :: q in points + [p] <==> q in points || q == p;
  }

  lemma BucketsOfAppended(events: seq<PnlEvent>, e: PnlEvent, bucketMs: int)
    requires bucketMs > 0
    ensures BucketsOf(events + [e], bucketMs) == BucketsOf(events, bucketMs) + {BucketOf(e.ts, bucketMs)}
  {
    hide BucketOf;
    assert forall q :: q in events + [e] <==> q in events || q == e;
  }

  /** The series has a point for exactly the buckets in which something was booked. */
  lemma PointsAreBuckets(events: seq<PnlEvent>, bucketMs: int)
    requires bucketMs > 0
    ensures Times(RollingDrawdown(events, bucketMs)) == BucketsOf(events, bucketMs)
  {
    hide BucketOf, DrawdownOf, Fold;
    var sorted := StableSort(events, TsKey);
    SortKeepsMembers(events, TsKey);
    if sorted == [] {
      assert events == [];
    } else {
      StableSortSorted(events, TsKey);
      FoldTimes(sorted, bucketMs);
      var b := Fold(sorted, bucketMs);
      TimesOfAppended(b.points, Flush(b, |sorted|).points[|b.points|]);
      assert BucketsOf(sorted, bucketMs) == BucketsOf(events, bucketMs);
    }
  }

  /** A whole number of buckets, and the event falls into the one that begins there. */
  ghost predicate FallsInto(e: PnlEvent, ts: int, bucketMs: int) {
    ts <= e.ts < ts + bucketMs && exists q: int :: ts == q * bucketMs
  }

  lemma BucketHoldsEvent(e: PnlEvent, bucketMs: int)
    requires bucketMs > 0
    ensures FallsInto(e, BucketOf(e.ts, bucketMs), bucketMs)
  {
    hide BucketOf;
    BucketBounds(e.ts, bucketMs);
    BucketIsProduct(e.ts, bucketMs);
  }

  predicate IsEarlier(ts: int, e: PnlEvent) {
    e.ts < ts
  }

  function EarlierThan(ts: int): PnlEvent -> bool {
    (e: PnlEvent) => IsEarlier(ts, e)
  }

  /**
   The series on the clock: a point stands at the start of a bucket into which some event falls, every event falls into
   the bucket of a point, and a point's equity is the profit of all events before the end of its bucket.
   */
  lemma SeriesMeaning(events: seq<PnlEvent>, bucketMs: int)
    requires bucketMs > 0
    ensures forall p :: p in RollingDrawdown(events, bucketMs) ==>
              && (exists e :: e in events && FallsInto(e, p.ts, bucketMs))
              && p.equity == TotalPnl(Filter(events, EarlierThan(p.ts + bucketMs)))
    ensures forall e :: e in events ==>
              exists p :: p in RollingDrawdown(events, bucketMs) && FallsInto(e, p.ts, bucketMs)
  {
    hide *;
    forall p | p in RollingDrawdown(events, bucketMs)
      ensures exists e :: e in events && FallsInto(e, p.ts, bucketMs)
      ensures p.equity == TotalPnl(Filter(events, EarlierThan(p.ts + bucketMs)))
    {
      PointMeaning(events, bucketMs, p);
    }
    forall e | e in events
      ensures exists p :: p in RollingDrawdown(events, bucketMs) && FallsInto(e, p.ts, bucketMs)
    {
      PointsAreBuckets(events, bucketMs);
      var p := EventHasPoint(events, bucketMs, RollingDrawdown(events, bucketMs), e);
      BucketHoldsEvent(e, bucketMs);
    }
  }

  lemma PointMeaning(events: seq<PnlEvent>, bucketMs: int, p: Point)
    requires bucketMs > 0 && p in RollingDrawdown(events, bucketMs)
    ensures exists e :: e in events && FallsInto(e, p.ts, bucketMs)
    ensures p.equity == TotalPnl(Filter(events, EarlierThan(p.ts + bucketMs)))
  {
    hide BucketOf, FallsInto, RollingDrawdown, TotalPnl, Filter, Times, BucketsOf, StableSort;
    PointsAreBuckets(events, bucketMs);
    var e := PointHasEvent(events, bucketMs, RollingDrawdown(events, bucketMs), p);
    BucketHoldsEvent(e, bucketMs);
    PointsAreCumulative(events, bucketMs);
    UpToIsEarlier(events, bucketMs, e);
  }

  lemma PointHasEvent(events: seq<PnlEvent>, bucketMs: int, points: seq<Point>, p: Point) returns (e: PnlEvent)
    requires bucketMs > 0 && Times(points) == BucketsOf(events, bucketMs) && p in points
    ensures e in events && BucketOf(e.ts, bucketMs) == p.ts
  {
    hide BucketOf;
    assert p.ts in Times(points);
    e :| e in events && BucketOf(e.ts, bucketMs) == p.ts;
  }

  lemma EventHasPoint(events: seq<PnlEvent>, bucketMs: int, points: seq<Point>, e: PnlEvent) returns (p: Point)
    requires bucketMs > 0 && Times(points) == BucketsOf(events, bucketMs) && e in events
    ensures p in points && BucketOf(e.ts, bucketMs) == p.ts
  {
    hide BucketOf;
    assert BucketOf(e.ts, bucketMs) in BucketsOf(events, bucketMs);
    p :| p in points && BucketOf(e.ts, bucketMs) == p.ts;
  }

  /** Up to a bucket is before its end. */
  lemma UpToIsEarlier(events: seq<PnlEvent>, bucketMs: int, first: PnlEvent)
    requires bucketMs > 0
    ensures var ts := BucketOf(first.ts, bucketMs);
            Filter(events, UpTo(bucketMs, ts)) == Filter(events, EarlierThan(ts + bucketMs))
  {
    hide BucketOf;
    var ts := BucketOf(first.ts, bucketMs);
    forall e: PnlEvent
      ensures UpTo(bucketMs, ts)(e) == EarlierThan(ts + bucketMs)(e)
    {
      SameBucketOrder(e.ts, first.ts, bucketMs);
    }
    FilterSame(events, UpTo(bucketMs, ts), EarlierThan(ts + bucketMs));
  }

  lemma SameBucketOrder(a: int, b: int, bucketMs: int)
    requires bucketMs > 0
    ensures BucketOf(a, bucketMs) <= BucketOf(b, bucketMs) <==> a < BucketOf(b, bucketMs) + bucketMs
  {
    hide BucketOf;
    BucketBounds(a, bucketMs);
    if BucketOf(a, bucketMs) > BucketOf(b, bucketMs) {
      BucketsApart(a / bucketMs, b / bucketMs, bucketMs, BucketOf(a, bucketMs), BucketOf(b, bucketMs)) by {
        BucketIsProduct(a, bucketMs);
        BucketIsProduct(b, bucketMs);
      }
    }
  }

  lemma BucketIsProduct(ts: int, bucketMs: int)
    requires bucketMs > 0
    ensures BucketOf(ts, bucketMs) == (ts / bucketMs) * bucketMs
  {
  }

  lemma BucketBounds(ts: int, bucketMs: int)
    requires bucketMs > 0
    ensures BucketOf(ts, bucketMs) <= ts < BucketOf(ts, bucketMs) + bucketMs
  {
    assert ts == (ts / bucketMs) * bucketMs + ts % bucketMs;
  }

  lemma BucketsApart(q: int, r: int, bucketMs: int, x: int, y: int)
    requires bucketMs > 0 && x == q * bucketMs && y == r * bucketMs && x > y
    ensures x >= y + bucketMs
  {
    ScaleInt(q, r, bucketMs, x, y);
    if q > r {
      ScaleInt(r + 1, q, bucketMs, y + bucketMs, x);
    }
  }

  lemma ScaleInt(a: int, b: int, k: int, x: int, y: int)
    requires k > 0 && x == a * k && y == b * k
    ensures a <= b ==> x <= y
  {
    if a <= b {
      assert (b - a) * k >= 0;
    }
  }

  /** The drawdown of a point against the highest point so far, in its numbers. */
  lemma PointDrawdownMeaning(events: seq<PnlEvent>, bucketMs: int, k: nat, m: nat)
    requires bucketMs > 0 && m <= k < |RollingDrawdown(events, bucketMs)|
    requires var points := RollingDrawdown(events, bucketMs);
             forall j :: 0 <= j <= k ==> points[j].equity <= points[m].equity
    ensures var p, highest := RollingDrawdown(events, bucketMs)[k], RollingDrawdown(events, bucketMs)[m].equity;
            && (highest > 0.0 ==> p.drawdown * highest == highest - p.equity)
            && (highest <= 0.0 ==> p.drawdown == 0.0)
  {
    hide *;
    var points := RollingDrawdown(events, bucketMs);
    PointIsDrawdown(events, bucketMs, k);
    PeakIsHighestPoint(points, k + 1, m);
    DrawdownTimes(points[m].equity, points[k].equity);
  }

  lemma PointIsDrawdown(events: seq<PnlEvent>, bucketMs: int, k: nat)
    requires bucketMs > 0 && k < |RollingDrawdown(events, bucketMs)|
    ensures var points := RollingDrawdown(events, bucketMs);
            points[k].drawdown == DrawdownOf(PointPeak(points, k + 1), points[k].equity)
  {
    hide Final, RollingDrawdown, EndsOk, CoversOk, DrawdownOf, PointPeak, StableSort, PnlsOf;
    if events == [] {
      NoSeries(bucketMs);
    } else {
      FinalOk(events, bucketMs);
    }
  }

  lemma DrawdownTimes(highest: real, equity: real)
    ensures var d := DrawdownOf(Max(0.0, highest), equity);
            if highest > 0.0 then d * highest == highest - equity else d == 0.0
  {
    if highest > 0.0 {
      QuotientTimes(highest - equity, highest);
    }
  }

  lemma NoSeries(bucketMs: int)
    requires bucketMs > 0
    ensures RollingDrawdown([], bucketMs) == []
  {
  }

  lemma {:induction false} PeakIsHighestPoint(points: seq<Point>, k: nat, m: nat)
    requires k <= |points| && m < |points|
    requires forall j :: 0 <= j < k ==> points[j].equity <= points[m].equity
    ensures PointPeak(points, k) <= Max(0.0, points[m].equity)
    ensures m < k ==> PointPeak(points, k) == Max(0.0, points[m].equity)
  {
    if k == 0 {
    } else {
      PeakIsHighestPoint(points, k - 1, m);
      PointPeakNonNegative(points, k - 1);
    }
  }

  lemma {:induction false} PointPeakNonNegative(points: seq<Point>, k: nat)
    requires k <= |points|
    ensures PointPeak(points, k) >= 0.0
  {
    if k == 0 {
    } else {
      PointPeakNonNegative(points, k - 1);
    }
  }

  // ---------------------------------------------------------------- the series against the one pass

  /** However the curve is cut into buckets, no point reports more than the one pass. */
  ghost predicate NeverReportsMore(pnls: seq<real>, epsilon: real)
    requires epsilon > 0.0
  {
    forall events: seq<PnlEvent>, bucketMs: int, p: Point ::
      bucketMs > 0 && events != [] && PnlsOf(StableSort(events, TsKey)) == pnls
        && p in RollingDrawdown(events, bucketMs) ==>
        p.drawdown * 100.0 <= MaxFall(pnls, epsilon)
  }

  /** The one pass covers every fall of the curve that starts above 0. */
  ghost predicate CoversEveryFall(pnls: seq<real>, epsilon: real)
    requires epsilon > 0.0
  {
    forall i, j :: 0 <= i <= j <= |pnls| && Equity(pnls[..i]) > 0.0 ==>
      Fall(Equity(pnls[..i]), Equity(pnls[..j])) <= MaxFall(pnls, epsilon)
  }

  /**
   The series never reports more than the one pass, on any cutting of a curve into buckets, if and only if
   the one pass covers every fall of that curve that starts above 0. For every curve.
   */
  lemma NeverReportsMoreIff(pnls: seq<real>, epsilon: real)
    requires epsilon > 0.0
    ensures NeverReportsMore(pnls, epsilon) <==> CoversEveryFall(pnls, epsilon)
  {
    hide Fall, Equity, MaxFall, RollingDrawdown, StableSort;
    if CoversEveryFall(pnls, epsilon) {
      forall events: seq<PnlEvent>, bucketMs: int, p: Point
        | bucketMs > 0 && events != [] && PnlsOf(StableSort(events, TsKey)) == pnls
          && p in RollingDrawdown(events, bucketMs)
        ensures p.drawdown * 100.0 <= MaxFall(pnls, epsilon)
      {
        PointIsAFall(events, bucketMs, p, epsilon);
      }
    }
    if NeverReportsMore(pnls, epsilon) {
      forall i, j | 0 <= i <= j <= |pnls| && Equity(pnls[..i]) > 0.0
        ensures Fall(Equity(pnls[..i]), Equity(pnls[..j])) <= MaxFall(pnls, epsilon)
      {
        FallIsReported(pnls, epsilon, i, j);
      }
    }
  }

  /** On a curve without equities in (0, epsilon], if and only if the one pass finds its largest fall. */
  lemma NeverReportsMoreThanLargestIff(pnls: seq<real>, epsilon: real)
    requires epsilon > 0.0 && PositiveCounts(pnls, epsilon)
    ensures NeverReportsMore(pnls, epsilon) <==> IsLargestFall(pnls, epsilon, MaxFall(pnls, epsilon))
  {
    hide Fall, Equity, MaxFall, NeverReportsMore;
    NeverReportsMoreIff(pnls, epsilon);
    MaxFallIsReached(pnls, epsilon);
    MaxFallNonNegative(pnls, epsilon);
  }

  /** A positive peak over points is the equity of one of them. */
  lemma {:induction false} PointPeakIsAPoint(points: seq<Point>, k: nat) returns (m: nat)
    requires k <= |points| && PointPeak(points, k) > 0.0
    ensures m < k && points[m].equity == PointPeak(points, k)
  {
    if points[k - 1].equity == PointPeak(points, k) {
      m := k - 1;
    } else {
      m := PointPeakIsAPoint(points, k - 1);
    }
  }

  /** What a point reports is no drawdown, or the fall between two steps of the curve. */
  lemma PointIsAFall(events: seq<PnlEvent>, bucketMs: int, p: Point, epsilon: real)
    requires bucketMs > 0 && events != [] && epsilon > 0.0 && p in RollingDrawdown(events, bucketMs)
    requires var pnls := PnlsOf(StableSort(events, TsKey));
             CoversEveryFall(pnls, epsilon)
    ensures p.drawdown * 100.0 <= MaxFall(PnlsOf(StableSort(events, TsKey)), epsilon)
  {
    hide *;
    var f, pnls := Final(events, bucketMs), PnlsOf(StableSort(events, TsKey));
    FinalOk(events, bucketMs);
    MaxFallNonNegative(pnls, epsilon);
    var k :| 0 <= k < |f.points| && f.points[k] == p;
    var peak := PointPeak(f.points, k + 1);
    if peak > 0.0 {
      var m := PointPeakIsAPoint(f.points, k + 1);
      PointOnCurve(f.points, f.ends, f.maxEquity, pnls, m);
      PointOnCurve(f.points, f.ends, f.maxEquity, pnls, k);
      EndsInOrder(f.points, f.ends, pnls, m, k);
      FallIsBounded(pnls, epsilon, f.ends[m], f.ends[k]);
      DrawdownIsFall(peak, p.equity);
    } else {
      PointOnCurve(f.points, f.ends, f.maxEquity, pnls, k);
      NoDrawdownWithoutPeak(peak, p.equity);
    }
  }

  lemma EndsInOrder(points: seq<Point>, ends: seq<nat>, pnls: seq<real>, j: nat, k: nat)
    requires EndsOk(points, ends, pnls, |pnls|) && j <= k < |points|
    ensures ends[j] <= ends[k]
  {
    hide Equity;
  }

  lemma FallIsBounded(pnls: seq<real>, epsilon: real, i: nat, j: nat)
    requires epsilon > 0.0 && CoversEveryFall(pnls, epsilon)
    requires i <= j <= |pnls| && Equity(pnls[..i]) > 0.0
    ensures Fall(Equity(pnls[..i]), Equity(pnls[..j])) <= MaxFall(pnls, epsilon)
  {
    hide Equity, Fall, MaxFall;
  }

  /** Three buckets: up to step i, from there up to step j, and the rest. */
  function Cut(pnls: seq<real>, i: nat, j: nat): (events: seq<PnlEvent>)
    ensures |events| == |pnls|
  {
    seq(|pnls|, k requires 0 <= k < |pnls| => PnlEvent(if k < i then 0 else if k < j then 1 else 2, pnls[k]))
  }

  lemma CutShape(pnls: seq<real>, i: nat, j: nat)
    requires 0 < i < j <= |pnls|
    ensures var events := Cut(pnls, i, j);
            && StableSort(events, TsKey) == events && PnlsOf(events) == pnls
            && Filter(events, UpTo(1, 0)) == events[..i] && Filter(events, UpTo(1, 1)) == events[..j]
            && {0, 1} <= BucketsOf(events, 1) <= {0, 1, 2}
  {
    hide StableSort, Filter;
    SortFixesSorted(Cut(pnls, i, j), TsKey);
    CutPrefix(pnls, i, j, 0);
    CutPrefix(pnls, i, j, 1);
    CutBuckets(pnls, i, j);
  }

  lemma CutPrefix(pnls: seq<real>, i: nat, j: nat, ts: int)
    requires 0 < i < j <= |pnls| && 0 <= ts <= 1
    ensures var n := if ts == 0 then i else j;
            Filter(Cut(pnls, i, j), UpTo(1, ts)) == Cut(pnls, i, j)[..n]
  {
    hide Filter;
    var events := Cut(pnls, i, j);
    assert forall k :: 0 <= k < |pnls| ==> BucketOf(events[k].ts, 1) == events[k].ts;
    FilterIsPrefix(events, UpTo(1, ts), if ts == 0 then i else j);
  }

  lemma CutBuckets(pnls: seq<real>, i: nat, j: nat)
    requires 0 < i < j <= |pnls|
    ensures {0, 1} <= BucketsOf(Cut(pnls, i, j), 1) <= {0, 1, 2}
  {
    var events := Cut(pnls, i, j);
    assert events[0] in events && events[i] in events;
    assert BucketOf(events[0].ts, 1) == 0 && BucketOf(events[i].ts, 1) == 1;
    assert forall e :: e in events ==> BucketOf(e.ts, 1) == e.ts;
  }

  /** The first two points of that cutting hold the equities of the two steps. */
  lemma CutPoints(pnls: seq<real>, i: nat, j: nat)
    requires 0 < i < j <= |pnls|
    ensures var points := RollingDrawdown(Cut(pnls, i, j), 1);
            |points| >= 2 && points[0].equity == Equity(pnls[..i]) && points[1].equity == Equity(pnls[..j])
  {
    hide BucketOf, DrawdownOf, Equity, RollingDrawdown, StableSort, Filter, TotalPnl;
    var events := Cut(pnls, i, j);
    var points := RollingDrawdown(events, 1);
    CutShape(pnls, i, j);
    PointsAreCumulative(events, 1);
    PointsAreBuckets(events, 1);
    FirstTwoTimes(points);
    EquityIsTotal(events[..i]);
    EquityIsTotal(events[..j]);
    PnlsOfPrefix(events, i);
    PnlsOfPrefix(events, j);
  }

  lemma FirstTwoTimes(points: seq<Point>)
    requires forall j, k :: 0 <= j < k < |points| ==> points[j].ts < points[k].ts
    requires {0, 1} <= Times(points) <= {0, 1, 2}
    ensures |points| >= 2 && points[0].ts == 0 && points[1].ts == 1
  {
    assert 0 in Times(points) && 1 in Times(points);
    assert forall k :: 0 <= k < |points| ==> points[k].ts in Times(points);
    var a :| 0 <= a < |points| && points[a].ts == 0;
    var b :| 0 <= b < |points| && points[b].ts == 1;
    assert points[0].ts in {0, 1, 2};
    assert points[1].ts in {0, 1, 2};
  }

  lemma FallIsReported(pnls: seq<real>, epsilon: real, i: nat, j: nat)
    requires epsilon > 0.0 && NeverReportsMore(pnls, epsilon) && i <= j <= |pnls| && Equity(pnls[..i]) > 0.0
    ensures Fall(Equity(pnls[..i]), Equity(pnls[..j])) <= MaxFall(pnls, epsilon)
  {
    hide Fall, Equity, MaxFall, RollingDrawdown, StableSort, DrawdownOf, Cut, Filter;
    var start, end := Equity(pnls[..i]), Equity(pnls[..j]);
    MaxFallNonNegative(pnls, epsilon);
    EmptyCurve();
    assert pnls[..0] == [];
    if start <= end {
      RiseIsNoFall(start, end);
    } else {
      var events := Cut(pnls, i, j);
      CutShape(pnls, i, j);
      CutPoints(pnls, i, j);
      FinalOk(events, 1);
      var points := RollingDrawdown(events, 1);
      assert points[1] in points;
      SecondPointPeak(points);
      DrawdownIsFall(start, end);
    }
  }

  lemma SecondPointPeak(points: seq<Point>)
    requires |points| >= 2 && points[0].equity > 0.0 && points[1].equity <= points[0].equity
    ensures PointPeak(points, 2) == points[0].equity
  {
    assert PointPeak(points, 0) == 0.0 && PointPeak(points, 1) == points[0].equity;
  }

  lemma RiseIsNoFall(start: real, end: real)
    requires 0.0 < start <= end
    ensures Fall(start, end) <= 0.0
  {
    QuotientSign(start - end, start);
  }

  lemma NoDrawdownWithoutPeak(peak: real, equity: real)
    requires peak <= 0.0
    ensures DrawdownOf(peak, equity) == 0.0
  {
  }

  lemma PeakCounts(pnls: seq<real>, epsilon: real, end: nat)
    requires PositiveCounts(pnls, epsilon) && end <= |pnls| && Peak(pnls[..end]) > 0.0
    ensures Peak(pnls[..end]) > epsilon
  {
    PeakIsMaximum(pnls[..end]);
    var j :| 0 <= j <= end && Equity(pnls[..end][..j]) == Peak(pnls[..end]);
    assert pnls[..end][..j] == pnls[..j];
  }

  /** Gains of 10 and losses of 5 and 10 in two buckets: the series reports 200 percent, the one pass 150. */
  lemma NegativeBucketReportsMore()
    ensures var events := [PnlEvent(0, 10.0), PnlEvent(0, -5.0), PnlEvent(1, -10.0)];
            && (exists p :: p in RollingDrawdown(events, 1) && p.drawdown * 100.0 == 200.0)
            && PnlsOf(StableSort(events, TsKey)) == [10.0, -5.0, -10.0]
            && MaxFall([10.0, -5.0, -10.0], 1.0) == 150.0
  {
    hide Fold, StableSort, DrawdownOf, MaxFall;
    var events := [PnlEvent(0, 10.0), PnlEvent(0, -5.0), PnlEvent(1, -10.0)];
    SortFixesSorted(events, TsKey);
    BucketsOfThree();
    CurveOfThree();
    DoubleFall();
    var b := Fold(events, 1);
    var points := RollingDrawdown(events, 1);
    assert points[|b.points|] == Point(b.bucket, -5.0, DrawdownOf(5.0, -5.0));
    assert points[|b.points|] in points;
  }

  lemma DoubleFall()
    ensures DrawdownOf(5.0, -5.0) == 2.0
  {
  }

  lemma BucketsOfThree()
    ensures var b := Fold([PnlEvent(0, 10.0), PnlEvent(0, -5.0), PnlEvent(1, -10.0)], 1);
            b.equity == 5.0 && b.maxEquity == 5.0 && b.bucketPnl == -10.0
  {
    hide DrawdownOf;
    var e1, e2 := [PnlEvent(0, 10.0)], [PnlEvent(0, 10.0), PnlEvent(0, -5.0)];
    var e3 := [PnlEvent(0, 10.0), PnlEvent(0, -5.0), PnlEvent(1, -10.0)];
    assert e2[..1] == e1 && e3[..2] == e2;
    assert Fold(e1, 1) == Buckets(0.0, 0.0, [], 0, 10.0, 0, []);
    assert Fold(e2, 1) == Buckets(0.0, 0.0, [], 0, 5.0, 0, []);
  }

  lemma CurveOfThree()
    ensures MaxFall([10.0, -5.0, -10.0], 1.0) == 150.0
  {
    var p1, p2, p3 := [10.0], [10.0, -5.0], [10.0, -5.0, -10.0];
    assert p1[..0] == [] && p2[..1] == p1 && p3[..2] == p2;
    assert Equity(p1) == 10.0 && Equity(p2) == 5.0 && Equity(p3) == -5.0;
    assert Peak(p1) == 10.0 && Peak(p2) == 10.0 && Peak(p3) == 10.0;
    assert MaxFall(p1, 1.0) == 0.0;
    assert MaxFall(p2, 1.0) == 50.0;
  }
}
