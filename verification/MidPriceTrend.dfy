/**
 Price-trend detection by two exponential moving averages (src/market/midPriceTrend.ts). The decay
 exp(-ln 2 * dt / halfLife) is a parameter with the facts that matter: it lies in [0, 1) and does not
 fall with the half-life.
 */
module MidPriceTrend {
  import opened Basics

  type Decay = (int, int) -> real

  datatype Config = Config(fastHalfLifeMs: int, slowHalfLifeMs: int, flatThresholdBps: real, minSamples: int,
                           staleAfterMs: int)

  datatype State = State(fastEma: real, slowEma: real, sampleCount: nat, lastUpdateMs: int, lastMid: real,
                         velocityRefMid: real, velocityRefTs: int)

  const EMPTY := State(0.0, 0.0, 0, 0, 0.0, 0.0, 0)

  datatype Direction = Up | Down | Flat | Unknown

  datatype Signal = Signal(direction: Direction, trendBps: real, velocityBpsPerMin: real, ready: bool)

  ghost predicate ValidDecay(decay: Decay) {
    && (forall dt, h :: dt > 0 && h > 0 ==> 0.0 <= decay(dt, h) < 1.0)
    && (forall dt, h, h' :: dt > 0 && 0 < h <= h' ==> decay(dt, h) <= decay(dt, h'))
  }

  /** Weight of a new sample; a non-positive half-life snaps to it at once. */
  function EmaAlpha(decay: Decay, dtMs: int, halfLifeMs: int): real {
    if halfLifeMs <= 0 || dtMs <= 0 then 1.0 else 1.0 - decay(dtMs, halfLifeMs)
  }

  lemma AlphaFacts(decay: Decay, dtMs: int, h: int, h': int)
    requires ValidDecay(decay) && h <= h'
    ensures 0.0 < EmaAlpha(decay, dtMs, h') <= EmaAlpha(decay, dtMs, h) <= 1.0
  {
  }

  function Moved(ema: real, alpha: real, mid: real): real {
    ema + Part(alpha, mid - ema)
  }

  function Part(alpha: real, gap: real): real {
    alpha * gap
  }

  predicate Accepts(s: State, mid: real, nowMs: int) {
    mid > 0.0 && (s.sampleCount == 0 || nowMs > s.lastUpdateMs)
  }

  function Updated(s: State, mid: real, nowMs: int, c: Config, decay: Decay): State {
    if !Accepts(s, mid, nowMs) then s
    else if s.sampleCount == 0 then State(mid, mid, 1, nowMs, mid, mid, nowMs)
    else
      var dt := nowMs - s.lastUpdateMs;
      State(Moved(s.fastEma, EmaAlpha(decay, dt, c.fastHalfLifeMs), mid),
            Moved(s.slowEma, EmaAlpha(decay, dt, c.slowHalfLifeMs), mid),
            s.sampleCount + 1, nowMs, mid,
            Moved(s.velocityRefMid, EmaAlpha(decay, dt, c.fastHalfLifeMs * 2), mid),
            if s.velocityRefTs == 0 then nowMs else s.velocityRefTs)
  }

  function RelativeBps(a: real, b: real): real
    requires b > 0.0
  {
    ((a - b) / b) * 10000.0
  }

  function SignalOf(s: State, nowMs: int, c: Config): Signal {
    if s.sampleCount < c.minSamples || nowMs - s.lastUpdateMs > c.staleAfterMs || s.slowEma <= 0.0
    then Signal(Unknown, 0.0, 0.0, false)
    else
      var trendBps := RelativeBps(s.fastEma, s.slowEma);
      var elapsedMs := s.lastUpdateMs - s.velocityRefTs;
      var velocity := if elapsedMs > 1000 && s.velocityRefMid > 0.0
                      then RelativeBps(s.lastMid, s.velocityRefMid) / (elapsedMs as real / 60000.0) else 0.0;
      var direction := if trendBps > c.flatThresholdBps then Up else if trendBps < -c.flatThresholdBps then Down
        else Flat;
      Signal(direction, trendBps, velocity, true)
  }

  /** Comparing the trend with a threshold without dividing. */
  lemma TrendAgainstThreshold(fast: real, slow: real, trendBps: real, thresholdBps: real)
    requires slow > 0.0 && trendBps == RelativeBps(fast, slow)
    ensures trendBps > thresholdBps <==> 10000.0 * (fast - slow) > thresholdBps * slow
    ensures trendBps < -thresholdBps <==> 10000.0 * (slow - fast) > thresholdBps * slow
  {
    QuotientTimes(fast - slow, slow);
    var q := (fast - slow) / slow;
    assert trendBps * slow == 10000.0 * (q * slow);
    ScaledSign(trendBps - thresholdBps, slow, trendBps * slow - thresholdBps * slow);
    ScaledSign(-trendBps - thresholdBps, slow, -(trendBps * slow) - thresholdBps * slow);
  }

  class MidPriceTrendTracker {
    var fastEma: real
    var slowEma: real
    var sampleCount: nat
    var lastUpdateMs: int
    var lastMid: real
    var velocityRefMid: real
    var velocityRefTs: int
    const config: Config
    const decay: Decay

    function View(): State
      reads this
    {
      State(fastEma, slowEma, sampleCount, lastUpdateMs, lastMid, velocityRefMid, velocityRefTs)
    }

    constructor (config: Config, decay: Decay)
      ensures View() == EMPTY && this.config == config && this.decay == decay
    {
      fastEma, slowEma, sampleCount, lastUpdateMs := 0.0, 0.0, 0, 0;
      lastMid, velocityRefMid, velocityRefTs := 0.0, 0.0, 0;
      this.config := config;
      this.decay := decay;
    }

    method Update(midPrice: real, nowMs: int)
      modifies this
      ensures View() == Updated(old(View()), midPrice, nowMs, config, decay)
    {
      hide EmaAlpha, Moved;
      if midPrice <= 0.0 {
        return;
      }
      if sampleCount == 0 {
        fastEma, slowEma, velocityRefMid, lastMid := midPrice, midPrice, midPrice, midPrice;
        velocityRefTs, lastUpdateMs, sampleCount := nowMs, nowMs, 1;
        return;
      }
      var dt := nowMs - lastUpdateMs;
      if dt <= 0 {
        return;
      }
      var alphaFast := EmaAlpha(decay, dt, config.fastHalfLifeMs);
      var alphaSlow := EmaAlpha(decay, dt, config.slowHalfLifeMs);
      fastEma := Moved(fastEma, alphaFast, midPrice);
      slowEma := Moved(slowEma, alphaSlow, midPrice);
      var alphaVelRef := EmaAlpha(decay, dt, config.fastHalfLifeMs * 2);
      velocityRefMid := Moved(velocityRefMid, alphaVelRef, midPrice);
      if velocityRefTs == 0 {
        velocityRefTs := nowMs;
      }
      lastMid := midPrice;
      lastUpdateMs := nowMs;
      sampleCount := sampleCount + 1;
    }

    method GetSignal(nowMs: int) returns (r: Signal)
      ensures r == SignalOf(View(), nowMs, config)
      ensures r.ready
         <==> sampleCount >= config.minSamples && nowMs <= lastUpdateMs + config.staleAfterMs && slowEma > 0.0
      ensures !r.ready ==> r == Signal(Unknown, 0.0, 0.0, false)
      ensures r.ready ==> !r.direction.Unknown?
                          && (r.direction.Up? <==> 10000.0 * (fastEma - slowEma) > config.flatThresholdBps * slowEma)
      ensures r.ready && config.flatThresholdBps >= 0.0 ==>
                (r.direction.Down? <==> 10000.0 * (slowEma - fastEma) > config.flatThresholdBps * slowEma)
    {
      var isReady := sampleCount >= config.minSamples;
      var stale := nowMs - lastUpdateMs > config.staleAfterMs;
      if !isReady || stale || slowEma <= 0.0 {
        return Signal(Unknown, 0.0, 0.0, false);
      }
      var trendBps := ((fastEma - slowEma) / slowEma) * 10000.0;
      var velElapsedMs := lastUpdateMs - velocityRefTs;
      var velocityBpsPerMin := 0.0;
      if velElapsedMs > 1000 && velocityRefMid > 0.0 {
        var changeBps := ((lastMid - velocityRefMid) / velocityRefMid) * 10000.0;
        velocityBpsPerMin := changeBps / (velElapsedMs as real / 60000.0);
      }
      var direction;
      if trendBps > config.flatThresholdBps {
        direction := Up;
      } else if trendBps < -config.flatThresholdBps {
        direction := Down;
      } else {
        direction := Flat;
      }
      TrendAgainstThreshold(fastEma, slowEma, trendBps, config.flatThresholdBps);
      r := Signal(direction, trendBps, velocityBpsPerMin, true);
    }

    method Reset()
      modifies this
      ensures View() == EMPTY
    {
      fastEma, slowEma, sampleCount, lastUpdateMs := 0.0, 0.0, 0, 0;
      lastMid, velocityRefMid, velocityRefTs := 0.0, 0.0, 0;
    }
  }

  // ---------------------------------------------------------------- one update

  /** A weight in (0, 1] moves an average towards the sample, never past it. */
  lemma MovesTowards(ema: real, alpha: real, mid: real)
    requires 0.0 < alpha <= 1.0
    ensures ema <= mid ==> ema <= Moved(ema, alpha, mid) <= mid
    ensures mid <= ema ==> mid <= Moved(ema, alpha, mid) <= ema
  {
    hide Part;
    PartOfGap(alpha, mid - ema);
  }

  lemma PartOfGap(alpha: real, gap: real)
    requires 0.0 < alpha <= 1.0
    ensures gap >= 0.0 ==> 0.0 <= Part(alpha, gap) <= gap
    ensures gap <= 0.0 ==> gap <= Part(alpha, gap) <= 0.0
  {
    FractionOfGap(alpha, gap, Part(alpha, gap));
  }

  /** The faster average, being no further from the sample, stays no further. */
  lemma FasterStaysCloser(fast: real, slow: real, a: real, b: real, mid: real)
    requires 0.0 < b <= a <= 1.0 && slow <= fast <= mid
    ensures Moved(slow, b, mid) <= Moved(fast, a, mid)
  {
    ProductNonNegative(fast - slow, 1.0 - b);
    ProductNonNegative(a - b, mid - fast);
    assert Moved(fast, a, mid) - Moved(slow, b, mid) == (fast - slow) * (1.0 - b) + (a - b) * (mid - fast);
  }

  lemma FasterStaysCloserBelow(fast: real, slow: real, a: real, b: real, mid: real)
    requires 0.0 < b <= a <= 1.0 && mid <= fast <= slow
    ensures Moved(fast, a, mid) <= Moved(slow, b, mid)
  {
    ProductNonNegative(slow - fast, 1.0 - b);
    ProductNonNegative(a - b, fast - mid);
    assert Moved(slow, b, mid) - Moved(fast, a, mid) == (slow - fast) * (1.0 - b) + (a - b) * (fast - mid);
  }

  // ---------------------------------------------------------------- runs

  datatype Observation = Observation(mid: real, nowMs: int)

  function After(os: seq<Observation>, c: Config, decay: Decay): State {
    if os == [] then EMPTY
    else
      var n := |os| - 1;
      Updated(After(os[..n], c, decay), os[n].mid, os[n].nowMs, c, decay)
  }

  /** The last observation is taken into account. */
  predicate AcceptsLast(os: seq<Observation>, c: Config, decay: Decay)
    requires os != []
  {
    var n := |os| - 1;
    Accepts(After(os[..n], c, decay), os[n].mid, os[n].nowMs)
  }

  /** All accepted prices lie in the range. */
  ghost predicate InRange(os: seq<Observation>, c: Config, decay: Decay, lo: real, hi: real) {
    os == [] || (
      && InRange(os[..|os| - 1], c, decay, lo, hi)
      && (AcceptsLast(os, c, decay) ==> lo <= os[|os| - 1].mid <= hi))
  }

  /** Each accepted price is at least (at most) the one before. */
  ghost predicate Monotone(os: seq<Observation>, c: Config, decay: Decay, rising: bool) {
    os == [] || (
      && Monotone(os[..|os| - 1], c, decay, rising)
      && (AcceptsLast(os, c, decay) && After(os[..|os| - 1], c, decay).sampleCount > 0 ==>
            var was, now := After(os[..|os| - 1], c, decay).lastMid, os[|os| - 1].mid;
            if rising then was <= now else now <= was))
  }

  /** The averages stay within the range of the accepted prices. */
  lemma {:induction false} AveragesStayInRange(os: seq<Observation>, c: Config, decay: Decay, lo: real, hi: real)
    requires ValidDecay(decay) && InRange(os, c, decay, lo, hi)
    ensures var s := After(os, c, decay);
            s.sampleCount > 0 ==>
              lo <= s.fastEma <= hi && lo <= s.slowEma <= hi && lo <= s.velocityRefMid <= hi && lo <= s.lastMid <= hi
  {
    hide EmaAlpha, Moved;
    if os == [] {
    } else {
      var n := |os| - 1;
      var s, o := After(os[..n], c, decay), os[n];
      AveragesStayInRange(os[..n], c, decay, lo, hi);
      if AcceptsLast(os, c, decay) && s.sampleCount > 0 {
        var dt := o.nowMs - s.lastUpdateMs;
        AlphaFacts(decay, dt, c.fastHalfLifeMs, c.fastHalfLifeMs);
        AlphaFacts(decay, dt, c.slowHalfLifeMs, c.slowHalfLifeMs);
        AlphaFacts(decay, dt, c.fastHalfLifeMs * 2, c.fastHalfLifeMs * 2);
        MovesTowards(s.fastEma, EmaAlpha(decay, dt, c.fastHalfLifeMs), o.mid);
        MovesTowards(s.slowEma, EmaAlpha(decay, dt, c.slowHalfLifeMs), o.mid);
        MovesTowards(s.velocityRefMid, EmaAlpha(decay, dt, c.fastHalfLifeMs * 2), o.mid);
      }
    }
  }

  /** On a rising run slow <= fast <= latest price, on a falling run the reverse. */
  ghost predicate Ordered(s: State, rising: bool) {
    if s.sampleCount == 0 then s == EMPTY
    else
      && s.slowEma > 0.0 && s.velocityRefMid > 0.0
      && if rising then s.slowEma <= s.fastEma <= s.lastMid && s.velocityRefMid <= s.lastMid
         else s.slowEma >= s.fastEma >= s.lastMid && s.velocityRefMid >= s.lastMid
  }

  lemma UpdateKeepsOrder(s: State, mid: real, nowMs: int, c: Config, decay: Decay, rising: bool)
    requires ValidDecay(decay) && c.fastHalfLifeMs <= c.slowHalfLifeMs && Ordered(s, rising)
    requires Accepts(s, mid, nowMs) && s.sampleCount > 0 ==> if rising then s.lastMid <= mid else mid <= s.lastMid
    ensures Ordered(Updated(s, mid, nowMs, c, decay), rising)
  {
    hide EmaAlpha, Moved;
    if Accepts(s, mid, nowMs) && s.sampleCount > 0 {
      var dt := nowMs - s.lastUpdateMs;
      var a, b, v := EmaAlpha(decay, dt, c.fastHalfLifeMs), EmaAlpha(decay, dt, c.slowHalfLifeMs),
                     EmaAlpha(decay, dt, c.fastHalfLifeMs * 2);
      AlphaFacts(decay, dt, c.fastHalfLifeMs, c.slowHalfLifeMs);
      AlphaFacts(decay, dt, c.fastHalfLifeMs * 2, c.fastHalfLifeMs * 2);
      MovesTowards(s.fastEma, a, mid);
      MovesTowards(s.slowEma, b, mid);
      MovesTowards(s.velocityRefMid, v, mid);
      if rising {
        FasterStaysCloser(s.fastEma, s.slowEma, a, b, mid);
      } else {
        FasterStaysCloserBelow(s.fastEma, s.slowEma, a, b, mid);
      }
    }
  }

  lemma {:induction false} MonotoneRunIsOrdered(os: seq<Observation>, c: Config, decay: Decay, rising: bool)
    requires ValidDecay(decay) && c.fastHalfLifeMs <= c.slowHalfLifeMs && Monotone(os, c, decay, rising)
    ensures Ordered(After(os, c, decay), rising)
  {
    hide Updated, Ordered, Accepts;
    if os == [] {
      EmptyIsOrdered(rising);
    } else {
      var n := |os| - 1;
      MonotoneRunIsOrdered(os[..n], c, decay, rising);
      UpdateKeepsOrder(After(os[..n], c, decay), os[n].mid, os[n].nowMs, c, decay, rising);
    }
  }

  lemma EmptyIsOrdered(rising: bool)
    ensures Ordered(EMPTY, rising)
  {
  }

  lemma RelativeSign(a: real, b: real)
    requires b > 0.0
    ensures a >= b ==> RelativeBps(a, b) >= 0.0
    ensures a <= b ==> RelativeBps(a, b) <= 0.0
  {
    if a >= b {
      DivideLe(0.0, 1.0, a - b, b);
    }
    if a <= b {
      DivideLe(a - b, b, 0.0, 1.0);
    }
  }

  lemma OrderedSignal(s: State, nowMs: int, c: Config, rising: bool)
    requires Ordered(s, rising) && c.flatThresholdBps >= 0.0
    ensures var g := SignalOf(s, nowMs, c);
            if rising then !g.direction.Down? && g.trendBps >= 0.0 && g.velocityBpsPerMin >= 0.0
            else !g.direction.Up? && g.trendBps <= 0.0 && g.velocityBpsPerMin <= 0.0
  {
    hide RelativeBps;
    if s.sampleCount > 0 {
      RelativeSign(s.fastEma, s.slowEma);
      RelativeSign(s.lastMid, s.velocityRefMid);
      var elapsedMs := s.lastUpdateMs - s.velocityRefTs;
      if elapsedMs > 1000 {
        QuotientSign(RelativeBps(s.lastMid, s.velocityRefMid), elapsedMs as real / 60000.0);
      }
    }
  }

  /**
   While prices do not fall the signal is never `down`, and while they do not rise it is never `up`;
   the velocity has the same sign as the trend.
   */
  lemma TrendFollowsPrices(os: seq<Observation>, nowMs: int, c: Config, decay: Decay, rising: bool)
    requires ValidDecay(decay) && c.fastHalfLifeMs <= c.slowHalfLifeMs && Monotone(os, c, decay, rising)
    requires c.flatThresholdBps >= 0.0
    ensures var g := SignalOf(After(os, c, decay), nowMs, c);
            if rising then !g.direction.Down? && g.trendBps >= 0.0 && g.velocityBpsPerMin >= 0.0
            else !g.direction.Up? && g.trendBps <= 0.0 && g.velocityBpsPerMin <= 0.0
  {
    MonotoneRunIsOrdered(os, c, decay, rising);
    OrderedSignal(After(os, c, decay), nowMs, c, rising);
  }

  // ---------------------------------------------------------------- how fast the averages follow

  /**
   One accepted sample in numbers. The first sets every average to its price; a later one leaves of each average's
   gap to the price what the decay over the elapsed time leaves: at the fast half-life, the slow one, and twice the
   fast one for the velocity's reference. Without a half-life nothing is left of it.
   */
  lemma UpdateMeaning(s: State, mid: real, nowMs: int, c: Config, decay: Decay)
    requires mid > 0.0 && (s.sampleCount == 0 || nowMs > s.lastUpdateMs)
    ensures var next, elapsed := Updated(s, mid, nowMs, c, decay), nowMs - s.lastUpdateMs;
            && next.sampleCount == s.sampleCount + 1 && next.lastUpdateMs == nowMs && next.lastMid == mid
            && (s.sampleCount == 0 ==> next.fastEma == mid && next.slowEma == mid && next.velocityRefMid == mid)
            && (s.sampleCount > 0 && c.fastHalfLifeMs > 0 ==>
                  && next.fastEma - mid == decay(elapsed, c.fastHalfLifeMs) * (s.fastEma - mid)
                  && next.velocityRefMid - mid == decay(elapsed, 2 * c.fastHalfLifeMs) * (s.velocityRefMid - mid))
            && (s.sampleCount > 0 && c.slowHalfLifeMs > 0 ==>
                  next.slowEma - mid == decay(elapsed, c.slowHalfLifeMs) * (s.slowEma - mid))
            && (c.fastHalfLifeMs <= 0 ==> next.fastEma == mid && next.velocityRefMid == mid)
            && (c.slowHalfLifeMs <= 0 ==> next.slowEma == mid)
  {
    if s.sampleCount > 0 {
      var elapsed := nowMs - s.lastUpdateMs;
      GapShrinks(s.fastEma, decay(elapsed, c.fastHalfLifeMs), mid);
      GapShrinks(s.slowEma, decay(elapsed, c.slowHalfLifeMs), mid);
      GapShrinks(s.velocityRefMid, decay(elapsed, 2 * c.fastHalfLifeMs), mid);
    }
  }

  lemma GapShrinks(ema: real, kept: real, mid: real)
    ensures Moved(ema, 1.0 - kept, mid) - mid == kept * (ema - mid)
  {
  }

  /** Decaying for a while and then for a while longer is decaying for both together. */
  ghost predicate Multiplies(decay: Decay) {
    forall a, b, h :: a > 0 && b > 0 && h > 0 ==> decay(a + b, h) == decay(a, h) * decay(b, h)
  }

  lemma AfterAppended(os: seq<Observation>, o: Observation, c: Config, decay: Decay)
    ensures After([], c, decay) == EMPTY
    ensures After(os + [o], c, decay) == Updated(After(os, c, decay), o.mid, o.nowMs, c, decay)
  {
    assert (os + [o])[..|os|] == os;
  }

  /** Samples of one price, each later than the one before. */
  ghost predicate IsSteady(os: seq<Observation>, mid: real) {
    && (forall i :: 0 <= i < |os| ==> os[i].mid == mid)
    && (forall i, j :: 0 <= i < j < |os| ==> os[i].nowMs < os[j].nowMs)
  }

  function Steadily(s: State, os: seq<Observation>, c: Config, decay: Decay): State {
    if os == [] then s
    else Updated(Steadily(s, os[..|os| - 1], c, decay), os[|os| - 1].mid, os[|os| - 1].nowMs, c, decay)
  }

  /**
   While the price is steady it does not matter how often it is sampled: after any number of samples each average has
   the part of its gap that the decay over the whole time leaves.
   */
  lemma {:induction false} SteadyPrice(s: State, os: seq<Observation>, mid: real, c: Config, decay: Decay)
    requires Multiplies(decay) && mid > 0.0 && c.fastHalfLifeMs > 0 && c.slowHalfLifeMs > 0 && s.sampleCount > 0
    requires os != [] && IsSteady(os, mid) && os[0].nowMs > s.lastUpdateMs
    ensures var now, elapsed := Steadily(s, os, c, decay), os[|os| - 1].nowMs - s.lastUpdateMs;
            && now.sampleCount == s.sampleCount + |os| && now.lastUpdateMs == os[|os| - 1].nowMs && elapsed > 0
            && now.fastEma - mid == decay(elapsed, c.fastHalfLifeMs) * (s.fastEma - mid)
            && now.slowEma - mid == decay(elapsed, c.slowHalfLifeMs) * (s.slowEma - mid)
            && now.velocityRefMid - mid == decay(elapsed, 2 * c.fastHalfLifeMs) * (s.velocityRefMid - mid)
  {
    hide Updated, Multiplies;
    var n, o := |os| - 1, os[|os| - 1];
    var before := Steadily(s, os[..n], c, decay);
    if n == 0 {
      assert os[..0] == [];
      UpdateMeaning(s, mid, o.nowMs, c, decay);
    } else {
      SteadyPrice(s, os[..n], mid, c, decay);
      UpdateMeaning(before, mid, o.nowMs, c, decay);
      var a, b := os[n - 1].nowMs - s.lastUpdateMs, o.nowMs - os[n - 1].nowMs;
      DecaysTogether(decay, a, b, c.fastHalfLifeMs, s.fastEma - mid);
      DecaysTogether(decay, a, b, c.slowHalfLifeMs, s.slowEma - mid);
      DecaysTogether(decay, a, b, 2 * c.fastHalfLifeMs, s.velocityRefMid - mid);
    }
  }

  lemma DecaysTogether(decay: Decay, a: int, b: int, h: int, gap: real)
    requires Multiplies(decay) && a > 0 && b > 0 && h > 0
    ensures decay(b, h) * (decay(a, h) * gap) == decay(a + b, h) * gap
  {
  }
}
