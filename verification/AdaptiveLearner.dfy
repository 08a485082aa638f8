/** Bounded per-pair, per-strategy, per-regime parameter tuning (src/analytics/adaptiveLearner.ts). */
module AdaptiveLearner {
  import opened Basics
  import opened Regimes

  datatype Tuning = Tuning(sizeMultiplier: real, quoteSkewBps: real, maxSlippageBps: real,
                           minEdgeBpsToTrade: real, coolDownMs: int, disabledRegimes: set<Regime>)

  const DEFAULT_TUNING := Tuning(1.0, 0.0, 50.0, 0.0, 0, {})

  datatype PerformanceRow = PerformanceRow(avgNetEdgeBps: real, avgSlippageBpsVsMid: real, partialFillRate: real,
                                           winRateProxy: real, score: real)

  datatype Config = Config(alpha: real, maxSizeStep: real, maxSlippageStep: real)

  datatype Key = Key(pair: string, strategy: string, regime: Regime)

  // ---------------------------------------------------------------- smoothing

  function SmoothValue(prior: real, target: real, alpha: real, maxStep: real): real {
    var raw := prior + alpha * (target - prior);
    prior + Max(-maxStep, Min(maxStep, raw - prior))
  }

  function Clamp(value: real, low: real, high: real): real {
    Max(low, Min(high, value))
  }

  ghost predicate Between(x: real, a: real, b: real) {
    a <= x <= b || b <= x <= a
  }

  /** A smoothing step goes towards the target, not past it, and no further than the step limit. */
  lemma SmoothMovesTowardsTarget(prior: real, target: real, alpha: real, maxStep: real)
    requires 0.0 <= alpha <= 1.0 && maxStep >= 0.0
    ensures Between(SmoothValue(prior, target, alpha, maxStep), prior, target)
    ensures Abs(SmoothValue(prior, target, alpha, maxStep) - prior) <= maxStep
  {
    FractionOfGap(alpha, target - prior, alpha * (target - prior));
  }

  /** Never overshooting is exactly a matter of the smoothing factor lying in [0, 1]. */
  lemma NeverOvershootsIff(alpha: real, maxStep: real)
    requires maxStep > 0.0
    ensures (forall prior: real, target: real :: Between(SmoothValue(prior, target, alpha, maxStep), prior, target))
       <==> 0.0 <= alpha <= 1.0
  {
    if 0.0 <= alpha <= 1.0 {
      forall prior: real, target: real
        ensures Between(SmoothValue(prior, target, alpha, maxStep), prior, target)
      {
        SmoothMovesTowardsTarget(prior, target, alpha, maxStep);
      }
    } else if alpha < 0.0 {
      assert alpha * (1.0 - 0.0) == alpha;
      assert SmoothValue(0.0, 1.0, alpha, maxStep) < 0.0;
    } else {
      QuotientTimes(maxStep, alpha);
      Overshoots(alpha, maxStep, maxStep / alpha);
    }
  }

  lemma Overshoots(alpha: real, maxStep: real, target: real)
    requires maxStep > 0.0 && alpha > 1.0 && target * alpha == maxStep
    ensures !Between(SmoothValue(0.0, target, alpha, maxStep), 0.0, target)
  {
    hide SmoothValue;
    FullStep(maxStep, target, alpha);
    ScaledSign(target, alpha, maxStep);
    ScaledSign(alpha - 1.0, target, maxStep - target);
  }

  lemma FullStep(maxStep: real, target: real, alpha: real)
    requires maxStep > 0.0 && target * alpha == maxStep
    ensures SmoothValue(0.0, target, alpha, maxStep) == maxStep
  {
    assert alpha * (target - 0.0) == maxStep;
  }

  // ---------------------------------------------------------------- recommendation

  /** Size the heuristics aim for: less on negative edge and on partial fills, more on strong results. */
  function TargetSize(row: PerformanceRow): real {
    var base := if row.avgNetEdgeBps < 0.0 then Max(0.0, 1.0 - Min(0.25, Abs(row.avgNetEdgeBps) / 40.0)) else 1.0;
    var filled := if row.partialFillRate > 0.3 then Max(0.0, base - Min(0.2, (row.partialFillRate - 0.3) * 0.5))
      else base;
    if Strong(row) then Min(1.2, filled + 0.1) else filled
  }

  predicate Strong(row: PerformanceRow) {
    row.avgNetEdgeBps > 5.0 && row.avgSlippageBpsVsMid < 10.0 && row.winRateProxy > 0.55
  }

  function TargetMinEdge(row: PerformanceRow): real {
    var base := if row.avgNetEdgeBps < 0.0 then Min(10.0, Abs(row.avgNetEdgeBps) / 2.0) else 0.0;
    if Strong(row) then Max(0.0, base - 2.0) else base
  }

  function TargetCoolDown(row: PerformanceRow): real {
    if row.avgNetEdgeBps < 0.0 then Min(10000.0, Abs(row.avgNetEdgeBps) * 200.0) else 0.0
  }

  predicate Dangerous(regime: Regime, row: PerformanceRow) {
    (regime.Chaotic? || regime.Illiquid?) && row.score < 0.0
  }

  function SmoothedCoolDown(coolDownMs: int, target: real, alpha: real): int {
    Clamp(Round(SmoothValue(coolDownMs as real, target, alpha, 5000.0)) as real, 0.0, 60000.0).Floor
  }

  function RecommendTuning(c: Config, regime: Regime, row: PerformanceRow, prior: Tuning): Tuning {
    Tuning(
      Clamp(SmoothValue(prior.sizeMultiplier, TargetSize(row), c.alpha, c.maxSizeStep), 0.0, 1.5),
      prior.quoteSkewBps,
      Clamp(SmoothValue(prior.maxSlippageBps, DEFAULT_TUNING.maxSlippageBps, c.alpha, c.maxSlippageStep), 10.0, 150.0),
      Clamp(SmoothValue(prior.minEdgeBpsToTrade, TargetMinEdge(row), c.alpha, 5.0), 0.0, 30.0),
      SmoothedCoolDown(prior.coolDownMs, TargetCoolDown(row), c.alpha),
      prior.disabledRegimes + if Dangerous(regime, row) then {regime} else {})
  }

  /** What the heuristics can ask for at all, whatever the figures of the row. */
  lemma TargetsAreNarrow(row: PerformanceRow)
    ensures 0.55 <= TargetSize(row) <= 1.1
    ensures 0.0 <= TargetMinEdge(row) <= 10.0
    ensures 0.0 <= TargetCoolDown(row) <= 10000.0
  {
  }

  /** What negative edge costs in size: one fortieth for each bps lost, up to a quarter. */
  ghost predicate IsEdgeCut(row: PerformanceRow, cut: real) {
    var edge := row.avgNetEdgeBps;
    && (edge >= 0.0 ==> cut == 0.0) && (-10.0 <= edge <= 0.0 ==> 40.0 * cut == -edge) && (edge <= -10.0 ==> cut == 0.25)
  }

  /** What partial fills cost: half of their rate beyond 30 percent, up to a fifth. */
  ghost predicate IsPartialCut(row: PerformanceRow, cut: real) {
    var rate := row.partialFillRate;
    && (rate <= 0.3 ==> cut == 0.0) && (0.3 <= rate <= 0.7 ==> 2.0 * cut == rate - 0.3) && (rate >= 0.7 ==> cut == 0.2)
  }

  /** Over 5 bps of edge, under 10 bps of slippage, and more than 55 percent wins. */
  ghost predicate IsRewarded(row: PerformanceRow) {
    row.avgNetEdgeBps > 5.0 && row.avgSlippageBpsVsMid < 10.0 && row.winRateProxy > 0.55
  }

  /**
   The targets in the row's own figures. The size starts at 1, loses both cuts and gains a tenth as a reward; an edge
   lost in bps asks for half of it as minimum edge, up to 10, and for 200 ms each of cooldown, up to 10 seconds.
   */
  lemma TargetsMeaning(row: PerformanceRow, edgeCut: real, partialCut: real)
    requires IsEdgeCut(row, edgeCut) && IsPartialCut(row, partialCut)
    ensures TargetSize(row) == 1.0 - edgeCut - partialCut + (if IsRewarded(row) then 0.1 else 0.0)
    ensures var edge := row.avgNetEdgeBps;
            && (edge >= 0.0 ==> TargetMinEdge(row) == 0.0 && TargetCoolDown(row) == 0.0)
            && (-20.0 <= edge <= 0.0 ==> 2.0 * TargetMinEdge(row) == -edge)
            && (edge <= -20.0 ==> TargetMinEdge(row) == 10.0)
            && (-50.0 <= edge <= 0.0 ==> TargetCoolDown(row) == -200.0 * edge)
            && (edge <= -50.0 ==> TargetCoolDown(row) == 10000.0)
  {
  }

  /** `x`, or the nearer end of the range it lies outside of. */
  function Nearest(x: real, low: real, high: real): real {
    if x < low then low else if x > high then high else x
  }

  /**
   One recommendation on any tuning, even one from outside the documented bounds: every figure ends within them, and
   without smoothing nothing else changes. A regime is disabled by its own chaotic or illiquid row with a negative
   score, on top of those disabled before.
   */
  lemma RecommendationOnAnyTuning(c: Config, regime: Regime, row: PerformanceRow, prior: Tuning)
    requires c.maxSizeStep >= 0.0 && c.maxSlippageStep >= 0.0
    ensures var next := RecommendTuning(c, regime, row, prior);
            && 0.0 <= next.sizeMultiplier <= 1.5 && 10.0 <= next.maxSlippageBps <= 150.0
            && 0.0 <= next.minEdgeBpsToTrade <= 30.0 && 0 <= next.coolDownMs <= 60000
            && next.quoteSkewBps == prior.quoteSkewBps
            && (c.alpha == 0.0 ==>
                  && next.sizeMultiplier == Nearest(prior.sizeMultiplier, 0.0, 1.5)
                  && next.maxSlippageBps == Nearest(prior.maxSlippageBps, 10.0, 150.0)
                  && next.minEdgeBpsToTrade == Nearest(prior.minEdgeBpsToTrade, 0.0, 30.0)
                  && (0 <= prior.coolDownMs <= 60000 ==> next.coolDownMs == prior.coolDownMs)
                  && (prior.coolDownMs < 0 ==> next.coolDownMs == 0)
                  && (prior.coolDownMs > 60000 ==> next.coolDownMs == 60000))
            && (forall r :: r in next.disabledRegimes <==>
                  || r in prior.disabledRegimes
                  || (r == regime && (regime == Chaotic || regime == Illiquid) && row.score < 0.0))
  {
    hide TargetSize, TargetMinEdge, TargetCoolDown, SmoothValue, SmoothedCoolDown, Dangerous;
    CoolDownInBounds(prior.coolDownMs, TargetCoolDown(row), c.alpha);
    if c.alpha == 0.0 {
      NotSmoothed(prior.sizeMultiplier, TargetSize(row), c.maxSizeStep);
      NotSmoothed(prior.maxSlippageBps, 50.0, c.maxSlippageStep);
      NotSmoothed(prior.minEdgeBpsToTrade, TargetMinEdge(row), 5.0);
    }
    DangerMeaning(regime, row);
  }

  lemma DangerMeaning(regime: Regime, row: PerformanceRow)
    ensures Dangerous(regime, row) <==> (regime == Chaotic || regime == Illiquid) && row.score < 0.0
  {
  }

  lemma CoolDownInBounds(coolDownMs: int, target: real, alpha: real)
    ensures 0 <= SmoothedCoolDown(coolDownMs, target, alpha) <= 60000
    ensures alpha == 0.0 ==>
              SmoothedCoolDown(coolDownMs, target, alpha)
              == if coolDownMs < 0 then 0 else if coolDownMs > 60000 then 60000 else coolDownMs
  {
    hide SmoothValue, Clamp, Round;
    ClampedWhole(Round(SmoothValue(coolDownMs as real, target, alpha, 5000.0)));
    if alpha == 0.0 {
      NotSmoothed(coolDownMs as real, target, 5000.0);
      RoundOfWhole(coolDownMs);
    }
  }

  lemma ClampedWhole(n: int)
    ensures Clamp(n as real, 0.0, 60000.0).Floor == if n < 0 then 0 else if n > 60000 then 60000 else n
  {
  }

  lemma RoundOfWhole(n: int)
    ensures Round(n as real) == n
  {
  }

  lemma NotSmoothed(prior: real, target: real, maxStep: real)
    requires maxStep >= 0.0
    ensures SmoothValue(prior, target, 0.0, maxStep) == prior
  {
  }

  /** The narrow range a tuning can reach, well inside the bounds the code clamps to. */
  ghost predicate InReach(t: Tuning) {
    && 0.55 <= t.sizeMultiplier <= 1.1
    && t.quoteSkewBps == 0.0
    && t.maxSlippageBps == 50.0
    && 0.0 <= t.minEdgeBpsToTrade <= 10.0
    && 0 <= t.coolDownMs <= 10000
  }

  ghost predicate SoundConfig(c: Config) {
    0.0 <= c.alpha <= 1.0 && c.maxSizeStep >= 0.0 && c.maxSlippageStep >= 0.0
  }

  lemma CoolDownMoves(coolDownMs: int, target: real, alpha: real)
    requires 0.0 <= alpha <= 1.0 && 0 <= coolDownMs <= 10000 && 0.0 <= target <= 10000.0
    ensures var next := SmoothedCoolDown(coolDownMs, target, alpha);
            && 0 <= next <= 10000
            && -5000 <= next - coolDownMs <= 5000
            && (coolDownMs as real <= target ==> coolDownMs <= next && next as real <= target + 0.5)
            && (target <= coolDownMs as real ==> next <= coolDownMs && target - 0.5 <= next as real)
  {
    hide SmoothValue;
    SmoothMovesTowardsTarget(coolDownMs as real, target, alpha, 5000.0);
    RoundIsNearest(SmoothValue(coolDownMs as real, target, alpha, 5000.0));
  }

  /**
   One recommendation keeps every figure in reach, moves the size towards its target by at most one
   step and never past it, and never drops a disabled regime.
   */
  lemma RecommendationIsBounded(c: Config, regime: Regime, row: PerformanceRow, prior: Tuning)
    requires SoundConfig(c) && InReach(prior)
    ensures var next := RecommendTuning(c, regime, row, prior);
            && InReach(next)
            && Abs(next.sizeMultiplier - prior.sizeMultiplier) <= c.maxSizeStep
            && Between(next.sizeMultiplier, prior.sizeMultiplier, TargetSize(row))
            && Between(next.minEdgeBpsToTrade, prior.minEdgeBpsToTrade, TargetMinEdge(row))
            && prior.disabledRegimes <= next.disabledRegimes
  {
    hide SmoothValue, TargetSize, TargetMinEdge, TargetCoolDown, SmoothedCoolDown;
    TargetsAreNarrow(row);
    SmoothMovesTowardsTarget(prior.sizeMultiplier, TargetSize(row), c.alpha, c.maxSizeStep);
    SmoothMovesTowardsTarget(prior.maxSlippageBps, DEFAULT_TUNING.maxSlippageBps, c.alpha, c.maxSlippageStep);
    SmoothMovesTowardsTarget(prior.minEdgeBpsToTrade, TargetMinEdge(row), c.alpha, 5.0);
    CoolDownMoves(prior.coolDownMs, TargetCoolDown(row), c.alpha);
  }

  /** Both ends of the size range are asked for by some row, so the range cannot be narrowed. */
  lemma SizeRangeIsTight()
    ensures exists row: PerformanceRow :: TargetSize(row) == 0.55
    ensures exists row: PerformanceRow :: TargetSize(row) == 1.1
  {
    assert TargetSize(PerformanceRow(-10.0, 0.0, 0.7, 0.0, 0.0)) == 0.55;
    assert TargetSize(PerformanceRow(6.0, 0.0, 0.0, 0.6, 0.0)) == 1.1;
  }

  /**
   Rounding to whole milliseconds: with nothing to slow down for, a cooldown stops shrinking while it is
   still positive.
   */
  lemma CoolDownStallsIff(coolDownMs: int, alpha: real)
    requires 0.0 <= alpha <= 1.0 && 0 <= coolDownMs <= 10000
    ensures SmoothedCoolDown(coolDownMs, 0.0, alpha) == coolDownMs <==> alpha * coolDownMs as real <= 0.5
  {
    var prior := coolDownMs as real;
    var move := alpha * prior;
    FractionOfGap(alpha, prior, move);
    assert alpha * (0.0 - prior) == -move;
    StallValue(coolDownMs, alpha, move);
  }

  /** With the default smoothing factor, and with 0.25, a cooldown of 2 ms that should go to 0 stays where it is. */
  lemma CoolDownStallsAtTwo()
    ensures SmoothedCoolDown(2, 0.0, 0.2) == 2 && SmoothedCoolDown(2, 0.0, 0.25) == 2
  {
    CoolDownStallsIff(2, 0.2);
    CoolDownStallsIff(2, 0.25);
  }

  lemma StallValue(coolDownMs: int, alpha: real, move: real)
    requires 0.0 <= move <= coolDownMs as real <= 10000.0 && alpha * (0.0 - coolDownMs as real) == -move
    ensures SmoothedCoolDown(coolDownMs, 0.0, alpha) == coolDownMs <==> move <= 0.5
  {
    var prior := coolDownMs as real;
    assert SmoothValue(prior, 0.0, alpha, 5000.0) == prior - Min(5000.0, move);
  }

  // ---------------------------------------------------------------- the learner

  /** One visit of the update loop: a key and the performance row found for it, if any. */
  datatype Visit = Visit(key: Key, row: Option<PerformanceRow>)

  function Prior(tunings: map<Key, Tuning>, key: Key): Tuning {
    if key in tunings then tunings[key] else DEFAULT_TUNING
  }

  function AfterVisit(c: Config, tunings: map<Key, Tuning>, v: Visit): map<Key, Tuning> {
    if v.row.Some? then tunings[v.key := RecommendTuning(c, v.key.regime, v.row.value, Prior(tunings, v.key))]
    else if v.key !in tunings then tunings[v.key := DEFAULT_TUNING]
    else tunings
  }

  function Run(c: Config, tunings: map<Key, Tuning>, visits: seq<Visit>): map<Key, Tuning> {
    if visits == [] then tunings
    else AfterVisit(c, Run(c, tunings, visits[..|visits| - 1]), visits[|visits| - 1])
  }

  function VisitOf(perf: map<Key, PerformanceRow>, key: Key): Visit {
    Visit(key, if key in perf then Some(perf[key]) else None)
  }

  function RegimeVisits(pair: string, strategy: string, regimes: seq<Regime>,
                        perf: map<Key, PerformanceRow>): seq<Visit> {
    if regimes == [] then []
    else RegimeVisits(pair, strategy, regimes[..|regimes| - 1], perf)
         + [VisitOf(perf, Key(pair, strategy, regimes[|regimes| - 1]))]
  }

  function StrategyVisits(pair: string, strategies: seq<string>, perf: map<Key, PerformanceRow>): seq<Visit> {
    if strategies == [] then []
    else StrategyVisits(pair, strategies[..|strategies| - 1], perf)
         + RegimeVisits(pair, strategies[|strategies| - 1], ALL_REGIMES, perf)
  }

  /** Every pair, every strategy, every regime, in the order of the nested loops. */
  function Visits(pairs: seq<string>, strategies: seq<string>, perf: map<Key, PerformanceRow>): seq<Visit> {
    if pairs == [] then []
    else Visits(pairs[..|pairs| - 1], strategies, perf) + StrategyVisits(pairs[|pairs| - 1], strategies, perf)
  }

  lemma NothingVisited(c: Config, tunings: map<Key, Tuning>, pair: string, strategy: string,
                       strategies: seq<string>, perf: map<Key, PerformanceRow>)
    ensures Run(c, tunings, []) == tunings
    ensures RegimeVisits(pair, strategy, [], perf) == StrategyVisits(pair, [], perf) == []
    ensures Visits([], strategies, perf) == []
  {
  }

  lemma RunAppend(c: Config, tunings: map<Key, Tuning>, visits: seq<Visit>, v: Visit)
    ensures Run(c, tunings, visits + [v]) == AfterVisit(c, Run(c, tunings, visits), v)
  {
    hide AfterVisit;
    assert (visits + [v])[..|visits|] == visits;
  }

  lemma RegimeVisitsAppend(pair: string, strategy: string, k: nat, perf: map<Key, PerformanceRow>)
    requires k < |ALL_REGIMES|
    ensures RegimeVisits(pair, strategy, ALL_REGIMES[..k + 1], perf)
         == RegimeVisits(pair, strategy, ALL_REGIMES[..k], perf) + [VisitOf(perf, Key(pair, strategy, ALL_REGIMES[k]))]
  {
    assert ALL_REGIMES[..k + 1][..k] == ALL_REGIMES[..k];
  }

  lemma StrategyVisitsAppend(pair: string, strategies: seq<string>, j: nat, perf: map<Key, PerformanceRow>)
    requires j < |strategies|
    ensures StrategyVisits(pair, strategies[..j + 1], perf)
         == StrategyVisits(pair, strategies[..j], perf)
             + RegimeVisits(pair, strategies[j], ALL_REGIMES[..|ALL_REGIMES|], perf)
  {
    assert ALL_REGIMES[..|ALL_REGIMES|] == ALL_REGIMES;
    assert strategies[..j + 1][..j] == strategies[..j];
  }

  lemma VisitsAppend(pairs: seq<string>, i: nat, strategies: seq<string>, perf: map<Key, PerformanceRow>)
    requires i < |pairs|
    ensures Visits(pairs[..i + 1], strategies, perf)
         == Visits(pairs[..i], strategies, perf) + StrategyVisits(pairs[i], strategies[..|strategies|], perf)
  {
    assert strategies[..|strategies|] == strategies;
    assert pairs[..i + 1][..i] == pairs[..i];
  }

  class Learner {
    const config: Config
    var tunings: map<Key, Tuning>

    constructor (config: Config)
      ensures this.config == config && tunings == map[]
    {
      this.config := config;
      tunings := map[];
    }

    /** One update cycle over the performance rows of the pairs. */
    method UpdateOnce(pairKeys: seq<string>, strategies: seq<string>, perf: map<Key, PerformanceRow>)
      modifies this
      ensures tunings == Run(config, old(tunings), Visits(pairKeys, strategies, perf))
      ensures forall pair, strategy, regime :: pair in pairKeys && strategy in strategies ==>
                GetTuning(pair, strategy, regime).Some?
    {
      hide RecommendTuning, Run, RegimeVisits, StrategyVisits, Visits;
      NothingVisited(config, tunings, "", "", strategies, perf);
      ghost var done: seq<Visit> := [];
      for i := 0 to |pairKeys|
        invariant done == Visits(pairKeys[..i], strategies, perf)
        invariant tunings == Run(config, old(tunings), done)
      {
        var pair := pairKeys[i];
        ghost var before := done;
        NothingVisited(config, tunings, pair, "", strategies, perf);
        for j := 0 to |strategies|
          invariant done == before + StrategyVisits(pair, strategies[..j], perf)
          invariant tunings == Run(config, old(tunings), done)
        {
          var strategy := strategies[j];
          ghost var beforeStrategy := done;
          NothingVisited(config, tunings, pair, strategy, strategies, perf);
          for k := 0 to |ALL_REGIMES|
            invariant done == beforeStrategy + RegimeVisits(pair, strategy, ALL_REGIMES[..k], perf)
            invariant tunings == Run(config, old(tunings), done)
          {
            var key := Key(pair, strategy, ALL_REGIMES[k]);
            if key in perf {
              tunings := tunings[key := RecommendTuning(config, key.regime, perf[key], Prior(tunings, key))];
            } else if key !in tunings {
              tunings := tunings[key := DEFAULT_TUNING];
            }
            RunAppend(config, old(tunings), done, VisitOf(perf, key));
            RegimeVisitsAppend(pair, strategy, k, perf);
            done := done + [VisitOf(perf, key)];
          }
          StrategyVisitsAppend(pair, strategies, j, perf);
        }
        VisitsAppend(pairKeys, i, strategies, perf);
      }
      assert pairKeys[..|pairKeys|] == pairKeys;
      ListedArePresent(config, old(tunings), pairKeys, strategies, perf);
    }

    function GetTuning(pair: string, strategy: string, regime: Regime): Option<Tuning>
      reads this
    {
      var key := Key(pair, strategy, regime);
      if key in tunings then Some(tunings[key]) else None
    }
  }

  // ---------------------------------------------------------------- what one cycle does

  ghost predicate Distinct<T(!new)>(xs: seq<T>) {
    forall i, j :: 0 <= i < j < |xs| ==> xs[i] != xs[j]
  }

  ghost predicate Visited(visits: seq<Visit>, key: Key) {
    exists i :: 0 <= i < |visits| && visits[i].key == key
  }

  /** Visits of other keys leave a tuning alone. */
  lemma {:induction false} UnvisitedIsUnchanged(c: Config, tunings: map<Key, Tuning>, visits: seq<Visit>, key: Key)
    requires !Visited(visits, key)
    ensures key in Run(c, tunings, visits) <==> key in tunings
    ensures key in tunings ==> Run(c, tunings, visits)[key] == tunings[key]
  {
    hide RecommendTuning;
    if visits == [] {
    } else {
      UnvisitedIsUnchanged(c, tunings, visits[..|visits| - 1], key);
    }
  }

  lemma {:induction false} RunConcat(c: Config, tunings: map<Key, Tuning>, a: seq<Visit>, b: seq<Visit>)
    ensures Run(c, tunings, a + b) == Run(c, Run(c, tunings, a), b)
  {
    hide AfterVisit;
    if b == [] {
      assert a + b == a;
    } else {
      assert (a + b)[..|a + b| - 1] == a + b[..|b| - 1];
      RunConcat(c, tunings, a, b[..|b| - 1]);
    }
  }

  /** The tuning a single visit leaves behind. */
  function NextTuning(c: Config, tunings: map<Key, Tuning>, perf: map<Key, PerformanceRow>, key: Key): Tuning {
    if key in perf then RecommendTuning(c, key.regime, perf[key], Prior(tunings, key)) else Prior(tunings, key)
  }

  /** The keys of a list of visits, which all look their rows up in `perf`. */
  ghost predicate VisitsOf(visits: seq<Visit>, perf: map<Key, PerformanceRow>) {
    forall i :: 0 <= i < |visits| ==> visits[i] == VisitOf(perf, visits[i].key)
  }

  lemma OnceVisited(c: Config, tunings: map<Key, Tuning>, visits: seq<Visit>, perf: map<Key, PerformanceRow>, i: nat)
    requires VisitsOf(visits, perf) && i < |visits|
    requires forall j :: 0 <= j < |visits| && j != i ==> visits[j].key != visits[i].key
    ensures var key := visits[i].key; var result := Run(c, tunings, visits);
            key in result && result[key] == NextTuning(c, tunings, perf, key)
  {
    hide RecommendTuning;
    var v := visits[i];
    var before, upTo := visits[..i], visits[..i + 1];
    UnvisitedIsUnchanged(c, tunings, before, v.key);
    assert upTo[..i] == before && upTo[i] == v;
    assert Run(c, tunings, upTo) == AfterVisit(c, Run(c, tunings, before), v);
    assert visits == upTo + visits[i + 1..];
    RunConcat(c, tunings, upTo, visits[i + 1..]);
    UnvisitedIsUnchanged(c, Run(c, tunings, upTo), visits[i + 1..], v.key);
  }

  ghost predicate DistinctKeys(visits: seq<Visit>) {
    forall i, j :: 0 <= i < j < |visits| ==> visits[i].key != visits[j].key
  }

  lemma {:induction false} RegimeVisitsShape(pair: string, strategy: string, regimes: seq<Regime>,
                                             perf: map<Key, PerformanceRow>)
    ensures var vs := RegimeVisits(pair, strategy, regimes, perf);
            && |vs| == |regimes|
            && forall i :: 0 <= i < |vs| ==> vs[i] == VisitOf(perf, Key(pair, strategy, regimes[i]))
  {
    if regimes == [] {
    } else {
      RegimeVisitsShape(pair, strategy, regimes[..|regimes| - 1], perf);
    }
  }

  lemma RegimesAreDistinct()
    ensures forall i, j :: 0 <= i < j < |ALL_REGIMES| ==> ALL_REGIMES[i] != ALL_REGIMES[j]
  {
  }

  lemma AllRegimesShape(pair: string, strategy: string, perf: map<Key, PerformanceRow>)
    ensures var vs := RegimeVisits(pair, strategy, ALL_REGIMES, perf);
            && VisitsOf(vs, perf) && DistinctKeys(vs)
            && forall key: Key :: Visited(vs, key) <==> key.pair == pair && key.strategy == strategy
  {
    RegimeVisitsShape(pair, strategy, ALL_REGIMES, perf);
    RegimesAreDistinct();
    hide RegimeVisits;
    var vs := RegimeVisits(pair, strategy, ALL_REGIMES, perf);
    forall key: Key | key == Key(pair, strategy, key.regime)
      ensures Visited(vs, key)
    {
      EveryRegimeListed(key.regime);
      var i :| 0 <= i < |ALL_REGIMES| && ALL_REGIMES[i] == key.regime;
      assert vs[i].key == key;
    }
  }

  lemma VisitsConcat(a: seq<Visit>, b: seq<Visit>, perf: map<Key, PerformanceRow>)
    requires VisitsOf(a, perf) && VisitsOf(b, perf)
    ensures VisitsOf(a + b, perf)
    ensures forall key: Key :: Visited(a + b, key) <==> Visited(a, key) || Visited(b, key)
    ensures DistinctKeys(a) && DistinctKeys(b) && (forall key: Key :: !(Visited(a, key) && Visited(b, key))) ==>
          DistinctKeys(a + b)
  {
    forall key: Key
      ensures Visited(a, key) || Visited(b, key) ==> Visited(a + b, key)
    {
      if Visited(a, key) {
        var i :| 0 <= i < |a| && a[i].key == key;
        assert (a + b)[i].key == key;
      } else if Visited(b, key) {
        var i :| 0 <= i < |b| && b[i].key == key;
        assert (a + b)[|a| + i].key == key;
      }
    }
    if DistinctKeys(a) && DistinctKeys(b) && (forall key: Key :: !(Visited(a, key) && Visited(b, key))) {
      forall i, j | 0 <= i < j < |a + b|
        ensures (a + b)[i].key != (a + b)[j].key
      {
        if i < |a| <= j {
          assert Visited(a, a[i].key) && Visited(b, b[j - |a|].key);
        }
      }
    }
  }

  lemma {:induction false} StrategyVisitsShape(pair: string, strategies: seq<string>, perf: map<Key, PerformanceRow>)
    ensures var vs := StrategyVisits(pair, strategies, perf);
            && VisitsOf(vs, perf)
            && (Distinct(strategies) ==> DistinctKeys(vs))
            && forall key: Key :: Visited(vs, key) <==> key.pair == pair && key.strategy in strategies
  {
    hide DistinctKeys, Visited, VisitsOf, RegimeVisits;
    if strategies != [] {
      var n := |strategies| - 1;
      StrategyVisitsShape(pair, strategies[..n], perf);
      AllRegimesShape(pair, strategies[n], perf);
      VisitsConcat(StrategyVisits(pair, strategies[..n], perf), RegimeVisits(pair, strategies[n], ALL_REGIMES, perf),
                   perf);
      assert strategies == strategies[..n] + [strategies[n]];
    } else {
      NoVisits(perf);
    }
  }

  lemma NoVisits(perf: map<Key, PerformanceRow>)
    ensures VisitsOf([], perf) && DistinctKeys([]) && forall key: Key :: !Visited([], key)
  {
  }

  lemma {:induction false} VisitsShape(pairs: seq<string>, strategies: seq<string>, perf: map<Key, PerformanceRow>)
    ensures var vs := Visits(pairs, strategies, perf);
            && VisitsOf(vs, perf)
            && (Distinct(pairs) && Distinct(strategies) ==> DistinctKeys(vs))
            && forall key: Key :: Visited(vs, key) <==> key.pair in pairs && key.strategy in strategies
  {
    hide DistinctKeys, Visited, VisitsOf, StrategyVisits;
    if pairs != [] {
      var n := |pairs| - 1;
      VisitsShape(pairs[..n], strategies, perf);
      StrategyVisitsShape(pairs[n], strategies, perf);
      VisitsConcat(Visits(pairs[..n], strategies, perf), StrategyVisits(pairs[n], strategies, perf), perf);
      assert pairs == pairs[..n] + [pairs[n]];
    } else {
      NoVisits(perf);
    }
  }

  lemma {:induction false} VisitedIsPresent(c: Config, tunings: map<Key, Tuning>, visits: seq<Visit>, key: Key)
    requires Visited(visits, key)
    ensures key in Run(c, tunings, visits)
  {
    hide RecommendTuning;
    var n := |visits| - 1;
    if visits[n].key == key {
    } else {
      var i :| 0 <= i < |visits| && visits[i].key == key;
      assert visits[..n][i].key == key;
      VisitedIsPresent(c, tunings, visits[..n], key);
    }
  }

  /** After a cycle every combination listed has a tuning, data or no data. */
  lemma ListedArePresent(c: Config, tunings: map<Key, Tuning>, pairs: seq<string>, strategies: seq<string>,
                         perf: map<Key, PerformanceRow>)
    ensures forall key: Key :: key.pair in pairs && key.strategy in strategies ==>
              key in Run(c, tunings, Visits(pairs, strategies, perf))
  {
    hide Run, Visited, Visits;
    var vs := Visits(pairs, strategies, perf);
    VisitsShape(pairs, strategies, perf);
    forall key: Key | Visited(vs, key)
      ensures key in Run(c, tunings, vs)
    {
      VisitedIsPresent(c, tunings, vs, key);
    }
  }

  /**
   A cycle over lists without repetition: every combination listed gets one recommendation from its own
   row, or keeps its tuning, or is initialised; every other tuning is untouched.
   */
  lemma CycleMeaning(c: Config, tunings: map<Key, Tuning>, pairs: seq<string>, strategies: seq<string>,
                     perf: map<Key, PerformanceRow>, key: Key)
    requires Distinct(pairs) && Distinct(strategies)
    ensures var result := Run(c, tunings, Visits(pairs, strategies, perf));
            if key.pair in pairs && key.strategy in strategies
            then key in result && result[key] == NextTuning(c, tunings, perf, key)
            else (key in result <==> key in tunings) && (key in tunings ==> result[key] == tunings[key])
  {
    hide NextTuning, AfterVisit;
    var vs := Visits(pairs, strategies, perf);
    VisitsShape(pairs, strategies, perf);
    if Visited(vs, key) {
      var i :| 0 <= i < |vs| && vs[i].key == key;
      OnceVisited(c, tunings, vs, perf, i);
    } else {
      UnvisitedIsUnchanged(c, tunings, vs, key);
    }
  }

  // ---------------------------------------------------------------- every reachable tuning

  /** Any number of cycles, over any lists and any rows, from a learner without tunings. */
  lemma {:induction false} ReachableTunings(c: Config, visits: seq<Visit>, key: Key)
    requires SoundConfig(c)
    ensures var result := Run(c, map[], visits);
            key in result ==> InReach(result[key])
  {
    hide RecommendTuning;
    if visits == [] {
    } else {
      var n := |visits| - 1;
      ReachableTunings(c, visits[..n], key);
      var v := visits[n];
      if v.key == key && v.row.Some? {
        RecommendationIsBounded(c, key.regime, v.row.value, Prior(Run(c, map[], visits[..n]), key));
      }
    }
  }

  /** A visit of the key with a row that disables its regime. */
  predicate IsDanger(v: Visit, key: Key) {
    v.key == key && (key.regime == Chaotic || key.regime == Illiquid) && v.row.Some? && v.row.value.score < 0.0
  }

  ghost predicate SawDanger(visits: seq<Visit>, key: Key) {
    exists i :: 0 <= i < |visits| && IsDanger(visits[i], key)
  }

  /** A regime is disabled for good exactly from the first dangerous row of its own key on; nothing ever clears it. */
  lemma {:induction false} DisabledExactlyAfterDanger(c: Config, visits: seq<Visit>, key: Key)
    ensures Prior(Run(c, map[], visits), key).disabledRegimes == if SawDanger(visits, key) then {key.regime} else {}
  {
    hide SmoothValue, TargetSize, TargetMinEdge, TargetCoolDown, SmoothedCoolDown;
    if visits == [] {
    } else {
      var n := |visits| - 1;
      DisabledExactlyAfterDanger(c, visits[..n], key);
      DangerGrows(visits, key);
    }
  }

  lemma DangerGrows(visits: seq<Visit>, key: Key)
    requires visits != []
    ensures var n := |visits| - 1;
            SawDanger(visits, key) <==> SawDanger(visits[..n], key) || IsDanger(visits[n], key)
  {
    hide IsDanger;
    var n := |visits| - 1;
    if SawDanger(visits[..n], key) {
      var i :| 0 <= i < n && IsDanger(visits[..n][i], key);
      assert IsDanger(visits[i], key);
    }
    if SawDanger(visits, key) {
      var i :| 0 <= i <= n && IsDanger(visits[i], key);
      if i < n {
        assert IsDanger(visits[..n][i], key);
      }
    }
  }

  /** Whatever a later cycle does, it adds to the disabled regimes of a key and never removes one. */
  lemma {:induction false} DisabledNeverShrinks(c: Config, tunings: map<Key, Tuning>, visits: seq<Visit>, key: Key)
    ensures Prior(tunings, key).disabledRegimes <= Prior(Run(c, tunings, visits), key).disabledRegimes
  {
    hide SmoothValue, TargetSize, TargetMinEdge, TargetCoolDown, SmoothedCoolDown;
    if visits == [] {
    } else {
      DisabledNeverShrinks(c, tunings, visits[..|visits| - 1], key);
    }
  }
}
