/** Regime-based trading policy: smoothing, hysteresis and sizing (src/analytics/regimePolicy.ts). */
module RegimePolicy {
  import opened Basics
  import opened Regimes

  datatype Cell = Cell(score: real, trades: nat)

  datatype Heatmap = Heatmap(global: map<Regime, Cell>, perStrategy: map<string, map<Regime, Cell>>)

  datatype Config = Config(minTrades: int, alpha: real, disableScoreBps: real, enableScoreBps: real,
                           minSize: real, maxSize: real, sizeStep: real)

  datatype SizePolicy = SizePolicy(multiplier: real, smoothedScore: real, rawScore: real, trades: nat)

  datatype StrategyPolicy = StrategyPolicy(disabledRegimes: seq<Regime>, sizeByRegime: map<Regime, SizePolicy>)

  /** `regimeCounts` are the trades behind the global entry. */
  datatype Policy = Policy(global: StrategyPolicy, strategies: map<string, StrategyPolicy>,
                           regimeCounts: map<Regime, nat>)

  // ---------------------------------------------------------------- one regime, one update

  /** What is remembered of a regime between updates. */
  datatype RegimeState = RegimeState(smoothed: real, disabled: bool)

  function CellOf(stats: map<Regime, Cell>, r: Regime): Cell {
    if r in stats then stats[r] else Cell(0.0, 0)
  }

  function ScoreOf(smoothed: map<Regime, real>, r: Regime): real {
    if r in smoothed then smoothed[r] else 0.0
  }

  function Smooth(alpha: real, raw: real, previous: real): real {
    alpha * raw + (1.0 - alpha) * previous
  }

  predicate ShouldDisable(c: Config, currentlyDisabled: bool, smoothed: real, trades: nat) {
    if trades >= c.minTrades then
      if currentlyDisabled then smoothed < c.enableScoreBps else smoothed < c.disableScoreBps
    else trades > 0 && currentlyDisabled
  }

  function UpdateRegime(c: Config, s: RegimeState, cell: Cell): RegimeState {
    var smoothed := Smooth(c.alpha, cell.score, s.smoothed);
    RegimeState(smoothed, ShouldDisable(c, s.disabled, smoothed, cell.trades))
  }

  /** What a heatmap holds for one regime of one strategy. */
  datatype Update = Absent | Listed(cell: Cell)

  function UpdateOf(heatmap: Heatmap, strategy: string, r: Regime): Update {
    if strategy in heatmap.perStrategy then Listed(CellOf(heatmap.perStrategy[strategy], r)) else Absent
  }

  /** A strategy missing from the heatmap keeps its smoothed scores but loses its disabled regimes. */
  function UpdateStrategy(c: Config, s: RegimeState, u: Update): RegimeState {
    if u.Absent? then RegimeState(s.smoothed, false) else UpdateRegime(c, s, u.cell)
  }

  /** Clamped to the bounds, then rounded to the step. */
  function Quantized(multiplier: real, step: real): real
    requires step != 0.0
  {
    Round(multiplier / step) as real * step
  }

  function Clamped(score: real, c: Config): real {
    Max(c.minSize, Min(c.maxSize, 1.0 + score / 100.0))
  }

  function ScoreToSizeMultiplier(score: real, c: Config): real
    requires c.sizeStep != 0.0
  {
    Quantized(Clamped(score, c), c.sizeStep)
  }

  /** What a policy records for one regime, given the smoothed score before the update. */
  function SizeEntry(c: Config, previousSmoothed: real, cell: Cell): SizePolicy
    requires c.sizeStep != 0.0
  {
    var smoothed := Smooth(c.alpha, cell.score, previousSmoothed);
    SizePolicy(ScoreToSizeMultiplier(smoothed, c), smoothed, cell.score, cell.trades)
  }

  // ---------------------------------------------------------------- the engine

  class RegimePolicyEngine {
    const config: Config
    var currentPolicy: Option<Policy>
    var smoothedGlobal: map<Regime, real>
    var smoothedStrategies: map<string, map<Regime, real>>

    function WasDisabled(): set<Regime>
      reads `currentPolicy
    {
      if currentPolicy.None? then {} else set r | r in currentPolicy.value.global.disabledRegimes
    }

    function StrategyDisabled(strategy: string): set<Regime>
      reads `currentPolicy
    {
      if currentPolicy.None? || strategy !in currentPolicy.value.strategies then {}
      else set r | r in currentPolicy.value.strategies[strategy].disabledRegimes
    }

    /** The entity name decides where the hysteresis looks, so a strategy called "global" reads the global policy. */
    function WasDisabledFor(entityName: string): set<Regime>
      reads `currentPolicy
    {
      if entityName == "global" then WasDisabled() else StrategyDisabled(entityName)
    }

    function SmoothedFor(strategy: string): map<Regime, real>
      reads `smoothedStrategies
    {
      if strategy in smoothedStrategies then smoothedStrategies[strategy] else map[]
    }

    ghost function GlobalState(r: Regime): RegimeState
      reads `currentPolicy, `smoothedGlobal
    {
      RegimeState(ScoreOf(smoothedGlobal, r), r in WasDisabled())
    }

    ghost function StrategyState(strategy: string, r: Regime): RegimeState
      reads `currentPolicy, `smoothedStrategies
    {
      RegimeState(ScoreOf(SmoothedFor(strategy), r), r in StrategyDisabled(strategy))
    }

    /** The state a strategy's update starts from. */
    ghost function StrategyPrior(strategy: string, r: Regime): RegimeState
      reads this
    {
      if strategy == "global" then StrategyState(strategy, r).(disabled := GlobalState(r).disabled)
      else StrategyState(strategy, r)
    }

    /** The policy sizes every regime from the score smoothed with what was remembered before. */
    ghost predicate SizesFollow(policy: StrategyPolicy, previousSmoothed: map<Regime, real>,
                                regimeStats: map<Regime, Cell>) {
      config.sizeStep != 0.0
      && forall r :: r in policy.sizeByRegime
                     && policy.sizeByRegime[r]
                          == SizeEntry(config, ScoreOf(previousSmoothed, r), CellOf(regimeStats, r))
    }

    constructor (config: Config)
      ensures this.config == config
      ensures forall r :: GlobalState(r) == RegimeState(0.0, false)
      ensures forall s, r :: StrategyState(s, r) == RegimeState(0.0, false)
    {
      this.config := config;
      currentPolicy := None;
      smoothedGlobal := map[];
      smoothedStrategies := map[];
    }

    /** The loop over regimes for one entity. */
    method ComputeStrategyPolicy(regimeStats: map<Regime, Cell>, previousSmoothed: map<Regime, real>,
                                 wasDisabled: set<Regime>)
      returns (policy: StrategyPolicy)
      requires config.sizeStep != 0.0
      ensures forall r :: r in policy.disabledRegimes <==>
                UpdateRegime(config, RegimeState(ScoreOf(previousSmoothed, r), r in wasDisabled),
                             CellOf(regimeStats, r)).disabled
      ensures SizesFollow(policy, previousSmoothed, regimeStats)
    {
      hide Smooth, ScoreToSizeMultiplier, ShouldDisable;
      var disabledRegimes: seq<Regime> := [];
      var sizeByRegime: map<Regime, SizePolicy> := map[];
      for i := 0 to |ALL_REGIMES|
        invariant forall r :: r in disabledRegimes <==>
                    r in ALL_REGIMES[..i]
                    && ShouldDisable(config, r in wasDisabled,
                                     Smooth(config.alpha, CellOf(regimeStats, r).score, ScoreOf(previousSmoothed, r)),
                                     CellOf(regimeStats, r).trades)
        invariant forall r :: r in ALL_REGIMES[..i] ==>
                    r in sizeByRegime
                    && sizeByRegime[r] == SizeEntry(config, ScoreOf(previousSmoothed, r), CellOf(regimeStats, r))
      {
        var regime := ALL_REGIMES[i];
        assert ALL_REGIMES[..i + 1] == ALL_REGIMES[..i] + [regime];
        var cell := CellOf(regimeStats, regime);
        var smoothedScore := Smooth(config.alpha, cell.score, ScoreOf(previousSmoothed, regime));
        var shouldDisable := ShouldDisable(config, regime in wasDisabled, smoothedScore, cell.trades);
        if shouldDisable {
          disabledRegimes := disabledRegimes + [regime];
        }
        var multiplier := ScoreToSizeMultiplier(smoothedScore, config);
        sizeByRegime := sizeByRegime[regime := SizePolicy(multiplier, smoothedScore, cell.score, cell.trades)];
      }
      forall r
        ensures r in ALL_REGIMES[..|ALL_REGIMES|]
      {
        EveryRegimeListed(r);
      }
      policy := StrategyPolicy(disabledRegimes, sizeByRegime);
    }

    /** The smoothed scores a policy carries, regime by regime. */
    method SmoothedOf(policy: StrategyPolicy) returns (smoothed: map<Regime, real>)
      requires forall r :: r in policy.sizeByRegime
      ensures forall r :: r in smoothed && smoothed[r] == policy.sizeByRegime[r].smoothedScore
    {
      smoothed := map[];
      for i := 0 to |ALL_REGIMES|
        invariant forall r :: r in ALL_REGIMES[..i] ==>
              r in smoothed && smoothed[r] == policy.sizeByRegime[r].smoothedScore
      {
        assert ALL_REGIMES[..i + 1] == ALL_REGIMES[..i] + [ALL_REGIMES[i]];
        smoothed := smoothed[ALL_REGIMES[i] := policy.sizeByRegime[ALL_REGIMES[i]].smoothedScore];
      }
      forall r
        ensures r in ALL_REGIMES[..|ALL_REGIMES|]
      {
        EveryRegimeListed(r);
      }
    }

    /** Trades of every regime, 0 where the heatmap has no cell. */
    method TradesOf(regimeStats: map<Regime, Cell>) returns (counts: map<Regime, nat>)
      ensures forall r :: r in counts && counts[r] == CellOf(regimeStats, r).trades
    {
      counts := map[];
      for i := 0 to |ALL_REGIMES|
        invariant forall r :: r in ALL_REGIMES[..i] ==> r in counts && counts[r] == CellOf(regimeStats, r).trades
      {
        assert ALL_REGIMES[..i + 1] == ALL_REGIMES[..i] + [ALL_REGIMES[i]];
        counts := counts[ALL_REGIMES[i] := CellOf(regimeStats, ALL_REGIMES[i]).trades];
      }
      forall r
        ensures r in ALL_REGIMES[..|ALL_REGIMES|]
      {
        EveryRegimeListed(r);
      }
    }

    /** The global entry: its policy, with the global smoothed scores moved on in place. */
    method RecomputeGlobal(regimeStats: map<Regime, Cell>) returns (policy: StrategyPolicy)
      requires config.sizeStep != 0.0
      modifies `smoothedGlobal
      ensures forall r :: RegimeState(ScoreOf(smoothedGlobal, r), r in policy.disabledRegimes)
                       == UpdateRegime(config, old(GlobalState(r)), CellOf(regimeStats, r))
      ensures SizesFollow(policy, old(smoothedGlobal), regimeStats)
    {
      hide Smooth, ScoreToSizeMultiplier, ShouldDisable;
      policy := ComputeStrategyPolicy(regimeStats, smoothedGlobal, WasDisabled());
      smoothedGlobal := SmoothedOf(policy);
    }

    /** One strategy of the heatmap: its policy, with its smoothed scores moved on in place. */
    method RecomputeStrategy(strategy: string, regimeStats: map<Regime, Cell>) returns (policy: StrategyPolicy)
      requires config.sizeStep != 0.0
      modifies `smoothedStrategies
      ensures forall s :: s != strategy ==> SmoothedFor(s) == old(SmoothedFor(s))
      ensures forall r :: RegimeState(ScoreOf(SmoothedFor(strategy), r), r in policy.disabledRegimes)
                       == UpdateRegime(config, old(StrategyPrior(strategy, r)), CellOf(regimeStats, r))
      ensures SizesFollow(policy, old(SmoothedFor(strategy)), regimeStats)
    {
      hide Smooth, ScoreToSizeMultiplier, ShouldDisable;
      policy := ComputeStrategyPolicy(regimeStats, SmoothedFor(strategy), WasDisabledFor(strategy));
      var smoothed := SmoothedOf(policy);
      smoothedStrategies := smoothedStrategies[strategy := smoothed];
    }

    /** The loop over the strategies of the heatmap. */
    method RecomputeStrategies(perStrategy: map<string, map<Regime, Cell>>)
      returns (strategies: map<string, StrategyPolicy>)
      requires config.sizeStep != 0.0
      modifies `smoothedStrategies
      ensures strategies.Keys == perStrategy.Keys
      ensures forall s :: s !in perStrategy ==> SmoothedFor(s) == old(SmoothedFor(s))
      ensures forall s, r :: s in perStrategy ==>
                RegimeState(ScoreOf(SmoothedFor(s), r), r in strategies[s].disabledRegimes)
                == UpdateRegime(config, old(StrategyPrior(s, r)), CellOf(perStrategy[s], r))
      ensures forall s :: s in perStrategy ==> SizesFollow(strategies[s], old(SmoothedFor(s)), perStrategy[s])
    {
      hide UpdateRegime, ScoreOf, CellOf, SizesFollow;
      strategies := map[];
      var todo := perStrategy.Keys;
      while todo != {}
        invariant todo <= perStrategy.Keys && strategies.Keys == perStrategy.Keys - todo
        invariant forall s :: s !in strategies ==> SmoothedFor(s) == old(SmoothedFor(s))
        invariant forall s, r :: s in strategies ==>
                    RegimeState(ScoreOf(SmoothedFor(s), r), r in strategies[s].disabledRegimes)
                    == UpdateRegime(config, old(StrategyPrior(s, r)), CellOf(perStrategy[s], r))
        invariant forall s :: s in strategies ==> SizesFollow(strategies[s], old(SmoothedFor(s)), perStrategy[s])
        decreases todo
      {
        var strategy :| strategy in todo;
        assert forall r :: StrategyPrior(strategy, r) == old(StrategyPrior(strategy, r));
        var strategyPolicy := RecomputeStrategy(strategy, perStrategy[strategy]);
        strategies := strategies[strategy := strategyPolicy];
        todo := todo - {strategy};
      }
    }

    /**
     Rebuilds the policy. The global entry and every strategy move one update on, listed or not.
     */
    method Recompute(heatmap: Heatmap)
      requires config.sizeStep != 0.0
      modifies this
      ensures currentPolicy.Some?
      ensures forall r :: GlobalState(r) == UpdateRegime(config, old(GlobalState(r)), CellOf(heatmap.global, r))
      ensures forall s, r ::
                StrategyState(s, r) == UpdateStrategy(config, old(StrategyPrior(s, r)), UpdateOf(heatmap, s, r))
      ensures SizesFollow(currentPolicy.value.global, old(smoothedGlobal), heatmap.global)
      ensures currentPolicy.value.strategies.Keys == heatmap.perStrategy.Keys
      ensures forall s :: s in heatmap.perStrategy ==>
                SizesFollow(currentPolicy.value.strategies[s], old(SmoothedFor(s)), heatmap.perStrategy[s])
      ensures forall r :: r in currentPolicy.value.regimeCounts
                          && currentPolicy.value.regimeCounts[r] == CellOf(heatmap.global, r).trades
    {
      hide UpdateRegime, ScoreOf, CellOf, SizesFollow, SmoothedFor;
      var regimeCounts := TradesOf(heatmap.global);
      var global := RecomputeGlobal(heatmap.global);
      var strategies := RecomputeStrategies(heatmap.perStrategy);
      currentPolicy := Some(Policy(global, strategies, regimeCounts));
    }
  }

  // ---------------------------------------------------------------- runs of one regime

  ghost predicate SmoothingConfig(c: Config) {
    0.0 <= c.alpha <= 1.0 && c.disableScoreBps < c.enableScoreBps
  }

  const FRESH := RegimeState(0.0, false)

  function Run(c: Config, s: RegimeState, cells: seq<Cell>): RegimeState {
    if cells == [] then s else UpdateRegime(c, Run(c, s, cells[..|cells| - 1]), cells[|cells| - 1])
  }

  /**
   One update of a regime in the heatmap's numbers; a regime that is not listed counts as score 0 without trades. The
   smoothed score moves by its share of the gap. With enough trades a score below the lower threshold disables, one at
   or above the upper enables, and between them nothing changes; nor does it with too few. No trades enable.
   */
  lemma UpdateMeaning(c: Config, s: RegimeState, stats: map<Regime, Cell>, r: Regime, score: real, trades: nat)
    requires SmoothingConfig(c) && c.minTrades > 0
    requires if r in stats then score == stats[r].score && trades == stats[r].trades else score == 0.0 && trades == 0
    ensures var next := UpdateRegime(c, s, CellOf(stats, r));
            && next.smoothed - s.smoothed == c.alpha * (score - s.smoothed)
            && (trades >= c.minTrades && next.smoothed < c.disableScoreBps ==> next.disabled)
            && (trades >= c.minTrades && next.smoothed >= c.enableScoreBps ==> !next.disabled)
            && (trades >= c.minTrades && c.disableScoreBps <= next.smoothed < c.enableScoreBps ==>
                  next.disabled == s.disabled)
            && (0 < trades < c.minTrades ==> next.disabled == s.disabled)
            && (trades == 0 ==> !next.disabled)
  {
  }

  /** Too few trades at every update: whatever the scores, a regime stays as it was. */
  lemma {:induction false} FewTradesChangeNothing(c: Config, s: RegimeState, cells: seq<Cell>)
    requires forall i :: 0 <= i < |cells| ==> 0 < cells[i].trades < c.minTrades
    ensures Run(c, s, cells).disabled == s.disabled
  {
    hide Smooth;
    if cells == [] {
    } else {
      FewTradesChangeNothing(c, s, cells[..|cells| - 1]);
    }
  }

  /** Scores as the heatmap delivers them, with trades at every update. */
  ghost predicate Fed(cells: seq<Cell>) {
    forall i :: 0 <= i < |cells| ==> -100.0 <= cells[i].score <= 100.0 && cells[i].trades > 0
  }

  lemma SmoothIsBetween(alpha: real, raw: real, previous: real, bound: real)
    requires 0.0 <= alpha <= 1.0
    ensures raw <= bound && previous <= bound ==> Smooth(alpha, raw, previous) <= bound
    ensures raw >= bound && previous >= bound ==> Smooth(alpha, raw, previous) >= bound
    ensures raw < bound && previous < bound ==> Smooth(alpha, raw, previous) < bound
  {
    var x, y := raw - bound, previous - bound;
    assert Smooth(alpha, raw, previous) - bound == alpha * x + (1.0 - alpha) * y;
    MixSign(alpha, x, y);
  }

  lemma MixSign(alpha: real, x: real, y: real)
    requires 0.0 <= alpha <= 1.0
    ensures x <= 0.0 && y <= 0.0 ==> alpha * x + (1.0 - alpha) * y <= 0.0
    ensures x >= 0.0 && y >= 0.0 ==> alpha * x + (1.0 - alpha) * y >= 0.0
    ensures x < 0.0 && y < 0.0 ==> alpha * x + (1.0 - alpha) * y < 0.0
  {
    if x <= 0.0 && y <= 0.0 {
      ProductNonPositive(alpha, x);
      ProductNonPositive(1.0 - alpha, y);
      if x < 0.0 && y < 0.0 && alpha > 0.0 {
        PositiveProduct(alpha, -x);
      }
    }
    if x >= 0.0 && y >= 0.0 {
      ProductNonNegative(alpha, x);
      ProductNonNegative(1.0 - alpha, y);
    }
  }

  /** Smoothed scores stay within the range of the raw ones. */
  lemma {:induction false} SmoothedStaysInRange(c: Config, cells: seq<Cell>)
    requires SmoothingConfig(c) && Fed(cells)
    ensures -100.0 <= Run(c, FRESH, cells).smoothed <= 100.0
  {
    hide Smooth;
    if cells == [] {
    } else {
      var n := |cells| - 1;
      SmoothedStaysInRange(c, cells[..n]);
      SmoothIsBetween(c.alpha, cells[n].score, Run(c, FRESH, cells[..n]).smoothed, 100.0);
      SmoothIsBetween(c.alpha, cells[n].score, Run(c, FRESH, cells[..n]).smoothed, -100.0);
    }
  }

  /** Below the enable score a disabled regime stays disabled while raw scores stay below it too. */
  lemma {:induction false} StaysDisabled(c: Config, s: RegimeState, cells: seq<Cell>)
    requires SmoothingConfig(c) && s.disabled && s.smoothed < c.enableScoreBps
    requires forall i :: 0 <= i < |cells| ==> cells[i].trades > 0 && cells[i].score < c.enableScoreBps
    ensures Run(c, s, cells).disabled && Run(c, s, cells).smoothed < c.enableScoreBps
  {
    hide Smooth;
    if cells == [] {
    } else {
      var n := |cells| - 1;
      StaysDisabled(c, s, cells[..n]);
      SmoothIsBetween(c.alpha, cells[n].score, Run(c, s, cells[..n]).smoothed, c.enableScoreBps);
    }
  }

  /** At or above the disable score an enabled regime stays enabled while raw scores do too. */
  lemma {:induction false} StaysEnabled(c: Config, s: RegimeState, cells: seq<Cell>)
    requires SmoothingConfig(c) && !s.disabled && s.smoothed >= c.disableScoreBps
    requires forall i :: 0 <= i < |cells| ==> cells[i].score >= c.disableScoreBps
    ensures !Run(c, s, cells).disabled && Run(c, s, cells).smoothed >= c.disableScoreBps
  {
    hide Smooth;
    if cells == [] {
    } else {
      var n := |cells| - 1;
      StaysEnabled(c, s, cells[..n]);
      SmoothIsBetween(c.alpha, cells[n].score, Run(c, s, cells[..n]).smoothed, c.disableScoreBps);
    }
  }

  lemma {:induction false} RunContinues(c: Config, s: RegimeState, a: seq<Cell>, b: seq<Cell>)
    ensures Run(c, s, a + b) == Run(c, Run(c, s, a), b)
  {
    hide UpdateRegime;
    if b == [] {
      assert a + b == a;
    } else {
      var n := |b| - 1;
      assert (a + b)[..|a| + n] == a + b[..n];
      RunContinues(c, s, a, b[..n]);
    }
  }

  function StateAfter(c: Config, cells: seq<Cell>, n: nat): RegimeState
    requires n <= |cells|
  {
    Run(c, FRESH, cells[..n])
  }

  lemma StateSteps(c: Config, cells: seq<Cell>, m: nat, n: nat)
    requires m <= n <= |cells|
    ensures StateAfter(c, cells, n) == Run(c, StateAfter(c, cells, m), cells[m..n])
  {
    assert cells[..n] == cells[..m] + cells[m..n];
    RunContinues(c, FRESH, cells[..m], cells[m..n]);
  }

  /**
   Between a disable (update i) and any later moment j at which the regime is enabled again, some raw
   score reached the enable score.
   */
  lemma ReEnableNeedsGoodScore(c: Config, cells: seq<Cell>, i: nat, j: nat)
    requires SmoothingConfig(c) && Fed(cells) && i + 1 <= j <= |cells|
    requires !StateAfter(c, cells, i).disabled && StateAfter(c, cells, i + 1).disabled
    requires !StateAfter(c, cells, j).disabled
    ensures exists k :: i < k < j && cells[k].score >= c.enableScoreBps
  {
    hide Smooth;
    var s := StateAfter(c, cells, i + 1);
    StateSteps(c, cells, i, i + 1);
    assert cells[i..i + 1] == [cells[i]] && [cells[i]][..0] == [];
    StateSteps(c, cells, i + 1, j);
    if forall k :: i < k < j ==> cells[k].score < c.enableScoreBps {
      StaysDisabled(c, s, cells[i + 1..j]);
    }
  }

  /** After a re-enable (update i), a disable by moment j needs some raw score below the disable score in between. */
  lemma DisableAfterReEnableNeedsBadScore(c: Config, cells: seq<Cell>, i: nat, j: nat)
    requires SmoothingConfig(c) && Fed(cells) && i + 1 <= j <= |cells|
    requires StateAfter(c, cells, i).disabled && !StateAfter(c, cells, i + 1).disabled
    requires StateAfter(c, cells, j).disabled
    ensures exists k :: i < k < j && cells[k].score < c.disableScoreBps
  {
    hide Smooth;
    var s := StateAfter(c, cells, i + 1);
    StateSteps(c, cells, i, i + 1);
    assert cells[i..i + 1] == [cells[i]] && [cells[i]][..0] == [];
    StateSteps(c, cells, i + 1, j);
    if forall k :: i < k < j ==> cells[k].score >= c.disableScoreBps {
      StaysEnabled(c, s, cells[i + 1..j]);
    }
  }

  /** From the start, no run without a raw score below the disable score ever disables the regime. */
  ghost predicate FirstDisableNeedsBadScore(c: Config) {
    forall cells: seq<Cell> :: Fed(cells) && (forall k :: 0 <= k < |cells| ==> cells[k].score >= c.disableScoreBps) ==>
      !Run(c, FRESH, cells).disabled
  }

  /**
   Smoothing starts at 0, so for the first disable the promise holds exactly when 0 is no bad score,
   or nothing is smoothed, or no score can reach the threshold at all.
   */
  lemma FirstDisableNeedsBadScoreIff(c: Config)
    requires SmoothingConfig(c)
    ensures FirstDisableNeedsBadScore(c) <==> c.disableScoreBps <= 0.0 || c.alpha == 1.0 || c.disableScoreBps > 100.0
  {
    if c.disableScoreBps <= 0.0 || c.alpha == 1.0 || c.disableScoreBps > 100.0 {
      forall cells: seq<Cell> | Fed(cells) && forall k :: 0 <= k < |cells| ==> cells[k].score >= c.disableScoreBps
        ensures !Run(c, FRESH, cells).disabled
      {
        if c.disableScoreBps <= 0.0 {
          StaysEnabled(c, FRESH, cells);
        } else if c.alpha == 1.0 {
          UnsmoothedStaysEnabled(c, cells);
        } else {
          if cells != [] { ReachableThreshold(c, cells); }
        }
      }
    } else {
      WarmUpDisables(c);
    }
  }

  lemma ReachableThreshold(c: Config, cells: seq<Cell>)
    requires Fed(cells) && cells != [] && forall k :: 0 <= k < |cells| ==> cells[k].score >= c.disableScoreBps
    ensures c.disableScoreBps <= 100.0
  {
    assert cells[0].score <= 100.0;
  }

  lemma {:induction false} UnsmoothedStaysEnabled(c: Config, cells: seq<Cell>)
    requires c.alpha == 1.0 && forall k :: 0 <= k < |cells| ==> cells[k].score >= c.disableScoreBps
    ensures !Run(c, FRESH, cells).disabled
  {
    if cells == [] {
    } else {
      UnsmoothedStaysEnabled(c, cells[..|cells| - 1]);
    }
  }

  /** One update at the disable score itself: the smoothed score is still on its way up from 0. */
  lemma WarmUpDisables(c: Config)
    requires SmoothingConfig(c) && 0.0 < c.disableScoreBps <= 100.0 && c.alpha < 1.0
    ensures !FirstDisableNeedsBadScore(c)
  {
    var cells := [Cell(c.disableScoreBps, MaxInt(1, c.minTrades))];
    assert cells[..0] == [];
    PositiveProduct(1.0 - c.alpha, c.disableScoreBps);
    assert c.alpha * c.disableScoreBps < c.disableScoreBps;
    assert Run(c, FRESH, cells[..0]) == FRESH;
    assert Smooth(c.alpha, c.disableScoreBps, 0.0) == c.alpha * c.disableScoreBps;
    assert Run(c, FRESH, cells) == UpdateRegime(c, FRESH, cells[0]);
    assert Fed(cells);
  }

  /**
   While no raw score reaches the enable score, a disabled regime is disabled after every update
   exactly when every update has trades: one update without any re-enables it silently.
   */
  lemma NeverReEnabledIffAlwaysTrades(c: Config, s: RegimeState, cells: seq<Cell>)
    requires SmoothingConfig(c) && c.minTrades > 0 && s.disabled && s.smoothed < c.enableScoreBps
    requires forall i :: 0 <= i < |cells| ==> cells[i].score < c.enableScoreBps
    ensures (forall n :: 0 <= n <= |cells| ==> Run(c, s, cells[..n]).disabled)
       <==> forall i :: 0 <= i < |cells| ==> cells[i].trades > 0
  {
    hide Smooth;
    if forall i :: 0 <= i < |cells| ==> cells[i].trades > 0 {
      forall n | 0 <= n <= |cells|
        ensures Run(c, s, cells[..n]).disabled
      {
        StaysDisabled(c, s, cells[..n]);
      }
    } else {
      var i :| 0 <= i < |cells| && cells[i].trades == 0;
      assert cells[..i + 1][..i] == cells[..i];
      assert !Run(c, s, cells[..i + 1]).disabled;
    }
  }

  /** A strategy's regime along a sequence of heatmaps. */
  function StrategyRun(c: Config, s: RegimeState, updates: seq<Update>): RegimeState {
    if updates == [] then s
    else UpdateStrategy(c, StrategyRun(c, s, updates[..|updates| - 1]), updates[|updates| - 1])
  }

  lemma {:induction false} ListedStaysDisabled(c: Config, s: RegimeState, updates: seq<Update>)
    requires SmoothingConfig(c) && s.disabled && s.smoothed < c.enableScoreBps
    requires forall i :: 0 <= i < |updates| ==>
               updates[i].Listed? && updates[i].cell.trades > 0 && updates[i].cell.score < c.enableScoreBps
    ensures StrategyRun(c, s, updates).disabled && StrategyRun(c, s, updates).smoothed < c.enableScoreBps
  {
    hide Smooth;
    if updates == [] {
    } else {
      var n := |updates| - 1;
      var was := StrategyRun(c, s, updates[..n]);
      ListedStaysDisabled(c, s, updates[..n]);
      SmoothIsBetween(c.alpha, updates[n].cell.score, was.smoothed, c.enableScoreBps);
    }
  }

  /**
   For a strategy there is a second way out: while no raw score reaches the enable score, a disabled regime of a
   strategy is disabled after every update exactly when every heatmap lists the strategy, with trades there.
   */
  lemma StrategyStaysDisabledIff(c: Config, s: RegimeState, updates: seq<Update>)
    requires SmoothingConfig(c) && c.minTrades > 0 && s.disabled && s.smoothed < c.enableScoreBps
    requires forall i :: 0 <= i < |updates| && updates[i].Listed? ==> updates[i].cell.score < c.enableScoreBps
    ensures (forall n :: 0 <= n <= |updates| ==> StrategyRun(c, s, updates[..n]).disabled)
       <==> forall i :: 0 <= i < |updates| ==> updates[i].Listed? && updates[i].cell.trades > 0
  {
    hide Smooth;
    if forall i :: 0 <= i < |updates| ==> updates[i].Listed? && updates[i].cell.trades > 0 {
      forall n | 0 <= n <= |updates|
        ensures StrategyRun(c, s, updates[..n]).disabled
      {
        ListedStaysDisabled(c, s, updates[..n]);
      }
    } else {
      var i :| 0 <= i < |updates| && !(updates[i].Listed? && updates[i].cell.trades > 0);
      assert updates[..i + 1][..i] == updates[..i];
      assert !StrategyRun(c, s, updates[..i + 1]).disabled;
    }
  }

  /** A disabled regime far below the enable score: one update without trades enables it, whatever its score. */
  lemma SilentReEnable()
    ensures var c := Config(30, 0.2, -5.0, 2.0, 0.2, 1.2, 0.1);
            var s := RegimeState(-50.0, true);
            && SmoothingConfig(c) && Run(c, s, [Cell(-50.0, 30)]).disabled
            && !Run(c, s, [Cell(-50.0, 0)]).disabled && Run(c, s, [Cell(-50.0, 0)]).smoothed == -50.0
  {
    assert [Cell(-50.0, 30)][..0] == [] && [Cell(-50.0, 0)][..0] == [];
  }

  // ---------------------------------------------------------------- sizing

  lemma ScaledGap(q: real, r: real, step: real, qs: real, rs: real)
    requires step > 0.0 && -0.5 <= r - q <= 0.5 && qs == q * step && rs == r * step
    ensures -0.5 * step <= rs - qs <= 0.5 * step
  {
    NonNegativeProduct(0.5 - (r - q), step, 0.5 * step - rs + qs);
    NonNegativeProduct(0.5 + (r - q), step, 0.5 * step + rs - qs);
  }

  lemma QuantizedNear(m: real, step: real)
    requires step > 0.0
    ensures -0.5 * step <= Quantized(m, step) - m <= 0.5 * step
  {
    hide Round;
    QuotientTimes(m, step);
    RoundIsNearest(m / step);
    ScaledGap(m / step, Round(m / step) as real, step, m, Quantized(m, step));
  }

  lemma QuantizedMonotone(a: real, b: real, step: real)
    requires step > 0.0 && a <= b
    ensures Quantized(a, step) <= Quantized(b, step)
  {
    DivideLe(a, step, b, step) by { ScaleLe(a, b, step); }
    ScaleLe(Round(a / step) as real, Round(b / step) as real, step);
  }

  /** A better score never means a smaller size, and the size is within half a step of the clamped value. */
  lemma SizeFollowsScore(s1: real, s2: real, c: Config)
    requires c.sizeStep > 0.0 && s1 <= s2
    ensures ScoreToSizeMultiplier(s1, c) <= ScoreToSizeMultiplier(s2, c)
    ensures Abs(ScoreToSizeMultiplier(s1, c) - Clamped(s1, c)) <= 0.5 * c.sizeStep
  {
    hide Quantized;
    QuantizedMonotone(Clamped(s1, c), Clamped(s2, c), c.sizeStep);
    QuantizedNear(Clamped(s1, c), c.sizeStep);
  }

  /** With a maximum of 1.25 and steps of 0.1 the best score gets a size of 1.3. */
  lemma RoundingExceedsMaximum()
    ensures ScoreToSizeMultiplier(100.0, Config(30, 0.2, -5.0, 2.0, 0.2, 1.25, 0.1)) == 1.3
  {
    assert 1.25 / 0.1 == 12.5;
    assert Round(12.5) == 13;
  }

  /** Rounding follows clamping, so the bounds hold for every score exactly when they survive the rounding. */
  lemma SizeWithinBoundsIff(c: Config)
    requires c.sizeStep > 0.0 && c.minSize <= c.maxSize
    ensures (forall score: real :: c.minSize <= ScoreToSizeMultiplier(score, c) <= c.maxSize)
       <==> Quantized(c.minSize, c.sizeStep) >= c.minSize && Quantized(c.maxSize, c.sizeStep) <= c.maxSize
  {
    hide Quantized;
    var low, high := (c.minSize - 1.0) * 100.0, (c.maxSize - 1.0) * 100.0;
    assert Clamped(low, c) == c.minSize && Clamped(high, c) == c.maxSize;
    assert ScoreToSizeMultiplier(low, c) == Quantized(c.minSize, c.sizeStep);
    assert ScoreToSizeMultiplier(high, c) == Quantized(c.maxSize, c.sizeStep);
    forall score: real
      ensures Quantized(c.minSize, c.sizeStep) <= ScoreToSizeMultiplier(score, c) <= Quantized(c.maxSize, c.sizeStep)
    {
      QuantizedMonotone(c.minSize, Clamped(score, c), c.sizeStep);
      QuantizedMonotone(Clamped(score, c), c.maxSize, c.sizeStep);
    }
  }
}
