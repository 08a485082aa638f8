/** Market flow regimes, in the order in which every loop over them runs (src/market/flowMetrics.ts). */
module Regimes {

  datatype Regime = Quiet | Normal | TrendingUp | TrendingDown | Chaotic | Illiquid

  const ALL_REGIMES := [Quiet, Normal, TrendingUp, TrendingDown, Chaotic, Illiquid]

  lemma EveryRegimeListed(r: Regime)
    ensures r in ALL_REGIMES
  {
    assert ALL_REGIMES[0] == Quiet && ALL_REGIMES[1] == Normal && ALL_REGIMES[2] == TrendingUp
        && ALL_REGIMES[3] == TrendingDown && ALL_REGIMES[4] == Chaotic && ALL_REGIMES[5] == Illiquid;
  }
}
