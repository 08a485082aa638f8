/**
 Realised profit by first-in-first-out lots: the fallback used when no trade carries a usable pnl
 (`computeFallbackRealizedPnl`, src/analytics/tradeHistory.ts).
 */
module FifoLots {
  import opened Basics
  import opened Sorting
  import opened Trades

  datatype Lot = Lot(qty: real, unitCost: real)

  datatype Pnl = Pnl(total: real, today: real)

  function ExecutedQty(t: Trade): real {
    var qty := if t.core.filled > 0.0 then t.core.filled else t.core.amount;
    Max(0.0, qty)
  }

  predicate IsFill(t: Trade) {
    (t.core.status.Filled? || t.core.status.Partial?) && ExecutedQty(t) > 0.0
  }

  function Fee(t: Trade): real {
    Max(0.0, t.core.fee)
  }

  function TimeKey(t: Trade): real {
    t.timestamp as real
  }

  function Fills(trades: seq<Trade>): seq<Trade> {
    StableSort(Filter(trades, IsFill), TimeKey)
  }

  // ---------------------------------------------------------------- specification

  /** The lot a BUY opens: fees are part of its cost. */
  function LotOf(t: Trade): Lot
    requires IsFill(t)
  {
    var qty := ExecutedQty(t);
    Lot(qty, (t.core.price * qty + Fee(t)) / qty)
  }

  /** What a SELL takes from the open lots. `dropped` are the remainders too small to keep. */
  datatype Match = Match(qty: real, cost: real, lots: seq<Lot>, dropped: seq<Lot>)

  /** Cost charged for a part of a lot. */
  function PartCost(l: Lot, matchQty: real): real {
    l.unitCost * matchQty
  }

  function Consume(lots: seq<Lot>, remaining: real): Match {
    if remaining <= DUST || lots == [] then Match(0.0, 0.0, lots, [])
    else
      var lot := lots[0];
      var matchQty := Min(remaining, lot.qty);
      var left := Lot(lot.qty - matchQty, lot.unitCost);
      if left.qty <= DUST then
        var rest := Consume(lots[1..], remaining - matchQty);
        Match(matchQty + rest.qty, PartCost(lot, matchQty) + rest.cost, rest.lots, [left] + rest.dropped)
      else
        Match(matchQty, PartCost(lot, matchQty), [left] + lots[1..], [])
  }

  /** Sale proceeds of a part of a SELL, net of the fee's share. */
  function Proceeds(t: Trade, matchQty: real): real
    requires IsFill(t)
  {
    t.core.price * matchQty - Fee(t) * (matchQty / ExecutedQty(t))
  }

  datatype Ledger = Ledger(lotsByPair: map<string, seq<Lot>>, pnl: Pnl)

  function LotsOf(l: Ledger, pair: string): seq<Lot> {
    if pair in l.lotsByPair then l.lotsByPair[pair] else []
  }

  function Realized(t: Trade, m: Match): real
    requires IsFill(t)
  {
    Proceeds(t, m.qty) - m.cost
  }

  function ApplyFill(l: Ledger, t: Trade, todayTimestamp: int): Ledger
    requires IsFill(t)
  {
    var pair, pairLots := t.core.pair, LotsOf(l, t.core.pair);
    if t.core.side.Buy? then
      l.(lotsByPair := l.lotsByPair[pair := pairLots + [LotOf(t)]])
    else
      var m := Consume(pairLots, ExecutedQty(t));
      var realized := Realized(t, m);
      Ledger(l.lotsByPair[pair := m.lots],
             Pnl(l.pnl.total + realized, if t.timestamp >= todayTimestamp then l.pnl.today + realized else l.pnl.today))
  }

  ghost predicate AllFills(fills: seq<Trade>) {
    forall t :: t in fills ==> IsFill(t)
  }

  function Run(fills: seq<Trade>, todayTimestamp: int): Ledger
    requires AllFills(fills)
  {
    if fills == [] then Ledger(map[], Pnl(0.0, 0.0))
    else
      var n := |fills| - 1;
      ApplyFill(Run(fills[..n], todayTimestamp), fills[n], todayTimestamp)
  }

  lemma FillsAreFills(trades: seq<Trade>)
    ensures AllFills(Fills(trades)) && Sorted(Fills(trades), TimeKey)
  {
    StableSortSorted(Filter(trades, IsFill), TimeKey);
    SortKeepsMembers(Filter(trades, IsFill), TimeKey);
  }

  function FallbackPnl(trades: seq<Trade>, todayTimestamp: int): Pnl {
    FillsAreFills(trades);
    Run(Fills(trades), todayTimestamp).pnl
  }

  // ---------------------------------------------------------------- the algorithm

  lemma ProceedsAdd(t: Trade, a: real, b: real)
    requires IsFill(t)
    ensures Proceeds(t, a + b) == Proceeds(t, a) + Proceeds(t, b)
    ensures Proceeds(t, 0.0) == 0.0
  {
    var qty := ExecutedQty(t);
    assert (a + b) / qty == a / qty + b / qty;
  }

  /**
   One SELL: the inner loop consumes lots from the front until the quantity or the lots run out.
   It ends because each turn either shortens the queue or exhausts the quantity.
   */
  method SellFromLots(t: Trade, lots: seq<Lot>) returns (pairLots: seq<Lot>, realized: real)
    requires IsFill(t) && forall l :: l in lots ==> l.qty > 0.0
    ensures pairLots == Consume(lots, ExecutedQty(t)).lots
    ensures realized == Realized(t, Consume(lots, ExecutedQty(t)))
  {
    hide Proceeds;
    var qty := ExecutedQty(t);
    ghost var all := Consume(lots, qty);
    pairLots := lots;
    var remaining := qty;
    realized := 0.0;
    ProceedsAdd(t, 0.0, 0.0);
    while remaining > DUST && |pairLots| > 0
      invariant forall l :: l in pairLots ==> l.qty > 0.0
      invariant Consume(pairLots, remaining).lots == all.lots
      invariant realized + Realized(t, Consume(pairLots, remaining)) == Realized(t, all)
      decreases |pairLots| + (if remaining > DUST then 1 else 0)
    {
      var lot := pairLots[0];
      var matchQty := Min(remaining, lot.qty);
      var proceeds := t.core.price * matchQty - Fee(t) * (matchQty / qty);
      var cost := lot.unitCost * matchQty;
      SellStep(t, pairLots, remaining, matchQty, proceeds, cost);
      realized := realized + (proceeds - cost);
      lot := lot.(qty := lot.qty - matchQty);
      remaining := remaining - matchQty;
      pairLots := if lot.qty <= DUST then pairLots[1..] else [lot] + pairLots[1..];
    }
  }

  lemma SellStep(t: Trade, lots: seq<Lot>, remaining: real, matchQty: real, proceeds: real, cost: real)
    requires IsFill(t) && remaining > DUST && lots != [] && lots[0].qty > 0.0
    requires matchQty == Min(remaining, lots[0].qty) && cost == lots[0].unitCost * matchQty
    requires proceeds == t.core.price * matchQty - Fee(t) * (matchQty / ExecutedQty(t))
    ensures var left := lots[0].(qty := lots[0].qty - matchQty);
            var next := if left.qty <= DUST then lots[1..] else [left] + lots[1..];
            && Consume(next, remaining - matchQty).lots == Consume(lots, remaining).lots
            && Realized(t, Consume(lots, remaining))
                 == (proceeds - cost) + Realized(t, Consume(next, remaining - matchQty))
  {
    hide Consume, Realized, Proceeds, PartCost;
    ProceedsIs(t, matchQty, proceeds);
    PartCostIs(lots[0], matchQty, cost);
    SellStepProceeds(t, lots, remaining, matchQty);
  }

  lemma ProceedsIs(t: Trade, matchQty: real, proceeds: real)
    requires IsFill(t) && proceeds == t.core.price * matchQty - Fee(t) * (matchQty / ExecutedQty(t))
    ensures proceeds == Proceeds(t, matchQty)
  {
  }

  lemma PartCostIs(l: Lot, matchQty: real, cost: real)
    requires cost == l.unitCost * matchQty
    ensures cost == PartCost(l, matchQty)
  {
  }

  lemma SellStepProceeds(t: Trade, lots: seq<Lot>, remaining: real, matchQty: real)
    requires IsFill(t) && remaining > DUST && lots != [] && lots[0].qty > 0.0
    requires matchQty == Min(remaining, lots[0].qty)
    ensures var left := lots[0].(qty := lots[0].qty - matchQty);
            var next := if left.qty <= DUST then lots[1..] else [left] + lots[1..];
            && Consume(next, remaining - matchQty).lots == Consume(lots, remaining).lots
            && Realized(t, Consume(lots, remaining))
                 == Proceeds(t, matchQty) - PartCost(lots[0], matchQty)
                     + Realized(t, Consume(next, remaining - matchQty))
  {
    hide Proceeds, PartCost;
    ProceedsAdd(t, matchQty, Consume(lots[1..], remaining - matchQty).qty);
    ProceedsAdd(t, matchQty, 0.0);
  }

  /** `computeFallbackRealizedPnl`: filter, sort, then one pass over the fills with a map of open lots. */
  method ComputeFallbackRealizedPnl(trades: seq<Trade>, todayTimestamp: int) returns (r: Pnl)
    ensures r == FallbackPnl(trades, todayTimestamp)
  {
    hide Consume, Realized, LotOf, IsFill, ExecutedQty, Fills;
    FillsAreFills(trades);
    var fills := Fills(trades);
    var lotsByPair: map<string, seq<Lot>> := map[];
    var total := 0.0;
    var today := 0.0;
    for i := 0 to |fills|
      invariant Ledger(lotsByPair, Pnl(total, today)) == Run(fills[..i], todayTimestamp)
    {
      var trade := fills[i];
      assert fills[..i + 1][..i] == fills[..i] && fills[..i + 1][i] == trade;
      OpenLotsPositive(fills[..i], todayTimestamp, trade.core.pair);
      var pairLots := if trade.core.pair in lotsByPair then lotsByPair[trade.core.pair] else [];
      if trade.core.side.Buy? {
        lotsByPair := lotsByPair[trade.core.pair := pairLots + [LotOf(trade)]];
      } else {
        var realized;
        pairLots, realized := SellFromLots(trade, pairLots);
        lotsByPair := lotsByPair[trade.core.pair := pairLots];
        total := total + realized;
        if trade.timestamp >= todayTimestamp {
          today := today + realized;
        }
      }
    }
    assert fills[..|fills|] == fills;
    r := Pnl(total, today);
  }

  // ---------------------------------------------------------------- one sale

  ghost predicate Positive(lots: seq<Lot>) {
    forall l :: l in lots ==> l.qty > 0.0
  }

  function QtyOf(lots: seq<Lot>): real {
    if lots == [] then 0.0 else lots[0].qty + QtyOf(lots[1..])
  }

  function CostOf(lots: seq<Lot>): real {
    if lots == [] then 0.0 else LotCost(lots[0]) + CostOf(lots[1..])
  }

  function LotCost(l: Lot): real {
    l.qty * l.unitCost
  }

  lemma LotSplits(l: Lot, matchQty: real)
    ensures LotCost(l) == PartCost(l, matchQty) + LotCost(l.(qty := l.qty - matchQty))
  {
  }

  lemma {:induction false} QtyNonNegative(lots: seq<Lot>)
    requires Positive(lots)
    ensures QtyOf(lots) >= 0.0
  {
    if lots == [] {
    } else {
      assert lots[0] in lots;
      QtyNonNegative(lots[1..]);
    }
  }

  lemma {:induction false} LotsConcat(a: seq<Lot>, b: seq<Lot>)
    ensures QtyOf(a + b) == QtyOf(a) + QtyOf(b) && CostOf(a + b) == CostOf(a) + CostOf(b)
  {
    if a == [] {
      assert a + b == b;
    } else {
      assert (a + b)[1..] == a[1..] + b;
      LotsConcat(a[1..], b);
    }
  }

  /** A SELL takes the smaller of its quantity and the inventory, up to the dust tolerance. */
  lemma {:induction false} SaleMatchesInventory(lots: seq<Lot>, qty: real)
    requires Positive(lots) && qty >= 0.0
    ensures var m := Consume(lots, qty);
            && m.qty <= Min(qty, QtyOf(lots)) <= m.qty + DUST
            && Positive(m.lots)
            && (forall d :: d in m.dropped ==> 0.0 <= d.qty <= DUST)
            && |lots| == |m.lots| + |m.dropped|
  {
    QtyNonNegative(lots);
    if lots == [] || qty <= DUST {
    } else {
      assert lots[0] in lots;
      SaleMatchesInventory(lots[1..], qty - Min(qty, lots[0].qty));
      QtyNonNegative(lots[1..]);
    }
  }

  lemma {:induction false} SaleConservesUnits(lots: seq<Lot>, qty: real)
    ensures var m := Consume(lots, qty);
            QtyOf(lots) == m.qty + QtyOf(m.lots) + QtyOf(m.dropped)
  {
    hide LotCost, PartCost;
    if lots == [] || qty <= DUST {
    } else {
      var matchQty := Min(qty, lots[0].qty);
      var left := lots[0].(qty := lots[0].qty - matchQty);
      var rest := Consume(lots[1..], qty - matchQty);
      SaleConservesUnits(lots[1..], qty - matchQty);
      assert ([left] + rest.dropped)[1..] == rest.dropped && ([left] + lots[1..])[1..] == lots[1..];
    }
  }

  lemma {:induction false} SaleConservesCost(lots: seq<Lot>, qty: real)
    ensures var m := Consume(lots, qty);
            CostOf(lots) == m.cost + CostOf(m.lots) + CostOf(m.dropped)
  {
    hide LotCost, PartCost;
    if lots == [] || qty <= DUST {
    } else {
      var matchQty := Min(qty, lots[0].qty);
      var left := lots[0].(qty := lots[0].qty - matchQty);
      var rest := Consume(lots[1..], qty - matchQty);
      LotSplits(lots[0], matchQty);
      SaleConservesCost(lots[1..], qty - matchQty);
      assert ([left] + rest.dropped)[1..] == rest.dropped && ([left] + lots[1..])[1..] == lots[1..];
    }
  }

  /** Nothing is created or lost by a SELL: lots before are the matched part, the lots after and the dust. */
  lemma SaleConserves(lots: seq<Lot>, qty: real)
    ensures var m := Consume(lots, qty);
            && QtyOf(lots) == m.qty + QtyOf(m.lots) + QtyOf(m.dropped)
            && CostOf(lots) == m.cost + CostOf(m.lots) + CostOf(m.dropped)
  {
    hide *;
    SaleConservesUnits(lots, qty);
    SaleConservesCost(lots, qty);
  }

  /** The lots that remain after the `units` bought first are gone. */
  function DropUnits(lots: seq<Lot>, units: real): seq<Lot> {
    if lots == [] || units <= 0.0 then lots
    else if units >= lots[0].qty then DropUnits(lots[1..], units - lots[0].qty)
    else [lots[0].(qty := lots[0].qty - units)] + lots[1..]
  }

  lemma ConsumeStep(lots: seq<Lot>, qty: real)
    requires lots != [] && qty > DUST
    ensures var m, left := Consume(lots, qty), lots[0].(qty := lots[0].qty - Min(qty, lots[0].qty));
            if left.qty <= DUST then
              var rest := Consume(lots[1..], qty - Min(qty, lots[0].qty));
              m.lots == rest.lots && m.qty + QtyOf(m.dropped) == lots[0].qty + (rest.qty + QtyOf(rest.dropped))
            else
              m.lots == [left] + lots[1..] && m.qty + QtyOf(m.dropped) == Min(qty, lots[0].qty)
  {
    hide PartCost;
    var left := lots[0].(qty := lots[0].qty - Min(qty, lots[0].qty));
    var rest := Consume(lots[1..], qty - Min(qty, lots[0].qty));
    assert ([left] + rest.dropped)[1..] == rest.dropped;
  }

  lemma ConsumeNothing(lots: seq<Lot>, qty: real)
    requires lots == [] || qty <= DUST
    ensures Consume(lots, qty).lots == DropUnits(lots, Consume(lots, qty).qty + QtyOf(Consume(lots, qty).dropped))
  {
  }

  /** A SELL removes exactly the earliest bought units: those matched and the dust dropped. */
  lemma {:induction false} SaleIsFirstInFirstOut(lots: seq<Lot>, qty: real)
    requires Positive(lots) && qty >= 0.0
    ensures var m := Consume(lots, qty);
            m.lots == DropUnits(lots, m.qty + QtyOf(m.dropped))
  {
    hide Consume, DropUnits, QtyOf;
    if lots == [] || qty <= DUST {
      ConsumeNothing(lots, qty);
    } else {
      assert lots[0] in lots;
      var matchQty := Min(qty, lots[0].qty);
      ConsumeStep(lots, qty);
      if lots[0].qty - matchQty <= DUST {
        var rest := Consume(lots[1..], qty - matchQty);
        SaleIsFirstInFirstOut(lots[1..], qty - matchQty);
        SaleMatchesInventory(lots[1..], qty - matchQty);
        ConsumedNonNegative(lots[1..], qty - matchQty);
        DroppedNonNegative(rest.dropped);
        DropHead(lots, rest.qty + QtyOf(rest.dropped));
      } else {
        DropPart(lots, matchQty);
      }
    }
  }

  lemma DropHead(lots: seq<Lot>, units: real)
    requires units >= 0.0
    ensures lots != [] && lots[0].qty > 0.0 ==> DropUnits(lots, lots[0].qty + units) == DropUnits(lots[1..], units)
  {
  }

  lemma DropPart(lots: seq<Lot>, units: real)
    requires lots != [] && 0.0 < units < lots[0].qty
    ensures DropUnits(lots, units) == [lots[0].(qty := lots[0].qty - units)] + lots[1..]
  {
  }

  lemma {:induction false} DroppedNonNegative(lots: seq<Lot>)
    requires forall d :: d in lots ==> d.qty >= 0.0
    ensures QtyOf(lots) >= 0.0
  {
    if lots == [] {
    } else {
      assert lots[0] in lots;
      DroppedNonNegative(lots[1..]);
    }
  }

  lemma {:induction false} OpenLotsPositive(fills: seq<Trade>, todayTimestamp: int, pair: string)
    requires AllFills(fills)
    ensures Positive(LotsOf(Run(fills, todayTimestamp), pair))
  {
    hide Realized, Proceeds;
    if fills == [] {
    } else {
      var n := |fills| - 1;
      var before := LotsOf(Run(fills[..n], todayTimestamp), pair);
      OpenLotsPositive(fills[..n], todayTimestamp, pair);
      assert fills[n] in fills;
      SaleMatchesInventory(before, ExecutedQty(fills[n]));
    }
  }

  // ---------------------------------------------------------------- a pair's account

  /** Everything that happened to one pair: lots bought, units and cost matched by sells, dust dropped. */
  datatype Account = Account(bought: seq<Lot>, matchedQty: real, chargedCost: real, proceeds: real, dropped: seq<Lot>)

  const NEW_ACCOUNT := Account([], 0.0, 0.0, 0.0, [])

  function AddFill(a: Account, lots: seq<Lot>, t: Trade): Account
    requires IsFill(t)
  {
    if t.core.side.Buy? then a.(bought := a.bought + [LotOf(t)])
    else
      var m := Consume(lots, ExecutedQty(t));
      Account(a.bought, a.matchedQty + m.qty, a.chargedCost + m.cost,
              a.proceeds + Proceeds(t, m.qty), a.dropped + m.dropped)
  }

  function AccountOf(fills: seq<Trade>, todayTimestamp: int, pair: string): Account
    requires AllFills(fills)
  {
    if fills == [] then NEW_ACCOUNT
    else
      var n := |fills| - 1;
      var before := AccountOf(fills[..n], todayTimestamp, pair);
      if fills[n].core.pair != pair then before
      else AddFill(before, LotsOf(Run(fills[..n], todayTimestamp), pair), fills[n])
  }

  /** What the pair's buys paid: price times quantity plus fee, straight from the fills. */
  function BuySpend(fills: seq<Trade>, pair: string): real
    requires AllFills(fills)
  {
    if fills == [] then 0.0
    else
      var n, t := |fills| - 1, fills[|fills| - 1];
      BuySpend(fills[..n], pair)
        + (if t.core.pair == pair && t.core.side.Buy? then t.core.price * ExecutedQty(t) + Fee(t) else 0.0)
  }

  ghost predicate Balanced(a: Account, open: seq<Lot>) {
    && QtyOf(a.bought) == a.matchedQty + QtyOf(open) + QtyOf(a.dropped)
    && CostOf(a.bought) == a.chargedCost + CostOf(open) + CostOf(a.dropped)
    && |a.bought| == |open| + |a.dropped|
    && (forall d :: d in a.dropped ==> 0.0 <= d.qty <= DUST)
    && open == DropUnits(a.bought, a.matchedQty + QtyOf(a.dropped))
    && a.matchedQty >= 0.0 && Positive(a.bought) && Positive(open)
  }

  /** Dropping units in two portions drops their sum. */
  lemma {:induction false} DropTwice(lots: seq<Lot>, a: real, b: real)
    requires Positive(lots) && a >= 0.0 && b >= 0.0
    ensures DropUnits(DropUnits(lots, a), b) == DropUnits(lots, a + b)
  {
    if lots != [] && a > 0.0 {
      assert lots[0] in lots;
      if a >= lots[0].qty {
        DropTwice(lots[1..], a - lots[0].qty, b);
      } else {
        var left := lots[0].(qty := lots[0].qty - a);
        assert ([left] + lots[1..])[1..] == lots[1..];
      }
    }
  }

  /** A new lot joins at the back: earlier units are still the ones dropped. */
  lemma {:induction false} DropThenBuy(lots: seq<Lot>, lot: Lot, units: real)
    requires Positive(lots) && lot.qty > 0.0 && units <= QtyOf(lots)
    ensures DropUnits(lots + [lot], units) == DropUnits(lots, units) + [lot]
  {
    if lots == [] {
      assert lots + [lot] == [lot];
    } else {
      assert lots[0] in lots;
      assert (lots + [lot])[1..] == lots[1..] + [lot];
      if units >= lots[0].qty {
        DropThenBuy(lots[1..], lot, units - lots[0].qty);
      }
    }
  }

  lemma BuyBalances(a: Account, open: seq<Lot>, lot: Lot)
    requires Balanced(a, open) && lot.qty > 0.0
    ensures Balanced(a.(bought := a.bought + [lot]), open + [lot])
  {
    hide LotCost, DropUnits;
    LotsConcat(a.bought, [lot]);
    LotsConcat(open, [lot]);
    QtyNonNegative(open);
    DropThenBuy(a.bought, lot, a.matchedQty + QtyOf(a.dropped));
  }

  lemma SellBalances(a: Account, open: seq<Lot>, m: Match, qty: real, proceeds: real)
    requires Balanced(a, open) && qty >= 0.0 && m == Consume(open, qty)
    ensures Balanced(Account(a.bought, a.matchedQty + m.qty, a.chargedCost + m.cost, proceeds,
                             a.dropped + m.dropped), m.lots)
  {
    hide LotCost, DropUnits, Consume;
    SaleMatchesInventory(open, qty);
    SaleConserves(open, qty);
    SaleIsFirstInFirstOut(open, qty);
    LotsConcat(a.dropped, m.dropped);
    DroppedNonNegative(a.dropped);
    DroppedNonNegative(m.dropped);
    ConsumedNonNegative(open, qty);
    DropTwice(a.bought, a.matchedQty + QtyOf(a.dropped), m.qty + QtyOf(m.dropped));
  }

  lemma {:induction false} ConsumedNonNegative(lots: seq<Lot>, qty: real)
    requires Positive(lots) && qty >= 0.0
    ensures Consume(lots, qty).qty >= 0.0
  {
    if lots == [] || qty <= DUST {
    } else {
      assert lots[0] in lots;
      ConsumedNonNegative(lots[1..], qty - Min(qty, lots[0].qty));
    }
  }

  lemma LotCostIsSpend(t: Trade)
    requires IsFill(t)
    ensures LotCost(LotOf(t)) == t.core.price * ExecutedQty(t) + Fee(t)
  {
    var spend, qty := t.core.price * ExecutedQty(t) + Fee(t), ExecutedQty(t);
    assert qty * (spend / qty) == spend;
  }

  /**
   FIFO conservation. For every run of fills and every pair: what was bought equals what the sells
   matched, what is still open and the dust dropped, in units and in cost; the open lots are what is
   left of the purchases once the earliest units are gone; each dropped remainder is at most dust.
   */
  lemma {:induction false} Conservation(fills: seq<Trade>, todayTimestamp: int, pair: string)
    requires AllFills(fills)
    ensures Balanced(AccountOf(fills, todayTimestamp, pair), LotsOf(Run(fills, todayTimestamp), pair))
    ensures CostOf(AccountOf(fills, todayTimestamp, pair).bought) == BuySpend(fills, pair)
  {
    hide Consume, DropUnits, Proceeds, Realized, LotOf, LotCost, Balanced, IsFill, Fee;
    if fills == [] {
      NewAccountBalances();
    } else {
      var n, t := |fills| - 1, fills[|fills| - 1];
      Conservation(fills[..n], todayTimestamp, pair);
      assert t in fills;
      if t.core.pair == pair {
        var a, open := AccountOf(fills[..n], todayTimestamp, pair), LotsOf(Run(fills[..n], todayTimestamp), pair);
        if t.core.side.Buy? {
          LotHasQty(t);
          BuyBalances(a, open, LotOf(t));
          LotsConcat(a.bought, [LotOf(t)]);
          LotCostIsSpend(t);
        } else {
          var m := Consume(open, ExecutedQty(t));
          SellBalances(a, open, m, ExecutedQty(t), a.proceeds + Proceeds(t, m.qty));
        }
      }
    }
  }

  lemma NewAccountBalances()
    ensures Balanced(NEW_ACCOUNT, [])
  {
  }

  lemma LotHasQty(t: Trade)
    requires IsFill(t)
    ensures LotOf(t).qty > 0.0
    ensures CostOf([LotOf(t)]) == LotCost(LotOf(t))
  {
  }

  // ---------------------------------------------------------------- independence between pairs

  predicate IsIn(pairs: set<string>, t: Trade) {
    t.core.pair in pairs
  }

  function InPairs(pairs: set<string>): Trade -> bool {
    (t: Trade) => IsIn(pairs, t)
  }

  function Only(trades: seq<Trade>, pairs: set<string>): seq<Trade> {
    Filter(trades, InPairs(pairs))
  }

  lemma OnlyOfLast(fills: seq<Trade>, pairs: set<string>)
    requires fills != []
    ensures var n := |fills| - 1;
            Only(fills, pairs) == Only(fills[..n], pairs) + (if IsIn(pairs, fills[n]) then [fills[n]] else [])
  {
    var n := |fills| - 1;
    assert fills == fills[..n] + [fills[n]];
    FilterAppend(fills[..n], fills[n], InPairs(pairs));
  }

  lemma RunOfAppended(fills: seq<Trade>, t: Trade, todayTimestamp: int)
    requires AllFills(fills) && IsFill(t)
    ensures Run(fills + [t], todayTimestamp) == ApplyFill(Run(fills, todayTimestamp), t, todayTimestamp)
  {
    assert (fills + [t])[..|fills|] == fills;
  }

  /** `all` is what `ra` and `rb` are together: profits add up and each group keeps its own open lots. */
  ghost predicate Combines(all: Ledger, ra: Ledger, rb: Ledger, a: set<string>, b: set<string>) {
    && all.pnl.total == ra.pnl.total + rb.pnl.total
    && all.pnl.today == ra.pnl.today + rb.pnl.today
    && (forall p :: p in a ==> LotsOf(all, p) == LotsOf(ra, p))
    && (forall p :: p in b ==> LotsOf(all, p) == LotsOf(rb, p))
  }

  lemma ApplyCombines(all: Ledger, ra: Ledger, rb: Ledger, a: set<string>, b: set<string>, t: Trade,
                      todayTimestamp: int)
    requires Combines(all, ra, rb, a, b) && a !! b && IsFill(t) && t.core.pair in a
    ensures Combines(ApplyFill(all, t, todayTimestamp), ApplyFill(ra, t, todayTimestamp), rb, a, b)
  {
    hide Consume, Realized, LotOf, IsFill;
    assert LotsOf(all, t.core.pair) == LotsOf(ra, t.core.pair);
  }

  /** Trading disjoint groups of pairs together or apart gives the same open lots and the same profit. */
  lemma {:induction false} RunSplits(fills: seq<Trade>, a: set<string>, b: set<string>, todayTimestamp: int)
    requires AllFills(fills) && a !! b && forall t :: t in fills ==> t.core.pair in a + b
    ensures AllFills(Only(fills, a)) && AllFills(Only(fills, b))
    ensures Combines(Run(fills, todayTimestamp), Run(Only(fills, a), todayTimestamp),
                     Run(Only(fills, b), todayTimestamp), a, b)
  {
    hide ApplyFill, IsFill, Only;
    OnlyKeeps(fills, a);
    OnlyKeeps(fills, b);
    if fills == [] {
      assert Run(Only(fills, a), todayTimestamp) == Run([], todayTimestamp) == Run(Only(fills, b), todayTimestamp);
    } else {
      var n, t := |fills| - 1, fills[|fills| - 1];
      RunSplits(fills[..n], a, b, todayTimestamp);
      OnlyOfLast(fills, a);
      OnlyOfLast(fills, b);
      assert t in fills;
      var all := Run(fills[..n], todayTimestamp);
      var ra, rb := Run(Only(fills[..n], a), todayTimestamp), Run(Only(fills[..n], b), todayTimestamp);
      if t.core.pair in a {
        ApplyCombines(all, ra, rb, a, b, t, todayTimestamp);
        assert Only(fills, b) == Only(fills[..n], b);
        RunOfAppended(Only(fills[..n], a), t, todayTimestamp);
      } else {
        ApplyCombines(all, rb, ra, b, a, t, todayTimestamp);
        assert Only(fills, a) == Only(fills[..n], a);
        RunOfAppended(Only(fills[..n], b), t, todayTimestamp);
      }
    }
  }

  lemma OnlyKeeps(trades: seq<Trade>, pairs: set<string>)
    ensures forall t :: t in Only(trades, pairs) ==> t in trades && t.core.pair in pairs
    ensures trades == [] ==> Only(trades, pairs) == []
  {
  }

  lemma {:induction false} FilterSwaps(trades: seq<Trade>, pairs: set<string>)
    ensures Filter(Only(trades, pairs), IsFill) == Only(Filter(trades, IsFill), pairs)
  {
    hide IsFill;
    if trades == [] {
    } else {
      FilterSwaps(trades[1..], pairs);
    }
  }

  /** Choosing the trades of some pairs first, or their fills afterwards, is the same list in the same order. */
  lemma FillsOfPairs(trades: seq<Trade>, pairs: set<string>)
    ensures Fills(Only(trades, pairs)) == Only(Fills(trades), pairs)
  {
    FilterSwaps(trades, pairs);
    FilterCommutesWithSort(Filter(trades, IsFill), TimeKey, InPairs(pairs));
  }

  lemma {:induction false} OnlyWithin(trades: seq<Trade>, a: set<string>, b: set<string>)
    requires a <= b
    ensures Only(Only(trades, b), a) == Only(trades, a)
  {
    if trades == [] {
    } else {
      OnlyWithin(trades[1..], a, b);
    }
  }

  lemma {:induction false} OnlyEverything(trades: seq<Trade>, pairs: set<string>)
    requires forall t :: t in trades ==> t.core.pair in pairs
    ensures Only(trades, pairs) == trades
  {
    if trades == [] {
    } else {
      assert trades[0] in trades;
      OnlyEverything(trades[1..], pairs);
    }
  }

  /** Sum over the pairs of the profit each pair's trades make alone. */
  function SumOverPairs(trades: seq<Trade>, pairs: seq<string>, todayTimestamp: int): Pnl {
    if pairs == [] then Pnl(0.0, 0.0)
    else
      var alone := FallbackPnl(Only(trades, {pairs[0]}), todayTimestamp);
      var others := SumOverPairs(trades, pairs[1..], todayTimestamp);
      Pnl(alone.total + others.total, alone.today + others.today)
  }

  function PairSet(pairs: seq<string>): set<string> {
    set p | p in pairs
  }

  lemma FallbackSplits(trades: seq<Trade>, a: set<string>, b: set<string>, todayTimestamp: int)
    requires a !! b
    ensures var all := FallbackPnl(Only(trades, a + b), todayTimestamp);
            var pa, pb := FallbackPnl(Only(trades, a), todayTimestamp), FallbackPnl(Only(trades, b), todayTimestamp);
            all == Pnl(pa.total + pb.total, pa.today + pb.today)
  {
    hide Run, IsFill, Only, Fills;
    var both := Only(trades, a + b);
    var fills := Fills(both);
    FillsAreFills(both);
    OnlyWithin(trades, a, a + b);
    OnlyWithin(trades, b, a + b);
    FillsOfPairs(both, a);
    FillsOfPairs(both, b);
    FillsOfPairs(trades, a + b);
    OnlyKeeps(Fills(trades), a + b);
    RunSplits(fills, a, b, todayTimestamp);
  }

  lemma {:induction false} FallbackOfPairs(trades: seq<Trade>, pairs: seq<string>, todayTimestamp: int)
    requires forall i, j :: 0 <= i < j < |pairs| ==> pairs[i] != pairs[j]
    ensures FallbackPnl(Only(trades, PairSet(pairs)), todayTimestamp) == SumOverPairs(trades, pairs, todayTimestamp)
  {
    hide Only, FallbackPnl;
    if pairs == [] {
      assert PairSet(pairs) == {};
      NothingTraded(trades, todayTimestamp);
    } else {
      var rest := pairs[1..];
      FallbackOfPairs(trades, rest, todayTimestamp);
      assert PairSet(pairs) == {pairs[0]} + PairSet(rest);
      FallbackSplits(trades, {pairs[0]}, PairSet(rest), todayTimestamp);
    }
  }

  lemma NothingTraded(trades: seq<Trade>, todayTimestamp: int)
    ensures FallbackPnl(Only(trades, {}), todayTimestamp) == Pnl(0.0, 0.0)
  {
    hide Only;
    NoPairs(trades);
  }

  lemma {:induction false} NoPairs(trades: seq<Trade>)
    ensures Only(trades, {}) == []
  {
    if trades == [] {
    } else {
      NoPairs(trades[1..]);
    }
  }

  /**
   Pair independence: however the trades of different pairs are interleaved, the profit in total and
   today is the sum of what each pair's trades give alone. No lot leaks from one pair to another.
   */
  lemma PairIndependence(trades: seq<Trade>, pairs: seq<string>, todayTimestamp: int)
    requires forall i, j :: 0 <= i < j < |pairs| ==> pairs[i] != pairs[j]
    requires forall t :: t in trades ==> t.core.pair in pairs
    ensures FallbackPnl(trades, todayTimestamp) == SumOverPairs(trades, pairs, todayTimestamp)
  {
    FallbackOfPairs(trades, pairs, todayTimestamp);
    OnlyEverything(trades, PairSet(pairs));
  }

  // ---------------------------------------------------------------- cash

  /** One pair's profit is what its sells brought in less the cost charged to them. */
  lemma {:induction false} ProfitOfPair(fills: seq<Trade>, todayTimestamp: int, pair: string)
    requires AllFills(fills) && forall t :: t in fills ==> t.core.pair == pair
    ensures var a := AccountOf(fills, todayTimestamp, pair);
            Run(fills, todayTimestamp).pnl.total == a.proceeds - a.chargedCost
  {
    hide Consume, Proceeds, LotOf, IsFill;
    if fills == [] {
    } else {
      var n := |fills| - 1;
      assert fills[n] in fills;
      ProfitOfPair(fills[..n], todayTimestamp, pair);
    }
  }

  /**
   Cash conservation: a pair's realised profit is its sale proceeds less everything its buys paid,
   plus the cost of the lots still open and of the dust dropped.
   */
  lemma CashConservation(trades: seq<Trade>, todayTimestamp: int, pair: string)
    ensures var fills := Only(Fills(trades), {pair});
            && AllFills(fills)
            && var a, open := AccountOf(fills, todayTimestamp, pair), LotsOf(Run(fills, todayTimestamp), pair);
               FallbackPnl(Only(trades, {pair}), todayTimestamp).total
                 == a.proceeds - BuySpend(fills, pair) + CostOf(open) + CostOf(a.dropped)
  {
    hide Consume, Proceeds, LotOf, IsFill, Run, Only, Fills, AccountOf, CostOf, BuySpend;
    FillsAreFills(trades);
    FillsOfPairs(trades, {pair});
    OnlyKeeps(Fills(trades), {pair});
    var fills := Only(Fills(trades), {pair});
    ProfitOfPair(fills, todayTimestamp, pair);
    Conservation(fills, todayTimestamp, pair);
  }

  // ---------------------------------------------------------------- which fills count, and in which order

  /** Filled or partially filled, with a positive quantity on record. */
  predicate IsExecuted(t: Trade) {
    (t.core.status == Filled || t.core.status == Partial) && (t.core.filled > 0.0 || t.core.amount > 0.0)
  }

  predicate IsAt(timestamp: int, t: Trade) {
    t.timestamp == timestamp
  }

  function At(timestamp: int): Trade -> bool {
    (t: Trade) => IsAt(timestamp, t)
  }

  /**
   The fills are processed in order of time; those of one instant are the executed trades of that instant, in the
   order in which they were given.
   */
  lemma FillsMeaning(trades: seq<Trade>)
    ensures forall i, j :: 0 <= i <= j < |Fills(trades)| ==> Fills(trades)[i].timestamp <= Fills(trades)[j].timestamp
    ensures forall timestamp: int ::
              Filter(Fills(trades), At(timestamp)) == Filter(Filter(trades, IsExecuted), At(timestamp))
    ensures multiset(Fills(trades)) == multiset(Filter(trades, IsExecuted))
  {
    hide *;
    FillsInOrder(trades);
    FillsAreExecuted(trades);
    forall timestamp: int
      ensures Filter(Fills(trades), At(timestamp)) == Filter(Filter(trades, IsExecuted), At(timestamp))
    {
      FillsAt(trades, timestamp);
    }
  }

  lemma FillsInOrder(trades: seq<Trade>)
    ensures forall i, j :: 0 <= i <= j < |Fills(trades)| ==> Fills(trades)[i].timestamp <= Fills(trades)[j].timestamp
  {
    hide IsFill, Filter, StableSort, Fills;
    FillsAreFills(trades);
    var fills := Fills(trades);
    forall i, j | 0 <= i <= j < |fills|
      ensures fills[i].timestamp <= fills[j].timestamp
    {
      assert TimeKey(fills[i]) <= TimeKey(fills[j]);
    }
  }

  lemma FillsAreExecuted(trades: seq<Trade>)
    ensures multiset(Fills(trades)) == multiset(Filter(trades, IsExecuted))
  {
    hide IsFill, IsExecuted, Filter, StableSort;
    ExecutedAreFills(trades);
  }

  lemma FillsAt(trades: seq<Trade>, timestamp: int)
    ensures Filter(Fills(trades), At(timestamp)) == Filter(Filter(trades, IsExecuted), At(timestamp))
  {
    hide IsFill, IsExecuted, Filter, StableSort;
    ExecutedAreFills(trades);
    var fills := Filter(trades, IsFill);
    FilterCommutesWithSort(fills, TimeKey, At(timestamp));
    var same := Filter(fills, At(timestamp));
    forall i, j | 0 <= i <= j < |same|
      ensures TimeKey(same[i]) <= TimeKey(same[j])
    {
      assert same[i] in same && same[j] in same;
      assert IsAt(timestamp, same[i]) && IsAt(timestamp, same[j]);
    }
    SortFixesSorted(same, TimeKey);
  }

  lemma {:induction false} ExecutedAreFills(trades: seq<Trade>)
    ensures Filter(trades, IsFill) == Filter(trades, IsExecuted)
  {
    if trades == [] {
    } else {
      ExecutedAreFills(trades[1..]);
    }
  }

  predicate IsBefore(timestamp: int, t: Trade) {
    t.timestamp < timestamp
  }

  function Before(timestamp: int): Trade -> bool {
    (t: Trade) => IsBefore(timestamp, t)
  }

  /** Today's profit is what the fills since midnight add: the total less the total of the trades before. */
  lemma TodayIsAdded(trades: seq<Trade>, todayTimestamp: int)
    ensures FallbackPnl(trades, todayTimestamp).today
         == FallbackPnl(trades, todayTimestamp).total
            - FallbackPnl(Filter(trades, Before(todayTimestamp)), todayTimestamp).total
  {
    hide IsFill, Run, Fills;
    var fills := Fills(trades);
    var n := Leading(fills, Before(todayTimestamp));
    FillsAreFills(trades);
    FillsMeaning(trades);
    FillsBefore(trades, todayTimestamp);
    forall i | n <= i < |fills|
      ensures !IsBefore(todayTimestamp, fills[i])
    {
      assert fills[n].timestamp <= fills[i].timestamp;
    }
    FilterIsPrefix(fills, Before(todayTimestamp), n);
    FillsAreFills(Filter(trades, Before(todayTimestamp)));
    TodayAfter(fills, todayTimestamp, n, |fills|);
    assert fills[..|fills|] == fills;
  }

  lemma FillsBefore(trades: seq<Trade>, timestamp: int)
    ensures Fills(Filter(trades, Before(timestamp))) == Filter(Fills(trades), Before(timestamp))
  {
    hide IsFill;
    FiltersSwap(trades, IsFill, Before(timestamp));
    FilterCommutesWithSort(Filter(trades, IsFill), TimeKey, Before(timestamp));
  }

  lemma {:induction false} TodayAfter(fills: seq<Trade>, todayTimestamp: int, n: nat, k: nat)
    requires AllFills(fills) && n <= k <= |fills|
    requires forall i :: 0 <= i < |fills| ==> (fills[i].timestamp < todayTimestamp <==> i < n)
    ensures var now := Run(fills[..k], todayTimestamp).pnl;
            now.today == now.total - Run(fills[..n], todayTimestamp).pnl.total
    decreases k
  {
    hide IsFill, Consume, Realized, LotOf;
    if k > n {
      TodayAfter(fills, todayTimestamp, n, k - 1);
      RunOfNext(fills, todayTimestamp, k - 1);
    } else {
      NothingToday(fills, todayTimestamp, n, k);
    }
  }

  lemma {:induction false} NothingToday(fills: seq<Trade>, todayTimestamp: int, n: nat, k: nat)
    requires AllFills(fills) && k <= n <= |fills|
    requires forall i :: 0 <= i < n ==> fills[i].timestamp < todayTimestamp
    ensures Run(fills[..k], todayTimestamp).pnl.today == 0.0
  {
    hide IsFill, Consume, Realized, LotOf;
    if k == 0 {
      assert fills[..0] == [];
    } else {
      NothingToday(fills, todayTimestamp, n, k - 1);
      RunOfNext(fills, todayTimestamp, k - 1);
    }
  }

  lemma RunOfNext(fills: seq<Trade>, todayTimestamp: int, k: nat)
    requires AllFills(fills) && k < |fills|
    ensures Run(fills[..k + 1], todayTimestamp) == ApplyFill(Run(fills[..k], todayTimestamp), fills[k], todayTimestamp)
  {
    hide IsFill, ApplyFill;
    assert fills[..k + 1] == fills[..k] + [fills[k]];
    assert fills[k] in fills;
    RunOfAppended(fills[..k], fills[k], todayTimestamp);
  }

  // ---------------------------------------------------------------- one purchase, one sale

  /** Quantity, price and fee as the record holds them. */
  predicate IsExecution(t: Trade, qty: real, price: real, fee: real) {
    && qty == (if t.core.filled > 0.0 then t.core.filled else t.core.amount)
    && price == t.core.price
    && fee == (if t.core.fee > 0.0 then t.core.fee else 0.0)
  }

  /** The profit of a sale of `s` out of a purchase of `q`: proceeds and fees of both in the share that matches. */
  function TradedProfit(q: real, p: real, f: real, s: real, r: real, g: real): real
    requires q > 0.0 && s > 0.0
  {
    var m := if q <= s then q else s;
    r * m - g * (m / s) - (p * q + f) * (m / q)
  }

  /** When one purchase and one sale of a pair are all that was executed, in whatever order the list has them. */
  lemma BuyThenSell(trades: seq<Trade>, todayTimestamp: int, buy: Trade, sell: Trade,
                    q: real, p: real, f: real, s: real, r: real, g: real)
    requires multiset(Filter(trades, IsExecuted)) == multiset{buy, sell}
    requires buy.core.side == Buy && sell.core.side == Sell && buy.core.pair == sell.core.pair
    requires IsExecution(buy, q, p, f) && IsExecution(sell, s, r, g) && q > 0.0 && s > DUST
    requires buy.timestamp != sell.timestamp
    ensures var profit := if buy.timestamp < sell.timestamp then TradedProfit(q, p, f, s, r, g) else 0.0;
            FallbackPnl(trades, todayTimestamp)
            == Pnl(profit, if sell.timestamp >= todayTimestamp then profit else 0.0)
    ensures q == s ==> TradedProfit(q, p, f, s, r, g) == q * (r - p) - f - g
  {
    hide Run, Fills, Filter, IsFill, TradedProfit, Consume, Realized, LotOf, IsExecution, ExecutedQty;
    var fills := if buy.timestamp < sell.timestamp then [buy, sell] else [sell, buy];
    TwoFills(trades, buy, sell);
    FillsAreFills(trades);
    RunOfTwo(fills[0], fills[1], todayTimestamp);
    if buy.timestamp < sell.timestamp {
      BuyThenSellProfit(buy, sell, q, p, f, s, r, g);
      assert [] + [LotOf(buy)] == [LotOf(buy)];
    } else {
      EmptySale(sell);
    }
    if q == s {
      EvenTrade(q, p, f, r, g);
    }
  }

  lemma EmptySale(sell: Trade)
    requires IsFill(sell)
    ensures Realized(sell, Consume([], ExecutedQty(sell))) == 0.0
  {
    ProceedsAdd(sell, 0.0, 0.0);
  }

  lemma EvenTrade(q: real, p: real, f: real, r: real, g: real)
    requires q > 0.0
    ensures TradedProfit(q, p, f, q, r, g) == q * (r - p) - f - g
  {
    assert q / q == 1.0;
  }

  lemma TwoFills(trades: seq<Trade>, buy: Trade, sell: Trade)
    requires multiset(Filter(trades, IsExecuted)) == multiset{buy, sell} && buy.timestamp != sell.timestamp
    ensures Fills(trades) == if buy.timestamp < sell.timestamp then [buy, sell] else [sell, buy]
  {
    hide *;
    FillsMeaning(trades);
    var fills := Fills(trades);
    assert |fills| == |multiset(fills)| == 2;
    assert fills[0] in multiset(fills) && fills[1] in multiset(fills);
    assert fills == [fills[0]] + [fills[1]];
    assert multiset(fills) == multiset{fills[0], fills[1]};
  }

  lemma RunOfTwo(first: Trade, second: Trade, todayTimestamp: int)
    requires AllFills([first, second])
    ensures IsFill(first) && IsFill(second)
    ensures Run([first, second], todayTimestamp)
         == ApplyFill(ApplyFill(Ledger(map[], Pnl(0.0, 0.0)), first, todayTimestamp), second, todayTimestamp)
  {
    hide IsFill, ApplyFill;
    assert first in [first, second] && second in [first, second];
    assert [first, second] == [] + [first] + [second];
    RunOfAppended([], first, todayTimestamp);
    RunOfAppended([] + [first], second, todayTimestamp);
  }

  lemma BuyThenSellProfit(buy: Trade, sell: Trade, q: real, p: real, f: real, s: real, r: real, g: real)
    requires IsFill(buy) && IsFill(sell)
    requires IsExecution(buy, q, p, f) && IsExecution(sell, s, r, g) && q > 0.0 && s > DUST
    ensures Realized(sell, Consume([LotOf(buy)], ExecutedQty(sell))) == TradedProfit(q, p, f, s, r, g)
  {
    var m := if q <= s then q else s;
    assert Consume([LotOf(buy)][1..], s - m) == Match(0.0, 0.0, [], []);
    assert Consume([LotOf(buy)], s).qty == m;
    assert Consume([LotOf(buy)], s).cost == PartCost(LotOf(buy), m);
    ShareOfCost(p * q + f, q, m);
  }

  lemma ShareOfCost(spend: real, q: real, m: real)
    requires q > 0.0
    ensures spend / q * m == spend * (m / q)
  {
  }
}
