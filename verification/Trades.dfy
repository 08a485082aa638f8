/** The trade record and its execution trace, as the analytics modules see them (src/analytics/tradeHistory.ts). */
module Trades {
  import opened Basics

  datatype Status = Filled | Partial | Rejected | Pending

  datatype Source = Bot | Manual

  datatype MarkoutStatus = Recorded | Missing

  datatype MissingReason = UnknownTrade | TradeNotFilled | TxUnvalidated | PriceSourceDown | Timeout | NoLiquidity

  datatype Markout = Markout(
    horizonS: int, dueTsMs: int, markTsMs: int, markPrice: Option<real>, markoutBps: Option<real>,
    status: MarkoutStatus, missingReason: Option<MissingReason>, attempts: nat, lastError: Option<string>)

  datatype Trace = Trace(
    tradeId: string, decisionTsMs: Option<int>, submitResponseTsMs: Option<int>, ackTsMs: Option<int>,
    validatedTsMs: Option<int>, txHash: Option<string>, markouts: seq<Markout>)

  /** A trade as reported. `None` is a field that is absent. */
  datatype TradeInput = TradeInput(
    pair: string, side: Side, price: real, amount: real, filled: real,
    amountBase: Option<real>, filledBase: Option<real>, filledQuote: Option<real>, priceQuotePerBase: Option<real>,
    fee: real, pnl: real, hash: Option<string>, status: Status, source: Option<Source>, trace: Option<Trace>)

  /** A stored trade. */
  datatype Trade = Trade(id: string, timestamp: int, core: TradeInput)
}
