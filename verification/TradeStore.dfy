/** The hash-keyed trade history: normalising, replacing, evicting and tracing (src/analytics/tradeHistory.ts). */
module TradeStore {
  import opened Basics
  import opened Sorting
  import opened Trades

  const MAX_TRADES_IN_MEMORY := 1000

  /** Relative slack before a filled amount counts as larger than the amount asked for. */
  const OVERFILL: real := 1.000001

  function OrElse(a: Option<real>, b: real): real {
    if a.Some? then a.value else b
  }

  function Positive(v: real): real {
    if v > 0.0 then v else 0.0
  }

  /** `hash` counts only when it is present and not the empty string. */
  predicate HasHash(t: TradeInput) {
    t.hash.Some? && t.hash.value != ""
  }

  function StatusPriority(s: Status): int {
    match s
    case Filled => 4
    case Partial => 3
    case Rejected => 2
    case Pending => 1
  }

  // ---------------------------------------------------------------- normalising units

  function BaseAmount(t: TradeInput): real { Positive(OrElse(t.amountBase, t.amount)) }
  function FilledBase(t: TradeInput): real { Positive(OrElse(t.filledBase, t.filled)) }
  function FilledQuote(t: TradeInput): real { Positive(OrElse(t.filledQuote, 0.0)) }
  function UnitPrice(t: TradeInput): real { Positive(OrElse(t.priceQuotePerBase, t.price)) }

  function QuoteFor(base: real, price: real): real { base * price }

  function BaseFor(quote: real, price: real): real
    requires price > 0.0
  {
    quote / price
  }

  predicate IsOverfill(base: real, amount: real) {
    amount > 0.0 && base > amount * OVERFILL
  }

  /** Base and quote filled, after the repairs `normalizeTradeUnits` makes. */
  function RepairedFill(side: Side, amount: real, price: real, base: real, quote: real): (real, real) {
    var legacySell := quote == 0.0 && side.Sell? && IsOverfill(base, amount);
    var quote1 := if legacySell then base else quote;
    var base1 := if legacySell && price > 0.0 then BaseFor(quote1, price) else base;
    var quote2 := if quote1 == 0.0 && price > 0.0 && base1 > 0.0 then QuoteFor(base1, price) else quote1;
    var base2 := if IsOverfill(base1, amount) then amount else base1;
    (base2, quote2)
  }

  function NormalizedTrade(t: TradeInput, canon: string -> string): TradeInput {
    var amount, price := BaseAmount(t), UnitPrice(t);
    var fill := RepairedFill(t.side, amount, price, FilledBase(t), FilledQuote(t));
    t.(pair := canon(t.pair),
       price := if price > 0.0 then price else t.price,
       amount := amount, amountBase := Some(amount),
       filled := fill.0, filledBase := Some(fill.0),
       priceQuotePerBase := if price > 0.0 then Some(price) else t.priceQuotePerBase,
       filledQuote := if fill.1 > 0.0 then Some(fill.1) else t.filledQuote)
  }

  /** `normalizeTradeUnits`, with its two local reassignments. */
  method NormalizeTradeUnits(t: TradeInput, canon: string -> string) returns (r: TradeInput)
    ensures r == NormalizedTrade(t, canon)
  {
    hide QuoteFor, BaseFor, IsOverfill;
    var amountBase := BaseAmount(t);
    var priceQuotePerBase := UnitPrice(t);
    var filledBase := FilledBase(t);
    var filledQuote := FilledQuote(t);
    if filledQuote == 0.0 && t.side.Sell? && IsOverfill(filledBase, amountBase) {
      filledQuote := filledBase;
      if priceQuotePerBase > 0.0 {
        filledBase := BaseFor(filledQuote, priceQuotePerBase);
      }
    }
    if filledQuote == 0.0 && priceQuotePerBase > 0.0 && filledBase > 0.0 {
      filledQuote := QuoteFor(filledBase, priceQuotePerBase);
    }
    if IsOverfill(filledBase, amountBase) {
      filledBase := amountBase;
    }
    r := t.(pair := canon(t.pair),
            price := if priceQuotePerBase > 0.0 then priceQuotePerBase else t.price,
            amount := amountBase, amountBase := Some(amountBase),
            filled := filledBase, filledBase := Some(filledBase));
    if priceQuotePerBase > 0.0 {
      r := r.(priceQuotePerBase := Some(priceQuotePerBase));
    }
    if filledQuote > 0.0 {
      r := r.(filledQuote := Some(filledQuote));
    }
  }

  ghost predicate Idempotent(canon: string -> string) {
    forall s :: canon(canon(s)) == canon(s)
  }

  /** What a repaired fill satisfies: no overfill, and a quote leg whenever one can be derived. */
  lemma RepairedFillMeaning(side: Side, amount: real, price: real, base: real, quote: real)
    requires amount >= 0.0 && price >= 0.0 && base >= 0.0 && quote >= 0.0
    ensures var f := RepairedFill(side, amount, price, base, quote);
            && f.0 >= 0.0 && f.1 >= 0.0
            && (amount > 0.0 ==> f.0 <= amount * OVERFILL)
            && (f.1 == 0.0 ==> f.0 == 0.0 || price == 0.0)
            && (quote > 0.0 ==> f.1 == quote)
  {
    if price > 0.0 {
      QuotientAndProductSigns(base, price);
    }
  }

  lemma QuotientAndProductSigns(a: real, b: real)
    requires b > 0.0 && a >= 0.0
    ensures a / b >= 0.0 && (a > 0.0 ==> a / b > 0.0 && a * b > 0.0)
  {
  }

  /** A fill with nothing left to repair is left alone. */
  lemma RepairSettles(side: Side, amount: real, price: real, base: real, quote: real)
    requires amount >= 0.0 && price >= 0.0 && base >= 0.0 && quote >= 0.0
    requires amount > 0.0 ==> base <= amount * OVERFILL
    requires quote == 0.0 ==> base == 0.0 || price == 0.0
    ensures RepairedFill(side, amount, price, base, quote) == (base, quote)
  {
  }

  /** Normalising twice is normalising once. */
  lemma NormalizeIsIdempotent(t: TradeInput, canon: string -> string)
    requires Idempotent(canon)
    ensures NormalizedTrade(NormalizedTrade(t, canon), canon) == NormalizedTrade(t, canon)
  {
    hide RepairedFill;
    var amount, price := BaseAmount(t), UnitPrice(t);
    var f := RepairedFill(t.side, amount, price, FilledBase(t), FilledQuote(t));
    RepairedFillMeaning(t.side, amount, price, FilledBase(t), FilledQuote(t));
    RepairSettles(t.side, amount, price, f.0, f.1);
  }

  /** What a record reports: the newer field where it is present, else the older one; nothing that is not positive. */
  predicate Reports(t: TradeInput, amount: real, price: real, base: real, quote: real) {
    && amount == NotNegative(if t.amountBase.Some? then t.amountBase.value else t.amount)
    && price == NotNegative(if t.priceQuotePerBase.Some? then t.priceQuotePerBase.value else t.price)
    && base == NotNegative(if t.filledBase.Some? then t.filledBase.value else t.filled)
    && quote == NotNegative(if t.filledQuote.Some? then t.filledQuote.value else 0.0)
  }

  function NotNegative(v: real): real {
    if v <= 0.0 then 0.0 else v
  }

  /** More filled than asked for, by more than one part in a million. */
  predicate IsTooMuch(base: real, amount: real) {
    amount > 0.0 && base > amount * 1.000001
  }

  /**
   The normalised record in the reported numbers. A SELL that reports too much base and no quote has put its quote
   there. Where no quote is reported it is the base times the price; a base that is too much is cut to the amount.
   */
  lemma NormalizedTradeMeaning(t: TradeInput, canon: string -> string, amount: real, price: real, base: real,
                               quote: real)
    requires Reports(t, amount, price, base, quote)
    ensures var n, inQuote := NormalizedTrade(t, canon), quote == 0.0 && t.side == Sell && IsTooMuch(base, amount);
            && n.filledBase == Some(n.filled) && n.amount == amount && n.amountBase == Some(amount)
            && (quote > 0.0 ==> n.filledQuote == Some(quote))
            && (inQuote ==> n.filledQuote == Some(base))
            && (quote == 0.0 && !inQuote && price > 0.0 && base > 0.0 ==> n.filledQuote == Some(base * price))
            && (quote == 0.0 && !inQuote && (price == 0.0 || base == 0.0) ==> n.filledQuote == t.filledQuote)
            && (!inQuote || price == 0.0 ==> n.filled == if IsTooMuch(base, amount) then amount else base)
            && (inQuote && price > 0.0 ==> if base > amount * 1.000001 * price then n.filled == amount
                                           else n.filled * price == base)
    ensures var n := NormalizedTrade(t, canon);
            && n.pair == canon(t.pair)
            && (price > 0.0 ==> n.price == price && n.priceQuotePerBase == Some(price))
            && (price == 0.0 ==> n.price == t.price && n.priceQuotePerBase == t.priceQuotePerBase)
            && n.side == t.side && n.fee == t.fee && n.pnl == t.pnl && n.hash == t.hash && n.status == t.status
            && n.source == t.source && n.trace == t.trace
  {
    hide RepairedFill;
    RepairedFillNumbers(t.side, amount, price, base, quote);
  }

  lemma RepairedFillNumbers(side: Side, amount: real, price: real, base: real, quote: real)
    requires amount >= 0.0 && price >= 0.0 && base >= 0.0 && quote >= 0.0
    ensures var f, inQuote := RepairedFill(side, amount, price, base, quote),
                              quote == 0.0 && side == Sell && IsTooMuch(base, amount);
            && f.0 >= 0.0
            && f.1 == (if quote > 0.0 then quote else if inQuote then base
                       else if price > 0.0 && base > 0.0 then base * price else 0.0)
            && (f.1 > 0.0 <==> quote > 0.0 || inQuote || (price > 0.0 && base > 0.0))
            && (!inQuote || price == 0.0 ==> f.0 == if IsTooMuch(base, amount) then amount else base)
            && (inQuote && price > 0.0 ==> if base > amount * 1.000001 * price then f.0 == amount
                                           else f.0 * price == base)
  {
    if price > 0.0 {
      QuotientAndProductSigns(base, price);
      ScaledQuotient(base, price, amount * 1.000001);
    }
  }

  lemma ScaledQuotient(quote: real, price: real, limit: real)
    requires price > 0.0
    ensures quote / price > limit <==> quote > limit * price
    ensures quote / price * price == quote
  {
    var q := quote / price;
    QuotientTimes(quote, price);
    if q > limit {
      PositiveProduct(q - limit, price);
    } else {
      ScaleLe(q, limit, price);
    }
    assert (q - limit) * price == q * price - limit * price;
  }

  // ---------------------------------------------------------------- replacing by hash

  predicate ShouldReplaceByHash(existing: TradeInput, incoming: TradeInput) {
    var was, now := StatusPriority(existing.status), StatusPriority(incoming.status);
    if now > was then true
    else if now < was then false
    else
      var existingBase, incomingBase := FilledBase(existing), FilledBase(incoming);
      var limit := BaseAmount(existing) * OVERFILL;
      || (existingBase == 0.0 && incomingBase > 0.0)
      || (FilledQuote(existing) == 0.0 && FilledQuote(incoming) > 0.0)
      || (BaseAmount(existing) > 0.0 && existingBase > limit && incomingBase <= limit)
  }

  /** A status further on: filled before partial, partial before rejected, rejected before pending. */
  predicate Outranks(now: Status, was: Status) {
    match was
    case Filled => false
    case Partial => now == Filled
    case Rejected => now == Filled || now == Partial
    case Pending => now != Pending
  }

  /**
   A report replaces the stored one if and only if its status is further on, or the same and it adds the base or the
   quote that was missing, or corrects a base that was too much.
   */
  lemma ReplacesIff(existing: TradeInput, incoming: TradeInput, amount: real, price: real, base: real, quote: real,
                    amount': real, price': real, base': real, quote': real)
    requires Reports(existing, amount, price, base, quote) && Reports(incoming, amount', price', base', quote')
    ensures ShouldReplaceByHash(existing, incoming)
       <==> (|| Outranks(incoming.status, existing.status)
             || (incoming.status == existing.status
                 && (|| (base == 0.0 && base' > 0.0) || (quote == 0.0 && quote' > 0.0)
                     || (IsTooMuch(base, amount) && base' <= amount * 1.000001))))
  {
  }

  function Over<T>(existing: Option<T>, incoming: Option<T>): Option<T> {
    if incoming.Some? then incoming else existing
  }

  /** `{ ...existing, ...incoming }`: fields absent from the incoming record keep their old value. */
  function Merge(existing: TradeInput, incoming: TradeInput): TradeInput {
    TradeInput(incoming.pair, incoming.side, incoming.price, incoming.amount, incoming.filled,
               Over(existing.amountBase, incoming.amountBase), Over(existing.filledBase, incoming.filledBase),
               Over(existing.filledQuote, incoming.filledQuote),
               Over(existing.priceQuotePerBase, incoming.priceQuotePerBase),
               incoming.fee, incoming.pnl, Over(existing.hash, incoming.hash), incoming.status,
               Over(existing.source, incoming.source), Over(existing.trace, incoming.trace))
  }

  /** Index of the first trade with this hash, or -1. */
  function IndexOfHash(trades: seq<Trade>, hash: string): (i: int)
    ensures -1 <= i < |trades|
    ensures i == -1 <==> forall t :: t in trades ==> t.core.hash != Some(hash)
    ensures i >= 0 ==> trades[i].core.hash == Some(hash)
    ensures forall k :: 0 <= k < i ==> trades[k].core.hash != Some(hash)
  {
    if trades == [] then -1
    else if trades[0].core.hash == Some(hash) then 0
    else
      var i := IndexOfHash(trades[1..], hash);
      assert forall t :: t in trades ==> t == trades[0] || t in trades[1..];
      if i == -1 then -1 else i + 1
  }

  function IndexOfId(trades: seq<Trade>, id: string): (i: int)
    ensures -1 <= i < |trades|
    ensures i == -1 <==> forall t :: t in trades ==> t.id != id
    ensures i >= 0 ==> trades[i].id == id
    ensures forall k :: 0 <= k < i ==> trades[k].id != id
  {
    if trades == [] then -1
    else if trades[0].id == id then 0
    else
      var i := IndexOfId(trades[1..], id);
      assert forall t :: t in trades ==> t == trades[0] || t in trades[1..];
      if i == -1 then -1 else i + 1
  }

  ghost predicate HashesUnique(trades: seq<Trade>) {
    forall i, j :: 0 <= i < j < |trades| && HasHash(trades[i].core) ==> trades[i].core.hash != trades[j].core.hash
  }

  ghost predicate ValidStore(trades: seq<Trade>) {
    HashesUnique(trades) && |trades| <= 1000
  }

  // ---------------------------------------------------------------- removing duplicates

  function DedupeStep(kept: seq<Trade>, t: Trade): seq<Trade> {
    if !HasHash(t.core) then kept + [t]
    else
      var idx := IndexOfHash(kept, t.core.hash.value);
      if idx == -1 then kept + [t]
      else if ShouldReplaceByHash(kept[idx].core, t.core) then
        kept[idx := Trade(t.id, t.timestamp, Merge(kept[idx].core, t.core))]
      else kept
  }

  function Deduped(trades: seq<Trade>): seq<Trade> {
    if trades == [] then [] else DedupeStep(Deduped(trades[..|trades| - 1]), trades[|trades| - 1])
  }

  method DedupeTradesByHash(trades: seq<Trade>) returns (deduped: seq<Trade>)
    ensures deduped == Deduped(trades)
  {
    deduped := [];
    for i := 0 to |trades|
      invariant deduped == Deduped(trades[..i])
    {
      var trade := trades[i];
      assert trades[..i + 1][..i] == trades[..i];
      if !HasHash(trade.core) {
        deduped := deduped + [trade];
      } else {
        var idx := IndexOfHash(deduped, trade.core.hash.value);
        if idx == -1 {
          deduped := deduped + [trade];
        } else if ShouldReplaceByHash(deduped[idx].core, trade.core) {
          deduped := deduped[idx := Trade(trade.id, trade.timestamp, Merge(deduped[idx].core, trade.core))];
        }
      }
    }
    assert trades[..|trades|] == trades;
  }

  /** The highest status priority seen for a hash, 0 when it does not occur. */
  function BestPriority(trades: seq<Trade>, hash: string): int {
    if trades == [] then 0
    else
      var t, before := trades[|trades| - 1], BestPriority(trades[..|trades| - 1], hash);
      if t.core.hash == Some(hash) then MaxInt(before, StatusPriority(t.core.status)) else before
  }

  ghost predicate Holds(trades: seq<Trade>, hash: string) {
    exists t :: t in trades && t.core.hash == Some(hash)
  }

  function PriorityOf(trades: seq<Trade>, hash: string): int {
    var i := IndexOfHash(trades, hash);
    if i == -1 then 0 else StatusPriority(trades[i].core.status)
  }

  lemma FirstIndexIs(trades: seq<Trade>, i: nat)
    requires HashesUnique(trades) && i < |trades| && HasHash(trades[i].core)
    ensures IndexOfHash(trades, trades[i].core.hash.value) == i
  {
    var k := IndexOfHash(trades, trades[i].core.hash.value);
    assert trades[i] in trades;
    assert k <= i;
    assert HasHash(trades[k].core);
  }

  lemma DedupeStepKeeps(kept: seq<Trade>, t: Trade)
    requires HashesUnique(kept)
    ensures HashesUnique(DedupeStep(kept, t))
    ensures forall h :: h != "" ==>
              PriorityOf(DedupeStep(kept, t), h)
                == if t.core.hash == Some(h) then MaxInt(PriorityOf(kept, h), StatusPriority(t.core.status))
                  else PriorityOf(kept, h)
  {
    hide PriorityOf, DedupeStep, HashesUnique;
    var next := DedupeStep(kept, t);
    DedupeStepUnique(kept, t);
    forall h | h != ""
      ensures PriorityOf(next, h)
           == if t.core.hash == Some(h) then MaxInt(PriorityOf(kept, h), StatusPriority(t.core.status))
             else PriorityOf(kept, h)
    {
      DedupeStepPriority(kept, t, h);
    }
  }

  lemma DedupeStepUnique(kept: seq<Trade>, t: Trade)
    requires HashesUnique(kept)
    ensures HashesUnique(DedupeStep(kept, t))
  {
  }

  lemma DedupeStepPriority(kept: seq<Trade>, t: Trade, h: string)
    requires HashesUnique(kept) && h != ""
    ensures PriorityOf(DedupeStep(kept, t), h)
         == if t.core.hash == Some(h) then MaxInt(PriorityOf(kept, h), StatusPriority(t.core.status))
           else PriorityOf(kept, h)
  {
    hide IndexOfHash;
    var next := DedupeStep(kept, t);
    if |next| > |kept| {
      IndexOfAppended(kept, t, h);
    } else {
      assert forall k :: 0 <= k < |kept| ==> next[k].core.hash == kept[k].core.hash;
      SameHashesSameIndex(kept, next, h);
    }
  }

  lemma IndexOfAppended(trades: seq<Trade>, t: Trade, h: string)
    ensures var i := IndexOfHash(trades, h);
            IndexOfHash(trades + [t], h) == if i >= 0 then i else if t.core.hash == Some(h) then |trades| else -1
  {
    hide IndexOfHash;
    var all, i := trades + [t], IndexOfHash(trades, h);
    assert all[|trades|] == t && all[|trades|] in all;
    assert forall k :: 0 <= k < |trades| ==> all[k] == trades[k] && trades[k] in trades;
    if i >= 0 {
      assert all[i] in all;
    }
  }

  lemma SameHashesSameIndex(a: seq<Trade>, b: seq<Trade>, h: string)
    requires |a| == |b| && forall k :: 0 <= k < |a| ==> b[k].core.hash == a[k].core.hash
    ensures IndexOfHash(a, h) == IndexOfHash(b, h)
  {
    var i, j := IndexOfHash(a, h), IndexOfHash(b, h);
    if i >= 0 {
      assert b[i] in b && b[i].core.hash == Some(h);
    }
    if j >= 0 {
      assert a[j] in a && a[j].core.hash == Some(h);
    }
  }

  /** After removing duplicates each hash occurs once, at the highest priority seen for it. */
  lemma {:induction false} DedupeKeepsBest(trades: seq<Trade>)
    ensures HashesUnique(Deduped(trades))
    ensures forall h :: h != "" ==> PriorityOf(Deduped(trades), h) == BestPriority(trades, h)
  {
    if trades == [] {
    } else {
      var n := |trades| - 1;
      DedupeKeepsBest(trades[..n]);
      DedupeStepKeeps(Deduped(trades[..n]), trades[n]);
    }
  }

  /** A list without duplicate hashes is left alone, so removing duplicates is idempotent. */
  lemma {:induction false} DedupeFixesUnique(trades: seq<Trade>)
    requires HashesUnique(trades)
    ensures Deduped(trades) == trades
  {
    hide DedupeStep;
    if trades == [] {
    } else {
      DedupeFixesUnique(trades[..|trades| - 1]);
      UniqueIsAppended(trades);
    }
  }

  lemma UniqueIsAppended(trades: seq<Trade>)
    requires HashesUnique(trades) && trades != []
    ensures DedupeStep(trades[..|trades| - 1], trades[|trades| - 1]) == trades
  {
    hide IndexOfHash, ShouldReplaceByHash;
    var n := |trades| - 1;
    if HasHash(trades[n].core) {
      forall t | t in trades[..n]
        ensures t.core.hash != trades[n].core.hash
      {
        var k :| 0 <= k < n && trades[k] == t;
        assert HasHash(trades[k].core) ==> trades[k].core.hash != trades[n].core.hash;
      }
    }
    assert trades == trades[..n] + [trades[n]];
  }

  lemma DedupeIsIdempotent(trades: seq<Trade>)
    ensures Deduped(Deduped(trades)) == Deduped(trades)
  {
    DedupeKeepsBest(trades);
    DedupeFixesUnique(Deduped(trades));
  }

  predicate IsHashless(t: Trade) {
    !HasHash(t.core)
  }

  lemma StepKeepsHashless(kept: seq<Trade>, t: Trade)
    ensures Filter(DedupeStep(kept, t), IsHashless) == Filter(kept, IsHashless) + (if IsHashless(t) then [t] else [])
  {
    hide Merge, ShouldReplaceByHash;
    FilterAppend(kept, t, IsHashless);
    if HasHash(t.core) {
      var idx := IndexOfHash(kept, t.core.hash.value);
      if idx >= 0 {
        MergeKeepsHash(kept[idx].core, t.core);
        ReplacingHashed(kept, idx, Trade(t.id, t.timestamp, Merge(kept[idx].core, t.core)));
      }
    }
  }

  lemma MergeKeepsHash(existing: TradeInput, incoming: TradeInput)
    ensures HasHash(incoming) ==> Merge(existing, incoming).hash == incoming.hash
    ensures Merge(existing, incoming).status == incoming.status
  {
  }

  /** Trades without a hash are all kept, in order. */
  lemma {:induction false} DedupeKeepsHashless(trades: seq<Trade>)
    ensures Filter(Deduped(trades), IsHashless) == Filter(trades, IsHashless)
  {
    hide DedupeStep, IsHashless, Filter;
    if trades == [] {
    } else {
      var n, t := |trades| - 1, trades[|trades| - 1];
      DedupeKeepsHashless(trades[..n]);
      assert trades == trades[..n] + [t];
      FilterAppend(trades[..n], t, IsHashless);
      StepKeepsHashless(Deduped(trades[..n]), t);
    }
  }

  lemma {:induction false} ReplacingHashed(trades: seq<Trade>, i: nat, t: Trade)
    requires i < |trades| && !IsHashless(trades[i]) && !IsHashless(t)
    ensures Filter(trades[i := t], IsHashless) == Filter(trades, IsHashless)
  {
    var next := trades[i := t];
    if i == 0 {
      assert next[1..] == trades[1..];
    } else {
      assert next[1..] == trades[1..][i - 1 := t];
      ReplacingHashed(trades[1..], i - 1, t);
    }
  }

  // ---------------------------------------------------------------- recording

  function LastThousand(trades: seq<Trade>): seq<Trade> {
    if |trades| > MAX_TRADES_IN_MEMORY then trades[|trades| - MAX_TRADES_IN_MEMORY..] else trades
  }

  function SourceOf(t: TradeInput): Source {
    if t.source == Some(Manual) then Manual else Bot
  }

  /** The store and the answer after `recordTrade`; `id` and `nowMs` are the generated identity and clock. */
  function AfterRecord(trades: seq<Trade>, trade: TradeInput, id: string, nowMs: int,
                       canon: string -> string): (seq<Trade>, Trade) {
    var normalized := NormalizedTrade(trade, canon);
    var i := if HasHash(normalized) then IndexOfHash(trades, normalized.hash.value) else -1;
    if i != -1 then
      if !ShouldReplaceByHash(trades[i].core, normalized) then (trades, trades[i])
      else
        var replacement := trades[i].(core := Merge(trades[i].core, normalized).(source := Some(SourceOf(normalized))));
        (trades[i := replacement], replacement)
    else
      var fullTrade := Trade(id, nowMs, normalized.(source := Some(SourceOf(normalized))));
      (LastThousand(trades + [fullTrade]), fullTrade)
  }

  lemma NormalizingKeepsIdentity(t: TradeInput, canon: string -> string)
    ensures var n := NormalizedTrade(t, canon);
            n.hash == t.hash && n.status == t.status && n.side == t.side && n.trace == t.trace && n.source == t.source
  {
  }

  /**
   A known hash is answered in place; anything else goes to the back and, when the store is full, evicts the
   oldest.
   */
  lemma RecordShape(trades: seq<Trade>, trade: TradeInput, id: string, nowMs: int, canon: string -> string)
    requires |trades| <= 1000
    ensures var after := AfterRecord(trades, trade, id, nowMs, canon);
            var i := if HasHash(trade) then IndexOfHash(trades, trade.hash.value) else -1;
            && after.1.core.hash == trade.hash
            && after.0 == if i >= 0 then trades[i := after.1]
                          else (if |trades| < 1000 then trades else trades[1..]) + [after.1]
  {
    hide AfterRecord, NormalizedTrade;
    NormalizingKeepsIdentity(trade, canon);
    if HasHash(trade) && IndexOfHash(trades, trade.hash.value) >= 0 {
      KnownIsAnsweredInPlace(trades, trade, id, nowMs, canon);
    } else {
      NewGoesToTheBack(trades, trade, id, nowMs, canon);
    }
  }

  /** One optional field of a report over a stored one. */
  ghost predicate IsLater<T(!new)>(now: Option<T>, was: Option<T>, reported: Option<T>) {
    (reported.Some? ==> now == reported) && (reported.None? ==> now == was)
  }

  /** A stored record over which another was reported: what the report leaves out is kept, all else is taken. */
  ghost predicate IsUpdated(now: TradeInput, was: TradeInput, reported: TradeInput) {
    && now.pair == reported.pair && now.side == reported.side && now.status == reported.status
    && now.price == reported.price && now.amount == reported.amount && now.filled == reported.filled
    && now.fee == reported.fee && now.pnl == reported.pnl
    && now.source == Some(if reported.source == Some(Manual) then Manual else Bot)
    && IsLater(now.amountBase, was.amountBase, reported.amountBase)
    && IsLater(now.filledBase, was.filledBase, reported.filledBase)
    && IsLater(now.filledQuote, was.filledQuote, reported.filledQuote)
    && IsLater(now.priceQuotePerBase, was.priceQuotePerBase, reported.priceQuotePerBase)
    && IsLater(now.hash, was.hash, reported.hash) && IsLater(now.trace, was.trace, reported.trace)
  }

  /**
   What a recording answers. For the hash of a stored trade: that trade, with its own identity and time, and with its
   record brought up to date when the report replaces it. Otherwise a new trade with the generated ones.
   */
  lemma RecordedTradeMeaning(trades: seq<Trade>, trade: TradeInput, id: string, nowMs: int, canon: string -> string)
    ensures var answer, reported := AfterRecord(trades, trade, id, nowMs, canon).1, NormalizedTrade(trade, canon);
            var i := if HasHash(trade) then IndexOfHash(trades, trade.hash.value) else -1;
            && (i >= 0 ==>
                  && answer.id == trades[i].id && answer.timestamp == trades[i].timestamp
                  && (ShouldReplaceByHash(trades[i].core, reported) ==>
                        IsUpdated(answer.core, trades[i].core, reported))
                  && (!ShouldReplaceByHash(trades[i].core, reported) ==> answer == trades[i]))
            && (i < 0 ==>
                  && answer.id == id && answer.timestamp == nowMs
                  && answer.core
                  == reported.(source := Some(if trade.source == Some(Manual) then Manual else Bot)))
  {
    hide NormalizedTrade, ShouldReplaceByHash, LastThousand;
    NormalizingKeepsIdentity(trade, canon);
  }

  lemma KnownIsAnsweredInPlace(trades: seq<Trade>, trade: TradeInput, id: string, nowMs: int, canon: string -> string)
    requires HasHash(trade) && IndexOfHash(trades, trade.hash.value) >= 0
    ensures var after := AfterRecord(trades, trade, id, nowMs, canon);
            after.1.core.hash == trade.hash && after.0 == trades[IndexOfHash(trades, trade.hash.value) := after.1]
  {
    hide NormalizedTrade, ShouldReplaceByHash, Merge, LastThousand;
    NormalizingKeepsIdentity(trade, canon);
    var i := IndexOfHash(trades, trade.hash.value);
    MergeKeepsHash(trades[i].core, NormalizedTrade(trade, canon));
    assert trades[i := trades[i]] == trades;
  }

  lemma NewGoesToTheBack(trades: seq<Trade>, trade: TradeInput, id: string, nowMs: int, canon: string -> string)
    requires |trades| <= MAX_TRADES_IN_MEMORY
    requires !(HasHash(trade) && IndexOfHash(trades, trade.hash.value) >= 0)
    ensures var after := AfterRecord(trades, trade, id, nowMs, canon);
            && after.1.core.hash == trade.hash
            && after.0 == (if |trades| < MAX_TRADES_IN_MEMORY then trades else trades[1..]) + [after.1]
  {
    hide NormalizedTrade, ShouldReplaceByHash, Merge, LastThousand;
    NormalizingKeepsIdentity(trade, canon);
    LastThousandEvictsOldest(trades, AfterRecord(trades, trade, id, nowMs, canon).1);
  }

  lemma LastThousandEvictsOldest(trades: seq<Trade>, t: Trade)
    requires |trades| <= MAX_TRADES_IN_MEMORY
    ensures LastThousand(trades + [t]) == (if |trades| < MAX_TRADES_IN_MEMORY then trades else trades[1..]) + [t]
  {
  }

  /** Recording keeps hashes unique and the store within its bound, and the answer is in the store. */
  lemma RecordKeepsStore(trades: seq<Trade>, trade: TradeInput, id: string, nowMs: int, canon: string -> string)
    requires ValidStore(trades)
    ensures var after := AfterRecord(trades, trade, id, nowMs, canon);
            ValidStore(after.0) && after.1 in after.0 && after.1.core.hash == trade.hash
  {
    hide AfterRecord;
    RecordShape(trades, trade, id, nowMs, canon);
    var after := AfterRecord(trades, trade, id, nowMs, canon);
    var i := if HasHash(trade) then IndexOfHash(trades, trade.hash.value) else -1;
    if i >= 0 {
      assert forall k :: 0 <= k < |trades| ==> after.0[k].core.hash == trades[k].core.hash;
      assert after.0[i] == after.1;
    } else {
      var kept := if |trades| < MAX_TRADES_IN_MEMORY then trades else trades[1..];
      assert forall t :: t in kept ==> t in trades;
      assert forall k :: 0 <= k < |kept| ==> kept[k] in trades;
      assert HashesUnique(kept + [after.1]);
      assert after.0[|kept|] == after.1;
    }
  }

  /** The status priority of a hash that stays in the store never falls. */
  lemma RecordKeepsPriority(trades: seq<Trade>, trade: TradeInput, id: string, nowMs: int, canon: string -> string,
                            h: string)
    requires ValidStore(trades) && h != ""
    requires Holds(trades, h) && Holds(AfterRecord(trades, trade, id, nowMs, canon).0, h)
    ensures PriorityOf(AfterRecord(trades, trade, id, nowMs, canon).0, h) >= PriorityOf(trades, h)
  {
    hide NormalizedTrade, HashesUnique, AfterRecord;
    RecordKeepsStore(trades, trade, id, nowMs, canon);
    RecordShape(trades, trade, id, nowMs, canon);
    var after := AfterRecord(trades, trade, id, nowMs, canon);
    var i, j := IndexOfHash(trades, h), IndexOfHash(after.0, h);
    if trade.hash == Some(h) {
      AnswerKeepsPriority(trades, trade, id, nowMs, canon);
      SameHashesSameIndex(trades, after.0, h);
    } else {
      StaysFromBefore(trades, after.1, if HasHash(trade) then IndexOfHash(trades, trade.hash.value) else -1,
                      after.0[j]);
      OthersUntouched(trades, after.0, after.0[j]);
    }
  }

  lemma StaysFromBefore(trades: seq<Trade>, r: Trade, i: int, t: Trade)
    requires -1 <= i < |trades| && t != r
    requires t in (if i >= 0 then trades[i := r] else trades + [r]) || (trades != [] && t in trades[1..] + [r])
    ensures t in trades
  {
  }

  lemma AnswerKeepsPriority(trades: seq<Trade>, trade: TradeInput, id: string, nowMs: int, canon: string -> string)
    requires HasHash(trade) && Holds(trades, trade.hash.value)
    ensures var answer := AfterRecord(trades, trade, id, nowMs, canon).1;
            StatusPriority(answer.core.status) >= PriorityOf(trades, trade.hash.value)
  {
    hide NormalizedTrade;
    NormalizingKeepsIdentity(trade, canon);
  }

  lemma OthersUntouched(trades: seq<Trade>, after: seq<Trade>, t: Trade)
    requires HashesUnique(trades) && HashesUnique(after) && HasHash(t.core) && t in trades && t in after
    ensures PriorityOf(trades, t.core.hash.value) == PriorityOf(after, t.core.hash.value)
  {
    var i :| 0 <= i < |trades| && trades[i] == t;
    var j :| 0 <= j < |after| && after[j] == t;
    FirstIndexIs(trades, i);
    FirstIndexIs(after, j);
  }

  /** Re-recording the same hashed trade changes nothing and answers with the stored record. */
  lemma RerecordIsNoOp(trades: seq<Trade>, trade: TradeInput, id: string, nowMs: int, id': string, nowMs': int,
                       canon: string -> string)
    requires ValidStore(trades) && HasHash(trade)
    ensures var once := AfterRecord(trades, trade, id, nowMs, canon);
            AfterRecord(once.0, trade, id', nowMs', canon) == (once.0, once.1)
  {
    hide NormalizedTrade, BaseAmount, FilledBase, FilledQuote, Merge, ShouldReplaceByHash;
    NormalizingKeepsIdentity(trade, canon);
    NormalizedFields(trade, canon);
    RecordKeepsStore(trades, trade, id, nowMs, canon);
    var normalized := NormalizedTrade(trade, canon);
    var once := AfterRecord(trades, trade, id, nowMs, canon);
    var i := IndexOfHash(trades, trade.hash.value);
    if i == -1 {
      SettledNeedsNoReplacement(normalized, SourceOf(normalized), normalized);
    } else if ShouldReplaceByHash(trades[i].core, normalized) {
      MergeTakesAmounts(trades[i].core, normalized);
      SettledNeedsNoReplacement(Merge(trades[i].core, normalized), SourceOf(normalized), normalized);
    }
    var k :| 0 <= k < |once.0| && once.0[k] == once.1;
    FirstIndexIs(once.0, k);
  }

  /** Normalising always writes the base amounts. */
  lemma NormalizedFields(t: TradeInput, canon: string -> string)
    ensures NormalizedTrade(t, canon).amountBase.Some? && NormalizedTrade(t, canon).filledBase.Some?
  {
  }

  lemma MergeTakesAmounts(existing: TradeInput, incoming: TradeInput)
    requires incoming.amountBase.Some? && incoming.filledBase.Some?
    ensures var m := Merge(existing, incoming);
            && m.status == incoming.status
            && FilledBase(m) == FilledBase(incoming)
            && (FilledQuote(m) == FilledQuote(incoming) || incoming.filledQuote.None?)
  {
  }

  /** A record that carries the incoming status and fill has nothing left to take from it. */
  lemma SettledNeedsNoReplacement(stored: TradeInput, source: Source, incoming: TradeInput)
    requires stored.status == incoming.status && FilledBase(stored) == FilledBase(incoming)
    requires FilledQuote(stored) == FilledQuote(incoming) || incoming.filledQuote.None?
    ensures !ShouldReplaceByHash(stored.(source := Some(source)), incoming)
  {
  }

  // ---------------------------------------------------------------- traces

  /** A partial trace: `None` leaves a field alone, `Some(None)` clears it. */
  datatype TracePatch = TracePatch(
    decisionTsMs: Option<Option<int>>, submitResponseTsMs: Option<Option<int>>, ackTsMs: Option<Option<int>>,
    validatedTsMs: Option<Option<int>>, txHash: Option<Option<string>>, markouts: Option<seq<Markout>>)

  const NO_PATCH := TracePatch(None, None, None, None, None, None)

  function Patched<T>(patch: Option<T>, base: T): T {
    if patch.Some? then patch.value else base
  }

  function BaseTrace(t: Trade): Trace {
    if t.core.trace.Some? then t.core.trace.value
    else Trace(t.id, Some(t.timestamp), None, None, None, t.core.hash, [])
  }

  function MergedTrace(t: Trade, patch: TracePatch): Trace {
    var base := BaseTrace(t);
    var submit := Patched(patch.submitResponseTsMs, Patched(patch.ackTsMs, base.submitResponseTsMs));
    var ack := Patched(patch.ackTsMs, Patched(patch.submitResponseTsMs, base.ackTsMs));
    Trace(if base.tradeId != "" then base.tradeId else t.id,
          Patched(patch.decisionTsMs, base.decisionTsMs),
          submit,
          if ack.Some? then ack else submit,
          Patched(patch.validatedTsMs, base.validatedTsMs),
          Patched(patch.txHash, if base.txHash.Some? then base.txHash else t.core.hash),
          Patched(patch.markouts, base.markouts))
  }

  /** An acknowledgement and a submit response stand in for each other when only one is reported. */
  lemma MergedTraceMeaning(t: Trade, patch: TracePatch)
    ensures var m := MergedTrace(t, patch);
            && (m.ackTsMs.None? ==> m.submitResponseTsMs.None?)
            && (patch.ackTsMs.Some? && patch.ackTsMs.value.Some? ==> m.ackTsMs == patch.ackTsMs.value)
            && (patch.submitResponseTsMs.None? && patch.ackTsMs.Some? ==> m.submitResponseTsMs == patch.ackTsMs.value)
            && MergedTrace(t.(core := t.core.(trace := Some(m))), NO_PATCH)
                 == m.(txHash := if m.txHash.Some? then m.txHash else t.core.hash)
  {
  }

  /** One field of a trace under a patch: the patch where it speaks, else as it was. */
  ghost predicate IsPatched<T(!new)>(now: T, was: T, patch: Option<T>) {
    (patch.Some? ==> now == patch.value) && (patch.None? ==> now == was)
  }

  function FirstPresent<T>(a: Option<T>, b: Option<T>): Option<T> {
    if a.Some? then a else b
  }

  /**
   A patched trade: status, sizes and prices stay; the trace takes what the patch says. A trade without a trace starts
   one at its own time. A profit derived from the trace is stored only for an executed trade that has none.
   */
  lemma PatchedTradeMeaning(t: Trade, patch: TracePatch, resolvedPnl: Option<real>)
    ensures var now, core := WithTrace(t, patch, resolvedPnl), t.core;
            && now.id == t.id && now.timestamp == t.timestamp && now.core.trace.Some?
            && now.core == core.(hash := now.core.hash, trace := now.core.trace, pnl := now.core.pnl)
            && (core.hash.Some? && core.hash.value != "" ==> now.core.hash == core.hash)
            && (now.core.pnl == core.pnl
                || (&& (core.status == Filled || core.status == Partial)
                    && -0.000000000001 < core.pnl < 0.000000000001 && resolvedPnl == Some(now.core.pnl)))
            && ((core.status == Filled || core.status == Partial) && core.pnl == 0.0 && resolvedPnl.Some? ==>
                  now.core.pnl == resolvedPnl.value)
    ensures var trace := WithTrace(t, patch, resolvedPnl).core.trace;
            var was := if t.core.trace.Some? then t.core.trace.value
                       else Trace(t.id, Some(t.timestamp), None, None, None, t.core.hash, []);
            && trace.Some?
            && IsPatched(trace.value.decisionTsMs, was.decisionTsMs, patch.decisionTsMs)
            && IsPatched(trace.value.validatedTsMs, was.validatedTsMs, patch.validatedTsMs)
            && IsPatched(trace.value.markouts, was.markouts, patch.markouts)
            && (was.txHash.Some? ==> IsPatched(trace.value.txHash, was.txHash, patch.txHash))
            && (was.txHash.None? ==> IsPatched(trace.value.txHash, t.core.hash, patch.txHash))
            && (patch.ackTsMs.None? ==>
                  IsPatched(trace.value.submitResponseTsMs, was.submitResponseTsMs, patch.submitResponseTsMs))
            && (patch.submitResponseTsMs.Some? ==> trace.value.submitResponseTsMs == patch.submitResponseTsMs.value)
            && (patch.ackTsMs.Some? && patch.submitResponseTsMs.None? ==>
                  trace.value.submitResponseTsMs == patch.ackTsMs.value)
            && trace.value.ackTsMs
            == FirstPresent(if patch.ackTsMs.Some? then patch.ackTsMs.value
                            else if patch.submitResponseTsMs.Some? then patch.submitResponseTsMs.value
                            else was.ackTsMs, trace.value.submitResponseTsMs)
            && trace.value.tradeId == (if was.tradeId != "" then was.tradeId else t.id)
  {
  }

  /** Looks a trade up by hash first and by id otherwise; empty keys match nothing. */
  function FindTrade(trades: seq<Trade>, hash: string, tradeId: string): (i: int)
    ensures -1 <= i < |trades|
  {
    var byHash := if hash != "" then IndexOfHash(trades, hash) else -1;
    if byHash == -1 && tradeId != "" then IndexOfId(trades, tradeId) else byHash
  }

  /** The earliest trade with the hash, else the earliest with the id; an empty hash or id finds nothing. */
  lemma FindTradeMeaning(trades: seq<Trade>, hash: string, tradeId: string)
    ensures var i := FindTrade(trades, hash, tradeId);
            var byHash := hash != "" && exists t :: t in trades && t.core.hash == Some(hash);
            var byId := !byHash && tradeId != "" && exists t :: t in trades && t.id == tradeId;
            && (i >= 0 <==> byHash || byId) && (i < 0 <==> i == -1)
            && (byHash ==> trades[i].core.hash == Some(hash)
                           && forall k :: 0 <= k < i ==> trades[k].core.hash != Some(hash))
            && (byId ==> trades[i].id == tradeId && forall k :: 0 <= k < i ==> trades[k].id != tradeId)
  {
  }

  /** The hash a trade carries after its trace is merged. */
  function HashAfterTrace(t: Trade, trace: Trace): Option<string> {
    if HasHash(t.core) then t.core.hash
    else if trace.txHash.Some? && trace.txHash.value != "" then trace.txHash
    else t.core.hash
  }

  /** `resolvedPnl` is the profit derived from the merged trace, when there is one. */
  function WithTrace(t: Trade, patch: TracePatch, resolvedPnl: Option<real>): Trade {
    var trace := MergedTrace(t, patch);
    var executed := t.core.status.Filled? || t.core.status.Partial?;
    t.(core := t.core.(hash := HashAfterTrace(t, trace), trace := Some(trace),
                       pnl := if executed && Abs(t.core.pnl) < DUST && resolvedPnl.Some? then resolvedPnl.value
                              else t.core.pnl))
  }

  function AfterUpsert(trades: seq<Trade>, hash: string, tradeId: string, patch: TracePatch,
                       resolvedPnl: Option<real>): seq<Trade> {
    var i := FindTrade(trades, hash, tradeId);
    if i == -1 then trades else trades[i := WithTrace(trades[i], patch, resolvedPnl)]
  }

  /** The trade found carries a hash already, gains none, or gains one that no other record holds. */
  ghost predicate GainsFreeHash(trades: seq<Trade>, i: int, patch: TracePatch)
    requires 0 <= i < |trades|
  {
    var next := HashAfterTrace(trades[i], MergedTrace(trades[i], patch));
    next == trades[i].core.hash || forall k :: 0 <= k < |trades| && k != i ==> trades[k].core.hash != next
  }

  /** Merging a trace keeps hashes unique exactly when the hash it brings is free. */
  lemma UpsertKeepsStoreIff(trades: seq<Trade>, hash: string, tradeId: string, patch: TracePatch,
                            resolvedPnl: Option<real>)
    requires ValidStore(trades)
    ensures var i := FindTrade(trades, hash, tradeId);
            ValidStore(AfterUpsert(trades, hash, tradeId, patch, resolvedPnl))
            <==> i == -1 || GainsFreeHash(trades, i, patch)
  {
    hide MergedTrace;
    var i := FindTrade(trades, hash, tradeId);
    if i >= 0 {
      var after := AfterUpsert(trades, hash, tradeId, patch, resolvedPnl);
      assert forall k :: 0 <= k < |trades| && k != i ==> after[k] == trades[k];
      var next := HashAfterTrace(trades[i], MergedTrace(trades[i], patch));
      assert after[i].core.hash == next;
      if next != trades[i].core.hash && HashesUnique(after) {
        forall k | 0 <= k < |trades| && k != i
          ensures trades[k].core.hash != next
        {
          assert HasHash(after[i].core);
          assert after[k].core.hash == trades[k].core.hash;
        }
      }
    }
  }

  /** A record without a hash that is patched with another record's: two records then share it. */
  lemma UpsertMayShareHash(t: TradeInput)
    ensures var first, second := t.(hash := Some("A"), trace := None), t.(hash := None, trace := None);
            var trades := [Trade("1", 0, first), Trade("2", 0, second)];
            var after := AfterUpsert(trades, "", "2", NO_PATCH.(txHash := Some(Some("A"))), None);
            && ValidStore(trades) && !ValidStore(after)
            && after[0].core.hash == after[1].core.hash == Some("A")
  {
    var first, second := t.(hash := Some("A"), trace := None), t.(hash := None, trace := None);
    var trades := [Trade("1", 0, first), Trade("2", 0, second)];
    var patch := NO_PATCH.(txHash := Some(Some("A")));
    assert trades[0].id == "1" && trades[1].id == "2";
    assert FindTrade(trades, "", "2") == 1;
    UpsertKeepsStoreIff(trades, "", "2", patch, None);
    assert !GainsFreeHash(trades, 1, patch);
  }

  // ---------------------------------------------------------------- markouts

  function HorizonKey(m: Markout): real {
    m.horizonS as real
  }

  function IndexOfHorizon(ms: seq<Markout>, horizonS: int): (i: int)
    ensures -1 <= i < |ms|
    ensures i == -1 <==> forall m :: m in ms ==> m.horizonS != horizonS
    ensures i >= 0 ==> ms[i].horizonS == horizonS
  {
    if ms == [] then -1
    else if ms[0].horizonS == horizonS then 0
    else
      var i := IndexOfHorizon(ms[1..], horizonS);
      assert forall m :: m in ms ==> m == ms[0] || m in ms[1..];
      if i == -1 then -1 else i + 1
  }

  function PutMarkout(ms: seq<Markout>, m: Markout): seq<Markout> {
    var i := IndexOfHorizon(ms, m.horizonS);
    StableSort(if i >= 0 then ms[i := m] else ms + [m], HorizonKey)
  }

  ghost predicate HorizonsUnique(ms: seq<Markout>) {
    forall i, j :: 0 <= i < j < |ms| ==> ms[i].horizonS != ms[j].horizonS
  }

  lemma {:induction false} InsertKeepsHorizonsUnique(m: Markout, ms: seq<Markout>)
    requires HorizonsUnique(ms) && forall x :: x in ms ==> x.horizonS != m.horizonS
    ensures HorizonsUnique(Insert(m, ms, HorizonKey))
  {
    if |ms| > 0 && HorizonKey(m) > HorizonKey(ms[0]) {
      var rest := Insert(m, ms[1..], HorizonKey);
      InsertKeepsHorizonsUnique(m, ms[1..]);
      forall x | x in rest
        ensures x.horizonS != ms[0].horizonS
      {
        assert x in multiset(rest);
        assert x == m || x in ms[1..];
      }
    }
  }

  lemma {:induction false} SortKeepsHorizonsUnique(ms: seq<Markout>)
    requires HorizonsUnique(ms)
    ensures HorizonsUnique(StableSort(ms, HorizonKey))
  {
    if |ms| == 0 {
    } else {
      SortKeepsHorizonsUnique(ms[1..]);
      SortKeepsMembers(ms[1..], HorizonKey);
      InsertKeepsHorizonsUnique(ms[0], StableSort(ms[1..], HorizonKey));
    }
  }

  /** The markout replaces any other for its horizon, the others stay, and the list is sorted by horizon. */
  lemma PutMarkoutMeaning(ms: seq<Markout>, m: Markout)
    requires HorizonsUnique(ms)
    ensures var r := PutMarkout(ms, m);
            && HorizonsUnique(r) && (forall i, j :: 0 <= i <= j < |r| ==> r[i].horizonS <= r[j].horizonS)
            && m in r && (forall x :: x in r && x.horizonS == m.horizonS ==> x == m)
            && (forall x :: x in r ==> x == m || x in ms)
            && (forall x :: x in ms && x.horizonS != m.horizonS ==> x in r)
  {
    var i := IndexOfHorizon(ms, m.horizonS);
    var put := if i >= 0 then ms[i := m] else ms + [m];
    PutInPlace(ms, m, i, put);
    SortKeepsHorizonsUnique(put);
    StableSortSorted(put, HorizonKey);
    SortKeepsMembers(put, HorizonKey);
    SortedByHorizon(PutMarkout(ms, m));
  }

  lemma SortedByHorizon(ms: seq<Markout>)
    requires Sorted(ms, HorizonKey)
    ensures forall i, j :: 0 <= i <= j < |ms| ==> ms[i].horizonS <= ms[j].horizonS
  {
    forall i, j | 0 <= i <= j < |ms|
      ensures ms[i].horizonS <= ms[j].horizonS
    {
      assert HorizonKey(ms[i]) <= HorizonKey(ms[j]);
    }
  }

  lemma PutInPlace(ms: seq<Markout>, m: Markout, i: int, put: seq<Markout>)
    requires HorizonsUnique(ms) && i == IndexOfHorizon(ms, m.horizonS)
    requires put == if i >= 0 then ms[i := m] else ms + [m]
    ensures HorizonsUnique(put) && m in put
    ensures forall x :: x in put && x.horizonS == m.horizonS ==> x == m
    ensures forall x :: x in put ==> x == m || x in ms
    ensures forall x :: x in ms && x.horizonS != m.horizonS ==> x in put
  {
    if i >= 0 {
      PutReplaces(ms, m, i);
    } else {
      PutAppends(ms, m);
    }
  }

  lemma PutReplaces(ms: seq<Markout>, m: Markout, i: nat)
    requires HorizonsUnique(ms) && i < |ms| && ms[i].horizonS == m.horizonS
    ensures HorizonsUnique(ms[i := m]) && m in ms[i := m]
    ensures forall x :: x in ms[i := m] && x.horizonS == m.horizonS ==> x == m
    ensures forall x :: x in ms[i := m] ==> x == m || x in ms
    ensures forall x :: x in ms && x.horizonS != m.horizonS ==> x in ms[i := m]
  {
    var put := ms[i := m];
    assert put[i] == m;
    forall x | x in ms && x.horizonS != m.horizonS
      ensures x in put
    {
      var k :| 0 <= k < |ms| && ms[k] == x;
      assert put[k] == x;
    }
    forall x | x in put && x != m
      ensures x in ms && x.horizonS != m.horizonS
    {
      var k :| 0 <= k < |put| && put[k] == x;
      assert k != i && ms[k] == x;
    }
  }

  lemma PutAppends(ms: seq<Markout>, m: Markout)
    requires HorizonsUnique(ms) && forall x :: x in ms ==> x.horizonS != m.horizonS
    ensures HorizonsUnique(ms + [m]) && m in ms + [m]
    ensures forall x :: x in ms + [m] && x.horizonS == m.horizonS ==> x == m
    ensures forall x :: x in ms + [m] ==> x == m || x in ms
    ensures forall x :: x in ms ==> x in ms + [m]
  {
    assert (ms + [m])[|ms|] == m;
  }

  function WithMarkout(t: Trade, m: Markout): Trade {
    var trace := MergedTrace(t, NO_PATCH);
    t.(core := t.core.(trace := Some(trace.(markouts := PutMarkout(trace.markouts, m)))))
  }

  function AfterMarkout(trades: seq<Trade>, hash: string, tradeId: string, m: Markout): seq<Trade> {
    var i := FindTrade(trades, hash, tradeId);
    if i == -1 then trades else trades[i := WithMarkout(trades[i], m)]
  }

  function MarkoutsOf(t: Trade): seq<Markout> {
    BaseTrace(t).markouts
  }

  /** Appending a markout touches nothing but the markouts of the one trade it finds. */
  lemma MarkoutKeepsStore(trades: seq<Trade>, hash: string, tradeId: string, m: Markout)
    ensures var after, i := AfterMarkout(trades, hash, tradeId, m), FindTrade(trades, hash, tradeId);
            && |after| == |trades|
            && (ValidStore(trades) ==> ValidStore(after))
            && (forall k :: 0 <= k < |trades| && k != i ==> after[k] == trades[k])
            && (forall k :: 0 <= k < |trades| ==>
                  && after[k].id == trades[k].id && after[k].core.hash == trades[k].core.hash
                  && after[k].core.status == trades[k].core.status)
            && (i >= 0 ==> MarkoutsOf(after[i]) == PutMarkout(MarkoutsOf(trades[i]), m))
            && FindTrade(after, hash, tradeId) == i
  {
    hide PutMarkout, IndexOfHash, IndexOfId;
    var after, i := AfterMarkout(trades, hash, tradeId, m), FindTrade(trades, hash, tradeId);
    assert forall k :: 0 <= k < |trades| ==> after[k].core.hash == trades[k].core.hash && after[k].id == trades[k].id;
    SameHashesSameIndex(trades, after, hash);
    SameIdsSameIndex(trades, after, tradeId);
  }

  lemma {:induction false} SameIdsSameIndex(a: seq<Trade>, b: seq<Trade>, id: string)
    requires |a| == |b| && forall k :: 0 <= k < |a| ==> b[k].id == a[k].id
    ensures IndexOfId(a, id) == IndexOfId(b, id)
  {
    if a == [] {
    } else {
      SameIdsSameIndex(a[1..], b[1..], id);
    }
  }

  // ---------------------------------------------------------------- the service

  class TradeHistoryService {
    var trades: seq<Trade>
    const canon: string -> string

    constructor (canonicalizePairKey: string -> string)
      ensures trades == [] && canon == canonicalizePairKey
    {
      trades := [];
      canon := canonicalizePairKey;
    }

    method RecordTrade(trade: TradeInput, id: string, nowMs: int) returns (r: Trade)
      modifies this
      ensures (trades, r) == AfterRecord(old(trades), trade, id, nowMs, canon)
    {
      hide NormalizedTrade;
      var normalized := NormalizeTradeUnits(trade, canon);
      var source := SourceOf(normalized);
      if HasHash(normalized) {
        var existingIndex := IndexOfHash(trades, normalized.hash.value);
        if existingIndex != -1 {
          var existing := trades[existingIndex];
          if !ShouldReplaceByHash(existing.core, normalized) {
            return existing;
          }
          r := existing.(core := Merge(existing.core, normalized).(source := Some(source)));
          trades := trades[existingIndex := r];
          return;
        }
      }
      r := Trade(id, nowMs, normalized.(source := Some(source)));
      trades := trades + [r];
      if |trades| > MAX_TRADES_IN_MEMORY {
        trades := trades[|trades| - MAX_TRADES_IN_MEMORY..];
      }
    }

    method UpsertTradeTrace(hash: string, tradeId: string, patch: TracePatch, resolvedPnl: Option<real>)
      returns (r: Option<Trade>)
      modifies this
      ensures trades == AfterUpsert(old(trades), hash, tradeId, patch, resolvedPnl)
      ensures r.Some? <==> FindTrade(old(trades), hash, tradeId) != -1
      ensures r.Some? ==> r.value == trades[FindTrade(old(trades), hash, tradeId)]
    {
      var index := FindTrade(trades, hash, tradeId);
      if index == -1 {
        return None;
      }
      var updated := WithTrace(trades[index], patch, resolvedPnl);
      trades := trades[index := updated];
      r := Some(updated);
    }

    method AppendTradeMarkout(hash: string, tradeId: string, markout: Markout) returns (r: Option<Trade>)
      modifies this
      ensures trades == AfterMarkout(old(trades), hash, tradeId, markout)
      ensures r.Some? <==> FindTrade(old(trades), hash, tradeId) != -1
      ensures r.Some? ==> r.value == trades[FindTrade(old(trades), hash, tradeId)]
    {
      var index := FindTrade(trades, hash, tradeId);
      if index == -1 {
        return None;
      }
      var current := trades[index];
      var trace := MergedTrace(current, NO_PATCH);
      var markouts := trace.markouts;
      var existingIdx := IndexOfHorizon(markouts, markout.horizonS);
      if existingIdx >= 0 {
        markouts := markouts[existingIdx := markout];
      } else {
        markouts := markouts + [markout];
      }
      markouts := StableSort(markouts, HorizonKey);
      var updated := current.(core := current.core.(trace := Some(trace.(markouts := markouts))));
      trades := trades[index := updated];
      r := Some(updated);
    }
  }

  // ---------------------------------------------------------------- runs

  datatype Op =
    | Record(trade: TradeInput, id: string, nowMs: int)
    | Upsert(hash: string, tradeId: string, patch: TracePatch, resolvedPnl: Option<real>)
    | AppendMarkout(hash: string, tradeId: string, markout: Markout)

  function Apply(trades: seq<Trade>, op: Op, canon: string -> string): seq<Trade> {
    match op
    case Record(trade, id, nowMs) => AfterRecord(trades, trade, id, nowMs, canon).0
    case Upsert(hash, tradeId, patch, resolvedPnl) => AfterUpsert(trades, hash, tradeId, patch, resolvedPnl)
    case AppendMarkout(hash, tradeId, markout) => AfterMarkout(trades, hash, tradeId, markout)
  }

  /** An operation whose trace does not bring in another record's hash. */
  ghost predicate Admissible(trades: seq<Trade>, op: Op) {
    op.Upsert? ==>
      var i := FindTrade(trades, op.hash, op.tradeId);
      i == -1 || GainsFreeHash(trades, i, op.patch)
  }

  function RunOps(trades: seq<Trade>, ops: seq<Op>, canon: string -> string): seq<Trade>
    decreases |ops|
  {
    if ops == [] then trades else RunOps(Apply(trades, ops[0], canon), ops[1..], canon)
  }

  /** A run ends with what its last operation makes of the store before. */
  lemma {:induction false} RunOpsAppends(trades: seq<Trade>, ops: seq<Op>, op: Op, canon: string -> string)
    ensures var before, after := RunOps(trades, ops, canon), RunOps(trades, ops + [op], canon);
            match op
            case Record(trade, id, nowMs) => after == AfterRecord(before, trade, id, nowMs, canon).0
            case Upsert(hash, tradeId, patch, pnl) => after == AfterUpsert(before, hash, tradeId, patch, pnl)
            case AppendMarkout(hash, tradeId, markout) => after == AfterMarkout(before, hash, tradeId, markout)
    decreases |ops|
  {
    hide AfterRecord, AfterUpsert, AfterMarkout;
    if ops == [] {
      assert [] + [op] == [op] && [op][1..] == [];
      assert RunOps(Apply(trades, op, canon), [], canon) == Apply(trades, op, canon);
    } else {
      assert (ops + [op])[1..] == ops[1..] + [op];
      RunOpsAppends(Apply(trades, ops[0], canon), ops[1..], op, canon);
    }
  }

  ghost predicate AllAdmissible(trades: seq<Trade>, ops: seq<Op>, canon: string -> string)
    decreases |ops|
  {
    ops == [] || (Admissible(trades, ops[0]) && AllAdmissible(Apply(trades, ops[0], canon), ops[1..], canon))
  }

  /** The hash is in the store before, between and after all operations. */
  ghost predicate HeldThroughout(trades: seq<Trade>, ops: seq<Op>, canon: string -> string, h: string)
    decreases |ops|
  {
    Holds(trades, h) && (ops == [] || HeldThroughout(Apply(trades, ops[0], canon), ops[1..], canon, h))
  }

  lemma StepKeepsStore(trades: seq<Trade>, op: Op, canon: string -> string)
    requires ValidStore(trades) && Admissible(trades, op)
    ensures ValidStore(Apply(trades, op, canon))
  {
    hide AfterRecord, AfterUpsert, AfterMarkout, GainsFreeHash;
    match op
    case Record(trade, id, nowMs) => RecordKeepsStore(trades, trade, id, nowMs, canon);
    case Upsert(hash, tradeId, patch, resolvedPnl) => UpsertKeepsStoreIff(trades, hash, tradeId, patch, resolvedPnl);
    case AppendMarkout(hash, tradeId, markout) => MarkoutKeepsStore(trades, hash, tradeId, markout);
  }

  lemma UpsertKeepsHeld(trades: seq<Trade>, hash: string, tradeId: string, patch: TracePatch,
                        resolvedPnl: Option<real>, i: nat)
    requires i < |trades| && HasHash(trades[i].core)
    ensures var after := AfterUpsert(trades, hash, tradeId, patch, resolvedPnl);
            |after| == |trades| && after[i].core.hash == trades[i].core.hash
              && after[i].core.status == trades[i].core.status
  {
  }

  lemma StepKeepsPriority(trades: seq<Trade>, op: Op, canon: string -> string, h: string)
    requires ValidStore(trades) && Admissible(trades, op) && h != ""
    requires Holds(trades, h) && Holds(Apply(trades, op, canon), h)
    ensures PriorityOf(Apply(trades, op, canon), h) >= PriorityOf(trades, h)
  {
    hide AfterRecord, AfterUpsert, AfterMarkout, GainsFreeHash;
    StepKeepsStore(trades, op, canon);
    match op
    case Record(trade, id, nowMs) => RecordKeepsPriority(trades, trade, id, nowMs, canon, h);
    case AppendMarkout(hash, tradeId, markout) =>
      MarkoutKeepsStore(trades, hash, tradeId, markout);
      SameHashesSameIndex(trades, Apply(trades, op, canon), h);
    case Upsert(hash, tradeId, patch, resolvedPnl) =>
      var i := IndexOfHash(trades, h);
      UpsertKeepsHeld(trades, hash, tradeId, patch, resolvedPnl, i);
      FirstIndexIs(Apply(trades, op, canon), i);
  }

  /**
   Over any run of recordings, markouts and admissible trace merges, hashes stay unique, the store
   stays within its bound, and the status priority of a hash that stays in the store never falls.
   */
  lemma {:induction false} RunsKeepStore(trades: seq<Trade>, ops: seq<Op>, canon: string -> string)
    requires ValidStore(trades) && AllAdmissible(trades, ops, canon)
    ensures ValidStore(RunOps(trades, ops, canon))
    ensures forall h :: h != "" && HeldThroughout(trades, ops, canon, h) ==>
              PriorityOf(RunOps(trades, ops, canon), h) >= PriorityOf(trades, h)
    decreases |ops|
  {
    hide Apply, ValidStore, Admissible, PriorityOf;
    if ops == [] {
    } else {
      StepKeepsStore(trades, ops[0], canon);
      var next := Apply(trades, ops[0], canon);
      RunsKeepStore(next, ops[1..], canon);
      forall h | h != "" && HeldThroughout(trades, ops, canon, h)
        ensures PriorityOf(RunOps(trades, ops, canon), h) >= PriorityOf(trades, h)
      {
        assert HeldThroughout(next, ops[1..], canon, h);
        StepKeepsPriority(trades, ops[0], canon, h);
      }
    }
  }

  /** The status of the stored trade with this hash. */
  ghost predicate HasStatus(trades: seq<Trade>, hash: string, status: Status) {
    exists i :: 0 <= i < |trades| && trades[i].core.hash == Some(hash) && trades[i].core.status == status
  }

  /** In such a run the status of a stored trade never goes back: a fill is never turned into a rejection. */
  lemma StatusNeverGoesBack(trades: seq<Trade>, ops: seq<Op>, canon: string -> string, hash: string, was: Status,
                            now: Status)
    requires ValidStore(trades) && AllAdmissible(trades, ops, canon)
    requires hash != "" && HeldThroughout(trades, ops, canon, hash)
    requires HasStatus(trades, hash, was) && HasStatus(RunOps(trades, ops, canon), hash, now)
    ensures !Outranks(was, now)
  {
    hide RunOps, AllAdmissible, HeldThroughout, PriorityOf;
    RunsKeepStore(trades, ops, canon);
    StatusDecidesPriority(trades, hash, was);
    StatusDecidesPriority(RunOps(trades, ops, canon), hash, now);
  }

  lemma StatusDecidesPriority(trades: seq<Trade>, hash: string, status: Status)
    requires ValidStore(trades) && hash != "" && HasStatus(trades, hash, status)
    ensures PriorityOf(trades, hash) == StatusPriority(status)
  {
    var i :| 0 <= i < |trades| && trades[i].core.hash == Some(hash) && trades[i].core.status == status;
    FirstIndexIs(trades, i);
  }
}
