/** Retries of unfilled orders: classification, slippage schedule and amount (src/execution/retryPolicy.ts). */
module RetryPolicy {
  import opened Basics
  import opened Sorting
  import opened DepthPricing

  datatype Config = Config(maxAttempts: int, slippageStepBps: real, maxSlippageBps: real)

  datatype Outcome = Filled | NoFill | FatalEngineResult | NonRetryable

  datatype Reason = Ok | NoDepth | InsufficientDepth | BelowMin

  datatype AmountDecision = AmountDecision(nextBase: Option<real>, reason: Reason, shrunk: bool)

  /** What the loader guarantees: both bounds non-negative and the maximum at least one step. */
  ghost predicate Loaded(c: Config) {
    c.maxAttempts >= 1 && 0.0 <= c.slippageStepBps <= c.maxSlippageBps
  }

  /** Engine results arrive trimmed and in upper case. */
  function ClassifyRetryOutcome(accepted: bool, engineResult: string): Outcome {
    if accepted then Filled
    else if engineResult == "TECKILLED" || engineResult == "NO_FILL" then NoFill
    else if "TEC" <= engineResult || "TEF" <= engineResult || "TEM" <= engineResult then FatalEngineResult
    else NonRetryable
  }

  predicate ShouldRetryNoFill(attempt: int, isIoc: bool, c: Config, engineResult: string, outcome: Outcome) {
    isIoc && attempt < c.maxAttempts && (engineResult == "TECKILLED" || outcome == NoFill)
  }

  function NextRetrySlippageBps(currentSlippageBps: real, c: Config): real {
    Min(c.maxSlippageBps, Max(0.0, currentSlippageBps) + c.slippageStepBps)
  }

  function DecideRetryAmount(desiredBase: real, fillableBase: real, allowPartialSizing: bool,
                             minBase: real): AmountDecision {
    var floor := Max(0.0, minBase);
    if fillableBase <= DUST then AmountDecision(None, NoDepth, false)
    else if fillableBase + DUST < desiredBase then
      if !allowPartialSizing then AmountDecision(None, InsufficientDepth, false)
      else if fillableBase + DUST < floor then AmountDecision(None, BelowMin, true)
      else AmountDecision(Some(fillableBase), Ok, true)
    else if desiredBase + DUST < floor then AmountDecision(None, BelowMin, false)
    else AmountDecision(Some(desiredBase), Ok, false)
  }

  /** Slippage budget of the n-th attempt. */
  function AttemptSlippage(start: real, c: Config, n: nat): real {
    if n == 0 then start else NextRetrySlippageBps(AttemptSlippage(start, c, n - 1), c)
  }

  /** Executable base of a fixed demand at the n-th budget, on an unchanged book. */
  function AttemptFill(side: Side, desiredBase: real, book: Book, start: real, c: Config, n: nat): real {
    ChooseLimitPrice(side, desiredBase, book, AttemptSlippage(start, c, n)).fillableBase
  }

  /** One retry widens the budget exactly when the current one is not above the maximum. */
  lemma RetryWidensIff(current: real, c: Config)
    requires Loaded(c)
    ensures Max(0.0, current) <= NextRetrySlippageBps(current, c) <==> current <= c.maxSlippageBps
    ensures 0.0 <= NextRetrySlippageBps(current, c) <= c.maxSlippageBps
  {
  }

  /** Below the maximum the budgets of a retry run only widen. */
  lemma {:induction false} SlippageRunWidens(start: real, c: Config, m: nat, n: nat)
    requires Loaded(c) && start <= c.maxSlippageBps && m <= n
    ensures AttemptSlippage(start, c, n) <= c.maxSlippageBps
    ensures Max(0.0, AttemptSlippage(start, c, m)) <= Max(0.0, AttemptSlippage(start, c, n))
  {
    if m < n {
      SlippageRunWidens(start, c, m, n - 1);
      RetryWidensIff(AttemptSlippage(start, c, n - 1), c);
    } else if n > 0 {
      SlippageRunWidens(start, c, n - 1, n - 1);
    }
  }

  /** Every retry adds one step, up to the maximum: the budgets in closed form. */
  lemma {:induction false} BudgetOfAttempt(start: real, c: Config, n: nat)
    requires Loaded(c) && n >= 1
    ensures var reached := (if start > 0.0 then start else 0.0) + n as real * c.slippageStepBps;
            AttemptSlippage(start, c, n) == if reached <= c.maxSlippageBps then reached else c.maxSlippageBps
  {
    hide NextRetrySlippageBps;
    if n == 1 {
      FirstBudget(start, c);
      assert AttemptSlippage(start, c, 1) == NextRetrySlippageBps(AttemptSlippage(start, c, 0), c);
    } else {
      BudgetOfAttempt(start, c, n - 1);
      var step := c.slippageStepBps;
      NonNegativeProduct((n - 1) as real, step, (n - 1) as real * step);
      assert n as real == (n - 1) as real + 1.0;
      NextBudget(start, c, AttemptSlippage(start, c, n - 1), (n - 1) as real * step, n as real * step);
    }
  }

  lemma FirstBudget(start: real, c: Config)
    requires Loaded(c)
    ensures var reached := (if start > 0.0 then start else 0.0) + c.slippageStepBps;
            NextRetrySlippageBps(start, c) == if reached <= c.maxSlippageBps then reached else c.maxSlippageBps
  {
  }

  lemma NextBudget(start: real, c: Config, current: real, before: real, after: real)
    requires Loaded(c) && before >= 0.0 && after == before + c.slippageStepBps
    requires var reached := (if start > 0.0 then start else 0.0) + before;
             current == if reached <= c.maxSlippageBps then reached else c.maxSlippageBps
    ensures var reached := (if start > 0.0 then start else 0.0) + after;
            NextRetrySlippageBps(current, c) == if reached <= c.maxSlippageBps then reached else c.maxSlippageBps
  {
  }

  /** Negative budgets count as zero. */
  lemma NegativeBudgetIsZero(side: Side, desiredBase: real, book: Book, s: real)
    ensures ChooseLimitPrice(side, desiredBase, book, s) == ChooseLimitPrice(side, desiredBase, book, Max(0.0, s))
  {
    hide FillOf, Filter, SideLevels, VwapCap, WithinCap;
    forall vwap: real
      ensures VwapCap(side, vwap, s) == VwapCap(side, vwap, Max(0.0, s))
    {
      NegativeBudgetCap(side, vwap, s);
    }
  }

  lemma NegativeBudgetCap(side: Side, vwap: real, s: real)
    ensures VwapCap(side, vwap, s) == VwapCap(side, vwap, Max(0.0, s))
  {
  }

  /** On an unchanged book, budgets from a start at or below the maximum never lose size for one fixed demand. */
  lemma RetriesKeepSize(side: Side, desiredBase: real, book: Book, start: real, c: Config, m: nat, n: nat)
    requires Loaded(c) && start <= c.maxSlippageBps && m <= n
    ensures AttemptFill(side, desiredBase, book, start, c, m) <= AttemptFill(side, desiredBase, book, start, c, n)
  {
    var s1, s2 := AttemptSlippage(start, c, m), AttemptSlippage(start, c, n);
    SlippageRunWidens(start, c, m, n);
    NegativeBudgetIsZero(side, desiredBase, book, s1);
    NegativeBudgetIsZero(side, desiredBase, book, s2);
    WiderBudgetFillsMore(side, desiredBase, book, Max(0.0, s1), Max(0.0, s2));
  }

  ghost predicate FirstRetryKeepsSize(start: real, c: Config) {
    forall side, desiredBase, book ::
      AttemptFill(side, desiredBase, book, start, c, 0) <= AttemptFill(side, desiredBase, book, start, c, 1)
  }

  /**
   The condition is exact: whatever the book and the demand, the next budget keeps the executable size if and only
   if the starting slippage does not exceed the configured maximum.
   */
  lemma RetryKeepsSizeIff(start: real, c: Config)
    requires Loaded(c)
    ensures FirstRetryKeepsSize(start, c) <==> start <= c.maxSlippageBps
  {
    if start <= c.maxSlippageBps {
      forall side, desiredBase, book
        ensures AttemptFill(side, desiredBase, book, start, c, 0) <= AttemptFill(side, desiredBase, book, start, c, 1)
      {
        RetriesKeepSize(side, desiredBase, book, start, c, 0, 1);
      }
    } else {
      RetryAboveMaximumLosesSize(start, c);
    }
  }

  /** The starting budget as a factor on the average price. */
  function Ratio(start: real): real {
    1.0 + start / 10000.0
  }

  /** A price scale at which the gap between the two budgets is worth one unit of quote. */
  function Scale(start: real, max: real): real
    requires start > max
  {
    10000.0 / (start - max)
  }

  /** A cheap level of size r and a dear one of size 1; at r*r times the price their average is r times it. */
  function LosingBook(price: real, dear: real, r: real): Book {
    Book([], [Level(price, r), Level(dear, 1.0)])
  }

  lemma TwoLevelsSorted(a: Level, b: Level)
    requires IsValid(a) && IsValid(b) && a.price <= b.price
    ensures NormalizeLevels([a, b], Buy) == [a, b]
  {
    assert [a, b][1..] == [b] && [b][1..] == [];
    assert Filter([b], IsValid) == [b] && Filter([a, b], IsValid) == [a, b];
    SortFixesSorted([a, b], BestFirst(Buy));
  }

  lemma TwoLevelWalk(a: Level, b: Level)
    requires IsValid(a) && IsValid(b) && b.baseSize > DUST
    ensures Walk([a, b], a.baseSize + b.baseSize)
         == Totals(a.baseSize + b.baseSize, a.baseSize * a.price + b.baseSize * b.price, Some(b.price))
  {
    assert [a, b][1..] == [b];
    LastLevelWalk(b);
  }

  lemma LastLevelWalk(b: Level)
    requires IsValid(b) && b.baseSize > DUST
    ensures Walk([b], b.baseSize) == Totals(b.baseSize, b.baseSize * b.price, Some(b.price))
  {
    assert [b][1..] == [];
  }

  lemma LosingFirstPass(price: real, vwap: real, dear: real, r: real)
    requires price > 0.0 && r > 1.0 && vwap == price * r && dear == vwap * r
    ensures var asks := LosingBook(price, dear, r).asks;
            && price <= dear
            && SideLevels(Buy, LosingBook(price, dear, r)) == asks && IsValid(asks[0]) && IsValid(asks[1])
            && Walk(asks, r + 1.0).base == r + 1.0
            && FillOf(asks, r + 1.0).vwap == Some(vwap)
  {
    hide Walk, FillOf;
    LosingPrices(price, vwap, dear, r);
    var cheap, costly := Level(price, r), Level(dear, 1.0);
    TwoLevelsSorted(cheap, costly);
    TwoLevelWalk(cheap, costly);
    FillFromTotals([cheap, costly], r + 1.0, r * price + dear, r + 1.0);
  }

  lemma FillFromTotals(levels: seq<Level>, d: real, quote: real, base: real)
    requires d > 0.0 && base > 0.0 && quote > 0.0
    requires Walk(levels, d).base == base && Walk(levels, d).quote == quote
    ensures FillOf(levels, d).vwap == Some(quote / base)
  {
  }

  lemma LosingPrices(price: real, vwap: real, dear: real, r: real)
    requires price > 0.0 && r > 1.0 && vwap == price * r && dear == vwap * r
    ensures price <= vwap <= dear
    ensures r * price + dear > 0.0 && (r * price + dear) / (r + 1.0) == vwap
  {
    ScaleLe(1.0, r, price);
    ScaleLe(1.0, r, vwap);
    assert r * price + dear == vwap * (r + 1.0);
    CancelFactor(vwap, r + 1.0);
  }

  lemma CancelFactor(a: real, b: real)
    requires a > 0.0 && b > 0.0
    ensures a * b > 0.0 && (a * b) / b == a
  {
    PositiveProduct(a, b);
  }

  /** A cap at the dear price keeps both levels; a cap r below it keeps only the cheap one. */
  lemma LosingCaps(price: real, dear: real, r: real)
    requires price <= dear && r > 1.0
    ensures Leading(LosingBook(price, dear, r).asks, WithinCap(Buy, dear)) == 2
    ensures Leading(LosingBook(price, dear, r).asks, WithinCap(Buy, dear - r)) <= 1
  {
    var asks := LosingBook(price, dear, r).asks;
    assert asks[1..] == [asks[1]] && [asks[1]][1..] == [];
    assert Leading([asks[1]], WithinCap(Buy, dear)) == 1;
    assert Leading([asks[1]], WithinCap(Buy, dear - r)) == 0;
  }

  lemma CapGap(start: real, max: real, price: real, vwap: real, dear: real, r: real)
    requires start > max >= 0.0 && price == Scale(start, max) && r == Ratio(start)
    requires vwap == price * r && dear == vwap * r
    ensures price > 0.0 && r > 1.0
    ensures VwapCap(Buy, vwap, start) == dear && VwapCap(Buy, vwap, max) == dear - r
  {
    var gap := (start - max) / 10000.0;
    assert price * gap == 1.0;
    assert vwap * (r - gap) == vwap * r - price * gap * r;
    assert VwapCap(Buy, vwap, max) == vwap * (r - gap);
  }

  lemma RetryAboveMaximumLosesSize(start: real, c: Config)
    requires Loaded(c) && start > c.maxSlippageBps
    ensures exists book: Book, desired: real ::
              AttemptFill(Buy, desired, book, start, c, 0) > AttemptFill(Buy, desired, book, start, c, 1)
  {
    hide Walk, FillOf, VwapCap, Scale, Ratio;
    var max := c.maxSlippageBps;
    var price, r := Scale(start, max), Ratio(start);
    var vwap := price * r;
    var dear := vwap * r;
    var book := LosingBook(price, dear, r);
    CapGap(start, max, price, vwap, dear, r);
    LosingFirstPass(price, vwap, dear, r);
    LosingCaps(price, dear, r);
    LosingChoice(book, r, start, max, vwap);
    FirstTwoAttempts(Buy, r + 1.0, book, start, c);
  }

  lemma FirstTwoAttempts(side: Side, desired: real, book: Book, start: real, c: Config)
    requires Loaded(c) && start > c.maxSlippageBps
    ensures AttemptFill(side, desired, book, start, c, 0) == ChooseLimitPrice(side, desired, book, start).fillableBase
    ensures AttemptFill(side, desired, book, start, c, 1)
         == ChooseLimitPrice(side, desired, book, c.maxSlippageBps).fillableBase
  {
    hide ChooseLimitPrice;
    assert AttemptSlippage(start, c, 1) == c.maxSlippageBps;
  }

  lemma LosingChoice(book: Book, r: real, start: real, max: real, vwap: real)
    requires r > 1.0 && |book.asks| == 2 && book.asks[0].baseSize == r
    requires SideLevels(Buy, book) == book.asks && IsValid(book.asks[0])
    requires Walk(book.asks, r + 1.0).base == r + 1.0
    requires FillOf(book.asks, r + 1.0).vwap == Some(vwap)
    requires Leading(book.asks, WithinCap(Buy, VwapCap(Buy, vwap, start))) == 2
    requires Leading(book.asks, WithinCap(Buy, VwapCap(Buy, vwap, max))) <= 1
    ensures ChooseLimitPrice(Buy, r + 1.0, book, start).fillableBase == r + 1.0
    ensures ChooseLimitPrice(Buy, r + 1.0, book, max).fillableBase <= r
  {
    hide Walk, VwapCap, FillOf;
    LimitChoiceUsesPrefix(Buy, r + 1.0, book, start);
    LimitChoiceUsesPrefix(Buy, r + 1.0, book, max);
    assert book.asks[..2] == book.asks && book.asks[..1] == [book.asks[0]];
    OneLevelWalk(book.asks[0], r + 1.0);
  }

  lemma OneLevelWalk(a: Level, d: real)
    requires IsValid(a) && d >= 0.0
    ensures Walk([a], d).base <= a.baseSize
  {
    WalkBase([a], d);
    assert [a][1..] == [];
  }

  /** The four classes in the engine's words: a killed or unfilled order, another final code, or something else. */
  lemma OutcomeMeaning(accepted: bool, engineResult: string)
    ensures var outcome := ClassifyRetryOutcome(accepted, engineResult);
            var unfilled := engineResult in ["TECKILLED", "NO_FILL"];
            var isFinal := |engineResult| >= 3 && engineResult[..3] in ["TEC", "TEF", "TEM"];
            && (outcome == Filled <==> accepted)
            && (outcome == NoFill <==> !accepted && unfilled)
            && (outcome == FatalEngineResult <==> !accepted && !unfilled && isFinal)
            && (outcome == NonRetryable <==> !accepted && !unfilled && !isFinal)
  {
    hide ShouldRetryNoFill;
    PrefixIs("TEC", engineResult);
    PrefixIs("TEF", engineResult);
    PrefixIs("TEM", engineResult);
  }

  lemma PrefixIs(p: string, s: string)
    ensures p <= s <==> |s| >= |p| && s[..|p|] == p
  {
  }

  // ---------------------------------------------------------------- amounts

  /** Which amount is offered, or why none is, and whether depth has cut it. */
  lemma RetryAmountMeaning(desiredBase: real, fillableBase: real, allowPartialSizing: bool, minBase: real)
    ensures var r := DecideRetryAmount(desiredBase, fillableBase, allowPartialSizing, minBase);
            var cut := fillableBase < desiredBase - DUST;
            var amount := if cut then fillableBase else desiredBase;
            var tooSmall := amount < -DUST || amount < minBase - DUST;
            && (r.reason == NoDepth <==> fillableBase <= DUST)
            && (r.reason == InsufficientDepth <==> fillableBase > DUST && cut && !allowPartialSizing)
            && (r.reason == BelowMin <==> fillableBase > DUST && (cut ==> allowPartialSizing) && tooSmall)
            && (r.reason == Ok <==> r.nextBase == Some(amount))
            && (r.reason != Ok <==> r.nextBase == None)
            && (r.shrunk <==> (r.reason == Ok || r.reason == BelowMin) && cut)
  {
  }

  /** The amount retried is executable, wanted and not below the minimum, each up to dust. */
  lemma RetryAmountIsExecutable(desiredBase: real, fillableBase: real, allowPartialSizing: bool, minBase: real)
    ensures var r := DecideRetryAmount(desiredBase, fillableBase, allowPartialSizing, minBase);
            && (r.nextBase.Some? <==> r.reason == Ok)
            && (r.nextBase.Some? ==>
                  && r.nextBase.value <= fillableBase + DUST
                  && r.nextBase.value <= desiredBase
                  && Max(0.0, minBase) <= r.nextBase.value + DUST
                  && (r.shrunk <==> fillableBase + DUST < desiredBase))
  {
  }

  /** More executable base never turns an amount into a refusal, nor shrinks it. */
  lemma MoreDepthKeepsAmount(desiredBase: real, f1: real, f2: real, allowPartialSizing: bool, minBase: real)
    requires f1 <= f2
    ensures var r1, r2 := DecideRetryAmount(desiredBase, f1, allowPartialSizing, minBase),
                          DecideRetryAmount(desiredBase, f2, allowPartialSizing, minBase);
            r1.nextBase.Some? ==> r2.nextBase.Some? && r1.nextBase.value <= r2.nextBase.value
  {
  }
}
