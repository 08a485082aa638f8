/** The executor's loop over attempts (src/execution/offerExecutor.ts), and what its runs keep. */
module RetryRuns {
  import opened Basics
  import opened Sorting
  import opened DepthPricing
  import opened RetryPolicy

  /** What becomes of an attempt that depth allows: another check refuses it, or the engine answers. */
  datatype Answer = Refused | Engine(accepted: bool, engineResult: string)

  /** What an attempt meets: the book it reads, and what becomes of it. */
  datatype Turn = Turn(book: Book, answer: Answer)

  datatype Sizing = Sizing(allowPartial: bool, minBase: real, minFillRatio: real)

  datatype Setup = Setup(side: Side, isIoc: bool, config: Config, sizing: Sizing)

  /** A submitted attempt: its budget, the amount wanted, the limit chosen, and the amount submitted. */
  datatype Attempt = Attempt(slippageBps: real, demand: real, choice: LimitChoice, amount: real)

  /** A budget counts as wider only by more than this (1e-9). */
  const BUDGET_EPSILON := 0.000000001

  predicate IsNoFill(a: Answer) {
    a.Engine? && !a.accepted && (a.engineResult == "TECKILLED" || a.engineResult == "NO_FILL")
  }

  predicate Retries(attempt: int, isIoc: bool, c: Config, a: Answer, slippageBps: real) {
    && a.Engine? && !a.accepted
    && ShouldRetryNoFill(attempt, isIoc, c, a.engineResult, ClassifyRetryOutcome(a.accepted, a.engineResult))
    && NextRetrySlippageBps(slippageBps, c) > slippageBps + BUDGET_EPSILON
  }

  /** The base that has to be fillable before an order is sent. */
  function MinRequiredBase(o: Setup, demand: real): real {
    if o.isIoc then demand * o.sizing.minFillRatio else demand
  }

  /** The amount sent for a demand of which `fillableBase` can be executed, unless depth refuses it. */
  function Offered(o: Setup, demand: real, fillableBase: real): Option<real> {
    if fillableBase + DUST < MinRequiredBase(o, demand) then None
    else DecideRetryAmount(demand, fillableBase, o.sizing.allowPartial, o.sizing.minBase).nextBase
  }

  /** The attempts submitted from the given one on; each retry wants what the attempt before it submitted. */
  function Attempts(attempt: int, slippageBps: real, demand: real, o: Setup, turns: int -> Turn): seq<Attempt>
    decreases o.config.maxAttempts - attempt
  {
    if attempt > o.config.maxAttempts then []
    else
      var turn := turns(attempt);
      var choice := ChooseLimitPrice(o.side, demand, turn.book, slippageBps);
      var offered := Offered(o, demand, choice.fillableBase);
      if offered.None? || turn.answer.Refused? then []
      else
        [Attempt(slippageBps, demand, choice, offered.value)]
        + if !Retries(attempt, o.isIoc, o.config, turn.answer, slippageBps) then []
          else Attempts(attempt + 1, NextRetrySlippageBps(slippageBps, o.config), offered.value, o, turns)
  }

  /** One turn of the loop. */
  lemma AttemptsStep(attempt: int, slippageBps: real, demand: real, o: Setup, turns: int -> Turn)
    ensures var choice := ChooseLimitPrice(o.side, demand, turns(attempt).book, slippageBps);
            var offered := Offered(o, demand, choice.fillableBase);
            Attempts(attempt, slippageBps, demand, o, turns)
            == if attempt > o.config.maxAttempts || offered.None? || turns(attempt).answer.Refused? then []
               else if !Retries(attempt, o.isIoc, o.config, turns(attempt).answer, slippageBps) then
                 [Attempt(slippageBps, demand, choice, offered.value)]
               else
                 [Attempt(slippageBps, demand, choice, offered.value)]
                 + Attempts(attempt + 1, NextRetrySlippageBps(slippageBps, o.config), offered.value, o, turns)
  {
    hide ChooseLimitPrice, Offered, Retries, NextRetrySlippageBps;
  }

  /** The loop's own way to the amount: refusals first, then the demand, cut only when the decision is marked so. */
  lemma OfferedIsSubmitted(o: Setup, demand: real, fillableBase: real)
    ensures var d := DecideRetryAmount(demand, fillableBase, o.sizing.allowPartial, o.sizing.minBase);
            var refused := fillableBase <= DUST || fillableBase + DUST < MinRequiredBase(o, demand)
                           || d.nextBase.None?;
            Offered(o, demand, fillableBase)
            == if refused then None else if d.shrunk then d.nextBase else Some(demand)
  {
  }

  /** The executor's loop over attempts. */
  method ExecuteWithRetries(start: real, demand: real, o: Setup, turns: int -> Turn) returns (attempts: seq<Attempt>)
    ensures attempts == Attempts(1, start, demand, o, turns)
  {
    hide ClassifyRetryOutcome, ShouldRetryNoFill, NextRetrySlippageBps, ChooseLimitPrice, DecideRetryAmount;
    hide Attempts, Offered, MinRequiredBase;
    var workingAmount := demand;
    var retryAttempt := 1;
    var retrySlippageBps := start;
    attempts := [];
    while retryAttempt <= o.config.maxAttempts
      invariant attempts + Attempts(retryAttempt, retrySlippageBps, workingAmount, o, turns)
             == Attempts(1, start, demand, o, turns)
    {
      AttemptsStep(retryAttempt, retrySlippageBps, workingAmount, o, turns);
      var turn := turns(retryAttempt);
      var depth := ChooseLimitPrice(o.side, workingAmount, turn.book, retrySlippageBps);
      var minRequiredBase := MinRequiredBase(o, workingAmount);
      var decision := DecideRetryAmount(workingAmount, depth.fillableBase, o.sizing.allowPartial, o.sizing.minBase);
      OfferedIsSubmitted(o, workingAmount, depth.fillableBase);
      if depth.fillableBase <= DUST || depth.fillableBase + DUST < minRequiredBase || decision.nextBase.None? {
        return;
      }
      var submittedAmount := workingAmount;
      if decision.shrunk {
        submittedAmount := decision.nextBase.value;
      }
      if turn.answer.Refused? {
        return;
      }
      attempts := attempts + [Attempt(retrySlippageBps, workingAmount, depth, submittedAmount)];
      var classifiedOutcome := ClassifyRetryOutcome(turn.answer.accepted, turn.answer.engineResult);
      if turn.answer.accepted
         || !ShouldRetryNoFill(retryAttempt, o.isIoc, o.config, turn.answer.engineResult, classifiedOutcome) {
        return;
      }
      var nextSlippageBps := NextRetrySlippageBps(retrySlippageBps, o.config);
      if nextSlippageBps <= retrySlippageBps + BUDGET_EPSILON {
        return;
      }
      retryAttempt := retryAttempt + 1;
      retrySlippageBps := nextSlippageBps;
      workingAmount := submittedAmount;
    }
    AttemptsStep(retryAttempt, retrySlippageBps, workingAmount, o, turns);
  }

  /** Only an unaccepted no-fill answer is retried, whatever the classification says of others. */
  lemma RetriesIff(attempt: int, isIoc: bool, c: Config, a: Answer, slippageBps: real)
    ensures Retries(attempt, isIoc, c, a, slippageBps)
       <==> (&& isIoc && attempt < c.maxAttempts && IsNoFill(a)
             && NextRetrySlippageBps(slippageBps, c) > slippageBps + 0.000000001)
  {
  }

  /** Depth allowed the attempt: its limit and its amount are those for its demand and budget. */
  ghost predicate IsAllowed(o: Setup, a: Attempt, book: Book) {
    && a.choice == ChooseLimitPrice(o.side, a.demand, book, a.slippageBps)
    && Offered(o, a.demand, a.choice.fillableBase) == Some(a.amount)
  }

  /** A retry follows a no-fill with the next budget, which is wider, and wants what was submitted. */
  ghost predicate Follows(o: Setup, prev: Attempt, next: Attempt, answer: Answer) {
    && o.isIoc && IsNoFill(answer)
    && next.slippageBps == NextRetrySlippageBps(prev.slippageBps, o.config)
    && prev.slippageBps + BUDGET_EPSILON < next.slippageBps
    && next.demand == prev.amount
  }

  /**
   The loop submits at most the configured attempts, each allowed by the book it read, and each but the first
   a retry of the one before.
   */
  lemma {:induction false} RetryLoopIsBounded(attempt: int, slippageBps: real, demand: real, o: Setup,
                                              turns: int -> Turn)
    ensures var run := Attempts(attempt, slippageBps, demand, o, turns);
            && |run| <= MaxInt(0, o.config.maxAttempts - attempt + 1)
            && (run != [] ==> run[0].slippageBps == slippageBps && run[0].demand == demand)
            && (forall i :: 0 <= i < |run| ==> IsAllowed(o, run[i], turns(attempt + i).book))
            && (forall i :: 0 < i < |run| ==> Follows(o, run[i - 1], run[i], turns(attempt + i - 1).answer))
    decreases o.config.maxAttempts - attempt
  {
    hide ChooseLimitPrice, Offered, NextRetrySlippageBps, Retries, IsNoFill;
    var run := Attempts(attempt, slippageBps, demand, o, turns);
    if run == [] {
    } else {
      var turn := turns(attempt);
      var choice := ChooseLimitPrice(o.side, demand, turn.book, slippageBps);
      var amount := Offered(o, demand, choice.fillableBase).value;
      var first := Attempt(slippageBps, demand, choice, amount);
      if !Retries(attempt, o.isIoc, o.config, turn.answer, slippageBps) {
        assert run == [first];
      } else {
        var next := NextRetrySlippageBps(slippageBps, o.config);
        RetriesIff(attempt, o.isIoc, o.config, turn.answer, slippageBps);
        RetryLoopIsBounded(attempt + 1, next, amount, o, turns);
        var rest := Attempts(attempt + 1, next, amount, o, turns);
        assert run == [first] + rest;
        forall i | 0 <= i < |run|
          ensures IsAllowed(o, run[i], turns(attempt + i).book)
        {
          assert i > 0 ==> run[i] == rest[i - 1] && attempt + i == attempt + 1 + (i - 1);
        }
        forall i | 0 < i < |run|
          ensures Follows(o, run[i - 1], run[i], turns(attempt + i - 1).answer)
        {
          assert run[i] == rest[i - 1];
          assert i > 1 ==> run[i - 1] == rest[i - 2] && attempt + i - 1 == attempt + 1 + (i - 1) - 1;
        }
      }
    }
  }

  /** Every attempt wants the amount submitted before it, whatever the books: amounts never grow again. */
  lemma {:induction false} AmountsOnlyShrink(start: real, demand: real, o: Setup, turns: int -> Turn, i: nat, j: nat)
    requires i <= j < |Attempts(1, start, demand, o, turns)|
    ensures var run := Attempts(1, start, demand, o, turns);
            run[j].amount <= run[i].amount <= run[i].demand <= demand
  {
    hide Attempts, Offered;
    var run := Attempts(1, start, demand, o, turns);
    RetryLoopIsBounded(1, start, demand, o, turns);
    AllowedAmount(o, run[j], turns(1 + j).book);
    if j == 0 {
    } else {
      assert Follows(o, run[j - 1], run[j], turns(1 + j - 1).answer);
      AmountsOnlyShrink(start, demand, o, turns, if i == j then 0 else i, j - 1);
    }
  }

  lemma AllowedAmount(o: Setup, a: Attempt, book: Book)
    requires IsAllowed(o, a, book)
    ensures DUST < a.choice.fillableBase && a.amount <= a.demand && 0.0 < a.demand
    ensures a.amount == if a.choice.fillableBase + DUST < a.demand then a.choice.fillableBase else a.demand
  {
    hide FillOf, SideLevels;
  }

  // ---------------------------------------------------------------- unchanged books

  /** Every attempt reads the same book. */
  function Steady(book: Book, answers: int -> Answer): int -> Turn {
    (k: int) => Turn(book, answers(k))
  }

  lemma {:induction false} BudgetsIncrease(run: seq<Attempt>, i: nat, j: nat)
    requires forall k :: 0 < k < |run| ==> run[k - 1].slippageBps < run[k].slippageBps
    requires i <= j < |run|
    ensures run[i].slippageBps <= run[j].slippageBps
  {
    if i == j {
    } else {
      BudgetsIncrease(run, i, j - 1);
    }
  }

  lemma RunBudgetsIncrease(start: real, demand: real, o: Setup, turns: int -> Turn, i: nat, j: nat)
    requires i <= j < |Attempts(1, start, demand, o, turns)|
    ensures var run := Attempts(1, start, demand, o, turns);
            run[i].slippageBps <= run[j].slippageBps
  {
    hide Attempts, NextRetrySlippageBps;
    var run := Attempts(1, start, demand, o, turns);
    RetryLoopIsBounded(1, start, demand, o, turns);
    assert forall k :: 0 < k < |run| ==> Follows(o, run[k - 1], run[k], turns(1 + k - 1).answer);
    BudgetsIncrease(run, i, j);
  }

  /** One demand kept through the run would never lose executable size, from every starting budget. */
  lemma FixedDemandKeepsSize(start: real, demand: real, o: Setup, turns: int -> Turn, book: Book, fixed: real,
                             i: nat, j: nat)
    requires i <= j < |Attempts(1, start, demand, o, turns)|
    ensures var run := Attempts(1, start, demand, o, turns);
            ChooseLimitPrice(o.side, fixed, book, run[i].slippageBps).fillableBase
            <= ChooseLimitPrice(o.side, fixed, book, run[j].slippageBps).fillableBase
  {
    hide Attempts, ChooseLimitPrice;
    var run := Attempts(1, start, demand, o, turns);
    RunBudgetsIncrease(start, demand, o, turns, i, j);
    WiderBudgetFillsMore(o.side, fixed, book, run[i].slippageBps, run[j].slippageBps);
  }

  // ---------------------------------------------------------------- demands that are a leading part of the side

  /** What a walk collects that uses up every level. */
  function Everything(levels: seq<Level>): Totals {
    if levels == [] then NOTHING else Add(levels[0].baseSize, levels[0].price, Everything(levels[1..]))
  }

  ghost predicate Thick(levels: seq<Level>) {
    forall l :: l in levels ==> IsValid(l) && l.baseSize > DUST
  }

  lemma {:induction false} ThickWalk(levels: seq<Level>, d: real)
    requires Thick(levels) && d >= Everything(levels).base
    ensures Walk(levels, d) == Everything(levels)
  {
    if levels == [] {
      SkipStep(levels, d);
    } else {
      assert levels[0] in levels;
      ThickBase(levels);
      ThickBase(levels[1..]);
      ThickWalk(levels[1..], d - levels[0].baseSize);
    }
  }

  lemma {:induction false} ThickBase(levels: seq<Level>)
    requires Thick(levels)
    ensures Everything(levels).base == Depth(levels) >= 0.0
    ensures levels != [] ==> Everything(levels).base > DUST
    ensures levels != [] ==> Everything(levels).worst == Some(levels[|levels| - 1].price)
  {
    if levels == [] {
    } else {
      assert levels[0] in levels;
      ThickBase(levels[1..]);
    }
  }

  lemma {:induction false} EverythingConcat(a: seq<Level>, b: seq<Level>)
    ensures Everything(a + b).base == Everything(a).base + Everything(b).base
  {
    if a == [] {
      assert a + b == b;
    } else {
      assert (a + b)[1..] == a[1..] + b;
      EverythingConcat(a[1..], b);
    }
  }

  /** A longer leading part holds more than dust in addition. */
  lemma LongerHoldsMore(levels: seq<Level>, m: nat, n: nat)
    requires Thick(levels) && m < n <= |levels|
    ensures Everything(levels[..m]).base + DUST < Everything(levels[..n]).base
  {
    assert levels[..n] == levels[..m] + levels[m..n];
    EverythingConcat(levels[..m], levels[m..n]);
    ThickBase(levels[m..n]);
  }

  /** A demand of exactly the first `m` levels walks exactly those. */
  lemma WalkOfPrefix(levels: seq<Level>, m: nat)
    requires Thick(levels) && m <= |levels|
    ensures Walk(levels, Everything(levels[..m]).base) == Everything(levels[..m])
  {
    hide Walk, Everything, Join;
    var d := Everything(levels[..m]).base;
    assert levels == levels[..m] + levels[m..];
    WalkConcat(levels[..m], levels[m..], d);
    ThickWalk(levels[..m], d);
    SkipStep(levels[m..], 0.0);
    JoinAdd(Everything(levels[..m]), 0.0, 0.0, NOTHING);
  }

  function Least(a: nat, b: nat): nat {
    if a <= b then a else b
  }

  /** Of a demand of exactly the first `m` levels, those are filled that lie within the cap. */
  lemma PrefixDemandFills(side: Side, book: Book, m: nat, slippageBps: real)
    requires var levels := SideLevels(side, book); Thick(levels) && 0 < m <= |levels|
    ensures var levels := SideLevels(side, book);
            var all := Everything(levels[..m]);
            var n := UsedLevels(side, all.base, book, slippageBps);
            && all.base > DUST && n > 0
            && n == Leading(levels, WithinCap(side, VwapCap(side, all.quote / all.base, slippageBps)))
            && ChooseLimitPrice(side, all.base, book, slippageBps).fillableBase
            == Everything(levels[..Least(m, n)]).base
  {
    hide Walk, Everything, ChooseLimitPrice, SideLevels, FillOf, Least, VwapCap;
    var levels := SideLevels(side, book);
    var all := Everything(levels[..m]);
    ThickBase(levels[..m]);
    SideLevelsNormalized(side, book);
    RawFill(side, levels, all.base);
    WalkOfPrefix(levels, m);
    LimitChoiceUsesPrefix(side, all.base, book, slippageBps);
    CappedPrefixWalk(levels, m, UsedLevels(side, all.base, book, slippageBps));
  }

  lemma CappedPrefixWalk(levels: seq<Level>, m: nat, n: nat)
    requires Thick(levels) && m <= |levels| && n <= |levels|
    ensures Walk(levels[..n], Everything(levels[..m]).base).base == Everything(levels[..Least(m, n)]).base
  {
    hide Walk, Everything;
    if m <= n {
      assert levels[..n][..m] == levels[..m];
      WalkOfPrefix(levels[..n], m);
    } else {
      LongerHoldsMore(levels, n, m);
      ThickWalk(levels[..n], Everything(levels[..m]).base);
    }
  }

  /** A fill that falls short of the demand uses up its leading part. */
  lemma ShortFillIsPrefix(side: Side, demand: real, book: Book, slippageBps: real)
    requires Thick(SideLevels(side, book))
    requires var f := ChooseLimitPrice(side, demand, book, slippageBps).fillableBase; 0.0 < f && f + DUST < demand
    ensures var levels := SideLevels(side, book);
            var n := UsedLevels(side, demand, book, slippageBps);
            var all := Everything(levels[..n]);
            && 0 < n <= |levels| && all.base > DUST
            && ChooseLimitPrice(side, demand, book, slippageBps)
            == LimitChoice(Some(levels[n - 1].price), all.base, Some(all.quote / all.base), Some(levels[n - 1].price))
  {
    hide Walk, Everything, UsedLevels, Depth;
    var levels := SideLevels(side, book);
    LimitExistsIff(side, demand, book, slippageBps);
    assert levels != [];
    hide ChooseLimitPrice;
    LimitChoiceUsesPrefix(side, demand, book, slippageBps);
    var n := UsedLevels(side, demand, book, slippageBps);
    WalkBase(levels[..n], demand);
    ThickBase(levels[..n]);
    ThickWalk(levels[..n], demand);
  }

  // ---------------------------------------------------------------- when a shrunk amount is kept

  /** The limit chosen lies within the cap that another budget puts around the VWAP expected with it. */
  predicate LimitStaysWithin(side: Side, c: LimitChoice, slippageBps: real) {
    && c.limitPrice.Some? && c.expectedVwap.Some?
    && Cost(side, c.limitPrice.value) <= Cost(side, VwapCap(side, c.expectedVwap.value, slippageBps)) + DUST
  }

  /** Asking again for a short fill gets all of it if and only if the first limit stays within the new cap. */
  lemma CarriedDemandFillsIff(side: Side, demand: real, book: Book, s1: real, s2: real)
    requires Thick(SideLevels(side, book))
    requires var f := ChooseLimitPrice(side, demand, book, s1).fillableBase; 0.0 < f && f + DUST < demand
    ensures var c1 := ChooseLimitPrice(side, demand, book, s1);
            var c2 := ChooseLimitPrice(side, c1.fillableBase, book, s2);
            if LimitStaysWithin(side, c1, s2) then c2.fillableBase == c1.fillableBase
            else c2.fillableBase + DUST < c1.fillableBase
  {
    hide ChooseLimitPrice, SideLevels, Everything, UsedLevels, VwapCap;
    var levels := SideLevels(side, book);
    var m := UsedLevels(side, demand, book, s1);
    ShortFillIsPrefix(side, demand, book, s1);
    PrefixDemandFills(side, book, m, s2);
    SideLevelsNormalized(side, book);
    var all := Everything(levels[..m]);
    var cap := VwapCap(side, all.quote / all.base, s2);
    CapKeepsPrefix(side, levels, cap);
    var n := Leading(levels, WithinCap(side, cap));
    assert LimitStaysWithin(side, ChooseLimitPrice(side, demand, book, s1), s2) <==> m - 1 < n;
    if n < m {
      LongerHoldsMore(levels, n, m);
    }
  }

  /**
   After an attempt that offered an amount, an attempt at a wider budget on the same book offers that amount
   again if and only if it was not shrunk or its limit stays within the wider budget's cap around its expected
   VWAP; otherwise the retry shrinks it further or refuses it. For levels above dust.
   */
  lemma RetryKeepsAmountIff(o: Setup, demand: real, book: Book, s1: real, s2: real)
    requires s1 <= s2 && o.sizing.minFillRatio <= 1.0 && Thick(SideLevels(o.side, book))
    requires Offered(o, demand, ChooseLimitPrice(o.side, demand, book, s1).fillableBase).Some?
    ensures var c1 := ChooseLimitPrice(o.side, demand, book, s1);
            var amount := Offered(o, demand, c1.fillableBase).value;
            var again := Offered(o, amount, ChooseLimitPrice(o.side, amount, book, s2).fillableBase);
            && (again == Some(amount) <==> amount == demand || LimitStaysWithin(o.side, c1, s2))
            && (again.Some? ==> again.value <= amount)
  {
    hide ChooseLimitPrice, SideLevels, LimitStaysWithin, MinRequiredBase;
    var c1 := ChooseLimitPrice(o.side, demand, book, s1);
    var amount := Offered(o, demand, c1.fillableBase).value;
    if amount == demand {
      WiderBudgetFillsMore(o.side, demand, book, s1, s2);
    } else {
      CarriedDemandFillsIff(o.side, demand, book, s1, s2);
      WholeIsEnough(o, amount);
    }
  }

  lemma WholeIsEnough(o: Setup, demand: real)
    requires o.sizing.minFillRatio <= 1.0 && demand >= 0.0
    ensures MinRequiredBase(o, demand) <= demand
  {
    ScaleLe(o.sizing.minFillRatio, 1.0, demand);
  }

  /** The same over a whole run: its amounts stay equal exactly on the condition known after its first attempt. */
  lemma RunKeepsAmountIff(start: real, demand: real, o: Setup, book: Book, answers: int -> Answer)
    requires o.sizing.minFillRatio <= 1.0 && Thick(SideLevels(o.side, book))
    requires |Attempts(1, start, demand, o, Steady(book, answers))| >= 2
    ensures var run := Attempts(1, start, demand, o, Steady(book, answers));
            && ((forall i :: 0 <= i < |run| ==> run[i].amount == run[0].amount)
                <==> run[0].amount == demand || LimitStaysWithin(o.side, run[0].choice, run[1].slippageBps))
  {
    hide Attempts, ChooseLimitPrice, SideLevels, LimitStaysWithin, Offered, NextRetrySlippageBps, IsNoFill;
    var turns := Steady(book, answers);
    var run := Attempts(1, start, demand, o, turns);
    RetryLoopIsBounded(1, start, demand, o, turns);
    assert IsAllowed(o, run[0], turns(1 + 0).book) && IsAllowed(o, run[1], turns(1 + 1).book);
    assert Follows(o, run[0], run[1], turns(1 + 1 - 1).answer);
    RetryKeepsAmountIff(o, demand, book, run[0].slippageBps, run[1].slippageBps);
    if run[1].amount == run[0].amount {
      forall i | 1 <= i < |run|
        ensures run[i].amount == run[0].amount
      {
        KeptOnceKeptAlways(start, demand, o, book, answers, i);
      }
    }
  }

  lemma {:induction false} KeptOnceKeptAlways(start: real, demand: real, o: Setup, book: Book,
                                              answers: int -> Answer, i: nat)
    requires 1 <= i < |Attempts(1, start, demand, o, Steady(book, answers))|
    requires var run := Attempts(1, start, demand, o, Steady(book, answers)); run[1].amount == run[1].demand
    ensures var run := Attempts(1, start, demand, o, Steady(book, answers));
            run[i].amount == run[i].demand == run[1].amount
  {
    hide Attempts, ChooseLimitPrice, Offered, NextRetrySlippageBps, IsNoFill;
    var turns := Steady(book, answers);
    var run := Attempts(1, start, demand, o, turns);
    if i == 1 {
    } else {
      KeptOnceKeptAlways(start, demand, o, book, answers, i - 1);
      RetryLoopIsBounded(1, start, demand, o, turns);
      assert IsAllowed(o, run[i - 1], turns(1 + (i - 1)).book) && IsAllowed(o, run[i], turns(1 + i).book);
      assert Follows(o, run[i - 1], run[i], turns(1 + i - 1).answer);
      AllowedAmount(o, run[i - 1], book);
      AllowedAmount(o, run[i], book);
      WiderBudgetFillsMore(o.side, run[i].demand, book, run[i - 1].slippageBps, run[i].slippageBps);
    }
  }

  // ---------------------------------------------------------------- which configurations lose size

  /** What the loaders guarantee beyond `Loaded`: budgets of at most 500 bps and a fill ratio in [0.05, 1]. */
  ghost predicate WithinLimits(start: real, c: Config, s: Sizing) {
    && Loaded(c) && c.maxSlippageBps <= 500.0 && 0.0 <= start <= 500.0
    && 0.05 <= s.minFillRatio <= 1.0
  }

  /** Depth can cut the amount of an order without refusing it. */
  predicate CanShrink(isIoc: bool, s: Sizing) {
    isIoc && s.allowPartial && s.minFillRatio < 1.0
  }

  /** A second attempt is possible. */
  predicate CanRetry(start: real, isIoc: bool, c: Config) {
    isIoc && c.maxAttempts >= 2 && start + 0.000000001 < NextRetrySlippageBps(start, c)
  }

  /** The amount submitted first gets through at the next budget. */
  predicate IsAllowedAgain(amount: real, start: real, o: Setup, turn: Turn) {
    var next := NextRetrySlippageBps(start, o.config);
    !turn.answer.Refused? && Offered(o, amount, ChooseLimitPrice(o.side, amount, turn.book, next).fillableBase).Some?
  }

  /**
   There is a second attempt exactly when the first is allowed, submitted and killed unfilled, a retry is possible
   with the configuration, and what was submitted is allowed again at the next budget.
   */
  lemma SecondAttemptIff(start: real, demand: real, o: Setup, turns: int -> Turn)
    ensures var first := Offered(o, demand, ChooseLimitPrice(o.side, demand, turns(1).book, start).fillableBase);
            (|Attempts(1, start, demand, o, turns)| >= 2
             <==> first.Some? && IsNoFill(turns(1).answer) && CanRetry(start, o.isIoc, o.config)
                  && IsAllowedAgain(first.value, start, o, turns(2)))
  {
    hide Attempts, ChooseLimitPrice, Offered, NextRetrySlippageBps, Retries;
    var next := NextRetrySlippageBps(start, o.config);
    var first := Offered(o, demand, ChooseLimitPrice(o.side, demand, turns(1).book, start).fillableBase);
    AttemptsStep(1, start, demand, o, turns);
    RetriesIff(1, o.isIoc, o.config, turns(1).answer, start);
    if first.Some? {
      AttemptsStep(2, next, first.value, o, turns);
    }
  }

  /** Where depth cannot cut it, every attempt submits the whole amount, whatever the books. */
  lemma {:induction false} WholeAmounts(start: real, demand: real, o: Setup, turns: int -> Turn, i: nat)
    requires 0.05 <= o.sizing.minFillRatio <= 1.0 && !CanShrink(o.isIoc, o.sizing)
    requires i < |Attempts(1, start, demand, o, turns)|
    ensures var a := Attempts(1, start, demand, o, turns)[i];
            a.amount == a.demand == demand
  {
    hide Attempts, ChooseLimitPrice;
    var run := Attempts(1, start, demand, o, turns);
    RetryLoopIsBounded(1, start, demand, o, turns);
    AllowedAmount(o, run[i], turns(1 + i).book);
    if i == 0 {
    } else {
      assert Follows(o, run[i - 1], run[i], turns(1 + i - 1).answer);
      WholeAmounts(start, demand, o, turns, i - 1);
    }
  }

  ghost predicate KeepsSize(run: seq<Attempt>) {
    forall i, j :: 0 <= i <= j < |run| ==>
      run[i].choice.fillableBase <= run[j].choice.fillableBase && run[i].amount <= run[j].amount
  }

  /** On an unchanged book, no attempt executes or submits less than an earlier one. */
  ghost predicate NeverLosesSize(start: real, isIoc: bool, c: Config, s: Sizing) {
    forall side, demand, book, answers ::
      KeepsSize(Attempts(1, start, demand, Setup(side, isIoc, c, s), Steady(book, answers)))
  }

  lemma WholeAmountsKeepSize(start: real, demand: real, o: Setup, book: Book, answers: int -> Answer)
    requires 0.05 <= o.sizing.minFillRatio <= 1.0 && !CanShrink(o.isIoc, o.sizing)
    ensures KeepsSize(Attempts(1, start, demand, o, Steady(book, answers)))
  {
    hide Attempts, ChooseLimitPrice, CanShrink;
    var turns := Steady(book, answers);
    var run := Attempts(1, start, demand, o, turns);
    RetryLoopIsBounded(1, start, demand, o, turns);
    forall i, j | 0 <= i <= j < |run|
      ensures run[i].choice.fillableBase <= run[j].choice.fillableBase && run[i].amount <= run[j].amount
    {
      WholeAmounts(start, demand, o, turns, i);
      WholeAmounts(start, demand, o, turns, j);
      assert IsAllowed(o, run[i], turns(1 + i).book) && IsAllowed(o, run[j], turns(1 + j).book);
      FixedDemandKeepsSize(start, demand, o, turns, book, demand, i, j);
    }
  }

  lemma SingleAttemptKeepsSize(start: real, demand: real, o: Setup, turns: int -> Turn)
    requires !CanRetry(start, o.isIoc, o.config)
    ensures KeepsSize(Attempts(1, start, demand, o, turns))
  {
    hide Attempts, ChooseLimitPrice, NextRetrySlippageBps;
    var run := Attempts(1, start, demand, o, turns);
    RetryLoopIsBounded(1, start, demand, o, turns);
    assert |run| >= 2 ==> Follows(o, run[0], run[1], turns(1 + 1 - 1).answer);
  }

  /** Asks at three rising prices, each of more than dust. */
  ghost predicate IsLadder(asks: seq<Level>) {
    |asks| == 3 && asks[0].price < asks[1].price < asks[2].price && Thick(asks)
  }

  lemma LadderIsSorted(asks: seq<Level>)
    requires IsLadder(asks)
    ensures SideLevels(Buy, Book([], asks)) == asks
  {
    hide Filter, StableSort;
    FilterAll(asks, IsValid);
    SortFixesSorted(asks, BestFirst(Buy));
  }

  lemma LadderTotals(asks: seq<Level>)
    requires |asks| == 3
    ensures Everything(asks[..1]).base == asks[0].baseSize
    ensures var t := Everything(asks[..2]);
            && t.base == asks[0].baseSize + asks[1].baseSize
            && t.quote == Paid(asks[0]) + Paid(asks[1])
    ensures var t := Everything(asks[..3]);
            && t.base == asks[0].baseSize + asks[1].baseSize + asks[2].baseSize
            && t.quote == Paid(asks[0]) + Paid(asks[1]) + Paid(asks[2])
  {
    hide Everything, Paid;
    var a, b, c := asks[0], asks[1], asks[2];
    assert asks[..1] == [a] + [] && asks[..2] == [a] + ([b] + []) && asks[..3] == [a] + ([b] + ([c] + []));
    EverythingCons(a, []);
    EverythingCons(b, []);
    EverythingCons(c, []);
    EverythingCons(a, [b] + []);
    EverythingCons(b, [c] + []);
    EverythingCons(a, [b] + ([c] + []));
  }

  /** The price of a whole level. */
  function Paid(l: Level): real {
    l.baseSize * l.price
  }

  lemma EverythingCons(l: Level, rest: seq<Level>)
    ensures var t := Everything([l] + rest);
            && t.base == l.baseSize + Everything(rest).base
            && t.quote == Paid(l) + Everything(rest).quote
    ensures Everything([]) == NOTHING
  {
    assert ([l] + rest)[1..] == rest;
  }

  /** The cap around the average of all three levels keeps two of them; the one around those two keeps one. */
  ghost predicate CapsShrink(asks: seq<Level>, s1: real, s2: real)
    requires IsLadder(asks)
  {
    var all, two := Everything(asks[..3]), Everything(asks[..2]);
    && all.base > 0.0 && two.base > 0.0
    && asks[1].price <= VwapCap(Buy, all.quote / all.base, s1) + DUST < asks[2].price
    && asks[0].price <= VwapCap(Buy, two.quote / two.base, s2) + DUST < asks[1].price
  }

  lemma LadderFills(asks: seq<Level>, s1: real, s2: real)
    requires IsLadder(asks) && CapsShrink(asks, s1, s2)
    ensures var one, two := asks[0].baseSize, asks[0].baseSize + asks[1].baseSize;
            && ChooseLimitPrice(Buy, two + asks[2].baseSize, Book([], asks), s1).fillableBase == two
            && ChooseLimitPrice(Buy, two, Book([], asks), s2).fillableBase == one
  {
    hide Everything, ChooseLimitPrice, SideLevels, VwapCap, UsedLevels;
    LadderIsSorted(asks);
    LadderTotals(asks);
    PrefixDemandFills(Buy, Book([], asks), 3, s1);
    PrefixDemandFills(Buy, Book([], asks), 2, s2);
    SideLevelsNormalized(Buy, Book([], asks));
    var all, two := Everything(asks[..3]), Everything(asks[..2]);
    CapKeepsPrefix(Buy, asks, VwapCap(Buy, all.quote / all.base, s1));
    CapKeepsPrefix(Buy, asks, VwapCap(Buy, two.quote / two.base, s2));
    assert Leading(asks, WithinCap(Buy, VwapCap(Buy, all.quote / all.base, s1))) == 2;
    assert Leading(asks, WithinCap(Buy, VwapCap(Buy, two.quote / two.base, s2))) == 1;
  }

  /** Every submission is killed unfilled. */
  function AlwaysKilled(): int -> Answer {
    (k: int) => Engine(false, "TECKILLED")
  }

  lemma LadderRun(o: Setup, start: real, asks: seq<Level>)
    requires o.side.Buy? && CanRetry(start, o.isIoc, o.config)
    requires IsLadder(asks) && CapsShrink(asks, start, NextRetrySlippageBps(start, o.config))
    requires var two := asks[0].baseSize + asks[1].baseSize;
             Offered(o, two + asks[2].baseSize, two) == Some(two)
    ensures var one, two := asks[0].baseSize, asks[0].baseSize + asks[1].baseSize;
            var run := Attempts(1, start, two + asks[2].baseSize, o, Steady(Book([], asks), AlwaysKilled()));
            if Offered(o, two, one) == Some(one) then |run| >= 2 && run[0].amount == two && run[1].amount == one
            else Offered(o, two, one).None? ==> |run| == 1 && run[0].amount == two
  {
    hide ChooseLimitPrice, Offered, Attempts, CapsShrink;
    var one, two := asks[0].baseSize, asks[0].baseSize + asks[1].baseSize;
    var next := NextRetrySlippageBps(start, o.config);
    var turns := Steady(Book([], asks), AlwaysKilled());
    LadderFills(asks, start, next);
    AttemptsStep(1, start, two + asks[2].baseSize, o, turns);
    AttemptsStep(2, next, two, o, turns);
  }

  // The default schedule: five bps to start from, three more for each retry, at most 25, and three attempts.
  const DEFAULT_START := 5.0
  const DEFAULT_SCHEDULE := Config(3, 3.0, 25.0)

  /**
   A retry on an unchanged book, with more slippage allowed, that submits less: with the default schedule and
   fill ratio an order for 13 is cut to 11, and its retry to 10. If the minimum lies between, there is no retry.
   */
  lemma DefaultScheduleLosesSize(minBase: real)
    requires minBase <= 11.0
    ensures var o := Setup(Buy, true, DEFAULT_SCHEDULE, Sizing(true, minBase, 0.5));
            var book := Book([], [Level(1000.0, 10.0), Level(1002.0, 1.0), Level(1010.0, 2.0)]);
            var run := Attempts(1, DEFAULT_START, 13.0, o, Steady(book, AlwaysKilled()));
            if minBase <= 10.0 + DUST then |run| >= 2 && run[0].amount == 11.0 && run[1].amount == 10.0
            else |run| == 1 && run[0].amount == 11.0 && DecideRetryAmount(11.0, 10.0, true, minBase).reason == BelowMin
  {
    hide Attempts, Everything, Steady, AlwaysKilled;
    var asks := [Level(1000.0, 10.0), Level(1002.0, 1.0), Level(1010.0, 2.0)];
    var o := Setup(Buy, true, DEFAULT_SCHEDULE, Sizing(true, minBase, 0.5));
    LadderTotals(asks);
    assert NextRetrySlippageBps(DEFAULT_START, DEFAULT_SCHEDULE) == 8.0;
    assert VwapCap(Buy, 13022.0 / 13.0, 5.0) == 13022.0 / 13.0 * 1.0005;
    assert VwapCap(Buy, 11002.0 / 11.0, 8.0) == 11002.0 / 11.0 * 1.0008;
    assert CapsShrink(asks, 5.0, 8.0);
    LadderRun(o, DEFAULT_START, asks);
  }

  /** A ladder whose average is `v`, at which the budget `start` just reaches the second level. */
  function LosingLadder(v: real, a: real, k: real): seq<Level>
    requires k > 0.0
  {
    [Level(1.0, a), Level(2.0, k), Level((v - 1.0) * (a + 2.0 * k) / k, k)]
  }

  lemma LosingTop(f: real, v: real, a: real, k: real, top: real)
    requires 0.0 <= f <= 0.05 && v * (1.0 + f) == 2.0
    requires a >= k >= 1.0 && top == (v - 1.0) * (a + 2.0 * k) / k
    ensures top > 2.5 && top * k == (v - 1.0) * (a + 2.0 * k) && v > 1.9
  {
    QuotientTimes((v - 1.0) * (a + 2.0 * k), k);
    StartIsHigh(1.0 + f, v, v * (1.0 + f));
    TopIsHigh(v - 1.0, a + 2.0 * k, k, top);
  }

  lemma StartIsHigh(g: real, v: real, product: real)
    requires 1.0 <= g <= 1.05 && product == v * g && product == 2.0
    ensures v > 1.9
  {
    if v <= 1.9 {
      NonNegativeProduct(1.9 - v, g, 1.9 * g - product);
      assert false;
    }
  }

  lemma TopIsHigh(gap: real, size: real, k: real, top: real)
    requires gap > 0.9 && size >= 3.0 * k && k >= 1.0 && top * k == gap * size
    ensures top > 2.5
  {
    ScaleLe(0.9, gap, size);
    if top <= 2.5 {
      ScaleLe(top, 2.5, k);
      assert false;
    }
  }

  /** The average over the first two levels lies between 1 and 1.5, over all three it is `v`. */
  lemma LosingAverages(v: real, a: real, k: real, topPaid: real)
    requires a >= k >= 1.0 && v > 0.0 && topPaid == (v - 1.0) * (a + 2.0 * k)
    ensures (a + k * 2.0 + topPaid) / (a + k + k) == v
    ensures 1.0 <= (a + k * 2.0) / (a + k) <= 1.5
  {
    CancelFactor(v, a + 2.0 * k);
    assert a + k * 2.0 + topPaid == v * (a + 2.0 * k) && a + k + k == a + 2.0 * k;
    DivideLe(a + k * 2.0, a + k, 1.5, 1.0);
    DivideLe(1.0, 1.0, a + k * 2.0, a + k);
  }

  lemma LosingLadderShrinks(start: real, next: real, v: real, a: real, k: real)
    requires 0.0 <= start <= 500.0 && 0.0 <= next <= 500.0
    requires v * (1.0 + start / 10000.0) == 2.0 && a >= k >= 1.0
    ensures IsLadder(LosingLadder(v, a, k)) && CapsShrink(LosingLadder(v, a, k), start, next)
  {
    hide Everything, VwapCap, Paid;
    var asks := LosingLadder(v, a, k);
    LosingTop(start / 10000.0, v, a, k, asks[2].price);
    LadderTotals(asks);
    LosingPaid(a, k, asks[2].price);
    LosingAverages(v, a, k, Paid(asks[2]));
    CapOfStart(v, start);
    CapWithinBudget((a + k * 2.0) / (a + k), next);
  }

  lemma LosingPaid(a: real, k: real, top: real)
    ensures Paid(Level(1.0, a)) == a && Paid(Level(2.0, k)) == k * 2.0 && Paid(Level(top, k)) == top * k
  {
  }

  lemma CapOfStart(v: real, start: real)
    requires 0.0 <= start && v * (1.0 + start / 10000.0) == 2.0
    ensures VwapCap(Buy, v, start) == 2.0
  {
  }

  lemma CapWithinBudget(vwap: real, slippageBps: real)
    requires 1.0 <= vwap <= 1.5 && 0.0 <= slippageBps <= 500.0
    ensures 1.0 <= VwapCap(Buy, vwap, slippageBps) <= 1.6
  {
    var g := 1.0 + slippageBps / 10000.0;
    NonNegativeProduct(vwap - 1.0, g, vwap * g - g);
    NonNegativeProduct(1.5 - vwap, g, 1.5 * g - vwap * g);
  }

  /** Sizes at which neither the fill ratio nor the minimum refuses the cut order. */
  lemma LosingSizes(r: real, k: real, a: real)
    requires 0.05 <= r < 1.0 && k >= 1.0 && a == Max(k, r * k / (1.0 - r))
    ensures (a + k) * r <= a && (a + 2.0 * k) * r <= a + k
  {
    var q := r * k / (1.0 - r);
    QuotientTimes(r * k, 1.0 - r);
    Distribute(q, k, r, q * r, r * k);
    Distribute(a, k, r, a * r, r * k);
    SizesPass(r, k, a, q, a * r, r * k, q * r);
  }

  lemma SizesPass(r: real, k: real, a: real, q: real, ar: real, rk: real, qr: real)
    requires ar == a * r && rk == r * k && qr == q * r && q - qr == rk
    requires 0.0 < r < 1.0 && k >= 1.0 && a >= q
    ensures ar + rk <= a && ar + 2.0 * rk <= a + k
  {
    NonNegativeProduct(a - q, 1.0 - r, a - ar - (q - qr));
    NonNegativeProduct(1.0 - r, k, k - rk);
  }

  lemma Distribute(a: real, k: real, r: real, ar: real, rk: real)
    requires ar == a * r && rk == r * k
    ensures a * (1.0 - r) == a - ar && (a + k) * r == ar + rk && (a + 2.0 * k) * r == ar + 2.0 * rk
  {
  }

  lemma ShrinkableLosesSize(start: real, c: Config, s: Sizing)
    requires WithinLimits(start, c, s) && CanShrink(true, s) && CanRetry(start, true, c)
    ensures !NeverLosesSize(start, true, c, s)
  {
    hide Attempts, LosingLadder, CapsShrink;
    var o := Setup(Buy, true, c, s);
    var v := 2.0 / (1.0 + start / 10000.0);
    var k := Max(1.0, s.minBase);
    var a := Max(k, s.minFillRatio * k / (1.0 - s.minFillRatio));
    var asks := LosingLadder(v, a, k);
    LosingSizes(s.minFillRatio, k, a);
    LosingLadderShrinks(start, NextRetrySlippageBps(start, c), v, a, k);
    assert asks[0].baseSize == a && asks[1].baseSize == k && asks[2].baseSize == k by {
      LosingLevels(v, a, k);
    }
    LadderRun(o, start, asks);
    var run := Attempts(1, start, a + k + k, o, Steady(Book([], asks), AlwaysKilled()));
    assert !KeepsSize(run);
  }

  lemma LosingLevels(v: real, a: real, k: real)
    requires k > 0.0
    ensures var asks := LosingLadder(v, a, k);
            |asks| == 3 && asks[0].baseSize == a && asks[1].baseSize == k && asks[2].baseSize == k
  {
  }

  /**
   Exact condition on the configuration: on unchanged books no attempt ever executes or submits less than an
   earlier one if and only if no second attempt is possible or depth cannot cut an order: partial sizing is off,
   or the whole amount has to be fillable.
   */
  lemma NeverLosesSizeIff(start: real, isIoc: bool, c: Config, s: Sizing)
    requires WithinLimits(start, c, s)
    ensures NeverLosesSize(start, isIoc, c, s) <==> !CanRetry(start, isIoc, c) || !CanShrink(isIoc, s)
  {
    hide Attempts, CanRetry, CanShrink, KeepsSize, NextRetrySlippageBps;
    if CanRetry(start, isIoc, c) && CanShrink(isIoc, s) {
      assert isIoc by { OnlyIocRetries(start, isIoc, c); }
      ShrinkableLosesSize(start, c, s);
    } else {
      forall side, demand, book, answers
        ensures KeepsSize(Attempts(1, start, demand, Setup(side, isIoc, c, s), Steady(book, answers)))
      {
        var o := Setup(side, isIoc, c, s);
        if CanRetry(start, isIoc, c) {
          WholeAmountsKeepSize(start, demand, o, book, answers);
        } else {
          SingleAttemptKeepsSize(start, demand, o, Steady(book, answers));
        }
      }
    }
  }

  lemma OnlyIocRetries(start: real, isIoc: bool, c: Config)
    requires CanRetry(start, isIoc, c)
    ensures isIoc
  {
  }
}
