/**
 Order-book depth: walking levels, and choosing a limit price under a VWAP cap
 (src/execution/depthPricing.ts).
 */
module DepthPricing {
  import opened Basics
  import opened Sorting

  datatype Level = Level(price: real, baseSize: real)

  datatype Book = Book(bids: seq<Level>, asks: seq<Level>)

  datatype Fill = Fill(fillableBase: real, vwap: Option<real>, worstPrice: Option<real>)

  datatype LimitChoice = LimitChoice(
    limitPrice: Option<real>, fillableBase: real, expectedVwap: Option<real>, worstPrice: Option<real>)

  const NO_FILL := Fill(0.0, None, None)
  const NO_LIMIT := LimitChoice(None, 0.0, None, None)

  // ---------------------------------------------------------------- levels

  predicate IsValid(l: Level) {
    l.price > 0.0 && l.baseSize > 0.0
  }

  /** Cost seen by the side: what a buyer pays, or minus what a seller receives. */
  function Cost(side: Side, quote: real): real {
    if side.Buy? then quote else -quote
  }

  /** Ascending rank is from best to worst: ascending asks for a buyer, descending bids for a seller. */
  function Rank(side: Side, l: Level): real {
    Cost(side, l.price)
  }

  function BestFirst(side: Side): Level -> real {
    (l: Level) => Rank(side, l)
  }

  function NormalizeLevels(levels: seq<Level>, side: Side): seq<Level> {
    StableSort(Filter(levels, IsValid), BestFirst(side))
  }

  ghost predicate Normalized(levels: seq<Level>, side: Side) {
    && (forall i, j :: 0 <= i <= j < |levels| ==> Rank(side, levels[i]) <= Rank(side, levels[j]))
    && forall l :: l in levels ==> IsValid(l)
  }

  /** Normalising keeps exactly the valid levels, as often as they occur, best first. */
  lemma NormalizeLevelsMeaning(levels: seq<Level>, side: Side)
    ensures Normalized(NormalizeLevels(levels, side), side)
    ensures multiset(NormalizeLevels(levels, side)) == multiset(Filter(levels, IsValid))
    ensures NormalizeLevels(levels, side) == [] <==> forall l :: l in levels ==> !IsValid(l)
  {
    var valid := Filter(levels, IsValid);
    StableSortSorted(valid, BestFirst(side));
    SortKeepsMembers(valid, BestFirst(side));
    if |valid| > 0 {
      assert valid[0] in valid;
    }
  }

  // ---------------------------------------------------------------- the walk

  /** What a walk has collected. */
  datatype Totals = Totals(base: real, quote: real, worst: Option<real>)

  const NOTHING := Totals(0.0, 0.0, None)

  function Add(take: real, price: real, later: Totals): Totals {
    Totals(take + later.base, take * price + later.quote,
           if later.worst.None? then Some(price) else later.worst)
  }

  function Join(a: Totals, b: Totals): Totals {
    Totals(a.base + b.base, a.quote + b.quote, if b.worst.None? then a.worst else b.worst)
  }

  /** The greedy walk, seen from the front of the list. */
  function Walk(levels: seq<Level>, remaining: real): Totals {
    if levels == [] || remaining <= DUST then NOTHING
    else if !IsValid(levels[0]) then Walk(levels[1..], remaining)
    else
      var take := Min(remaining, levels[0].baseSize);
      Add(take, levels[0].price, Walk(levels[1..], remaining - take))
  }

  function FillOf(levels: seq<Level>, desiredBase: real): Fill {
    if desiredBase <= 0.0 then NO_FILL
    else
      var t := Walk(levels, desiredBase);
      if t.base <= 0.0 || t.quote <= 0.0 then NO_FILL
      else Fill(t.base, Some(t.quote / t.base), t.worst)
  }

  lemma JoinAdd(t: Totals, take: real, price: real, later: Totals)
    ensures Join(Totals(t.base + take, t.quote + take * price, Some(price)), later) == Join(t, Add(take, price, later))
    ensures Join(NOTHING, t) == t && Join(t, NOTHING) == t
  {
  }

  /** One turn of the loop on a valid level. */
  lemma TakeStep(levels: seq<Level>, t: Totals, remaining: real, take: real, paid: real)
    requires levels != [] && remaining > DUST && IsValid(levels[0])
    requires take == Min(remaining, levels[0].baseSize) && paid == take * levels[0].price
    ensures Join(Totals(t.base + take, t.quote + paid, Some(levels[0].price)), Walk(levels[1..], remaining - take))
         == Join(t, Walk(levels, remaining))
  {
    JoinAdd(t, take, levels[0].price, Walk(levels[1..], remaining - take));
  }

  lemma SkipStep(levels: seq<Level>, remaining: real)
    ensures levels != [] && !IsValid(levels[0]) ==> Walk(levels, remaining) == Walk(levels[1..], remaining)
    ensures levels == [] || remaining <= DUST ==> Walk(levels, remaining) == NOTHING
  {
  }

  /** The loop of `computeFill`, with its running totals. */
  method ComputeFill(bookLevels: seq<Level>, desiredBase: real) returns (r: Fill)
    ensures r == FillOf(bookLevels, desiredBase)
  {
    hide Walk, Join;
    if desiredBase <= 0.0 {
      return NO_FILL;
    }
    var remaining := desiredBase;
    var fillableBase := 0.0;
    var filledQuote := 0.0;
    var worstPrice: Option<real> := None;
    JoinAdd(Walk(bookLevels, desiredBase), 0.0, 0.0, NOTHING);
    assert bookLevels[0..] == bookLevels;
    var i := 0;
    while i < |bookLevels| && remaining > DUST
      invariant 0 <= i <= |bookLevels|
      invariant Join(Totals(fillableBase, filledQuote, worstPrice), Walk(bookLevels[i..], remaining))
             == Walk(bookLevels, desiredBase)
    {
      var level := bookLevels[i];
      assert bookLevels[i..][1..] == bookLevels[i + 1..];
      SkipStep(bookLevels[i..], remaining);
      if IsValid(level) {
        var takeBase := Min(remaining, level.baseSize);
        var paid := takeBase * level.price;
        TakeStep(bookLevels[i..], Totals(fillableBase, filledQuote, worstPrice), remaining, takeBase, paid);
        fillableBase := fillableBase + takeBase;
        filledQuote := filledQuote + paid;
        worstPrice := Some(level.price);
        remaining := remaining - takeBase;
      }
      i := i + 1;
    }
    SkipStep(bookLevels[i..], remaining);
    JoinAdd(Totals(fillableBase, filledQuote, worstPrice), 0.0, 0.0, NOTHING);
    if fillableBase <= 0.0 || filledQuote <= 0.0 {
      return NO_FILL;
    }
    return Fill(fillableBase, Some(filledQuote / fillableBase), worstPrice);
  }

  // ---------------------------------------------------------------- how much is filled

  /** Total size of the valid levels. */
  function Depth(levels: seq<Level>): real {
    if levels == [] then 0.0
    else (if IsValid(levels[0]) then levels[0].baseSize else 0.0) + Depth(levels[1..])
  }

  lemma {:induction false} DepthNonNegative(levels: seq<Level>)
    ensures Depth(levels) >= 0.0
  {
    if levels == [] {
    } else {
      DepthNonNegative(levels[1..]);
    }
  }

  lemma AddIsPositive(take: real, price: real, later: Totals)
    requires take > 0.0 && price > 0.0 && later.base >= 0.0 && later.quote >= 0.0
    ensures var t := Add(take, price, later);
            t.base == take + later.base && t.base > 0.0 && t.quote > 0.0 && t.worst.Some?
  {
    PositiveProduct(take, price);
  }

  lemma {:induction false} WalkBase(levels: seq<Level>, d: real)
    requires d >= 0.0
    ensures var b := Walk(levels, d).base;
            0.0 <= b <= Min(d, Depth(levels)) <= b + DUST
    ensures Walk(levels, d).quote >= 0.0
    ensures Walk(levels, d).worst.None? <==> Walk(levels, d).base == 0.0
    ensures Walk(levels, d).base == 0.0 <==> Walk(levels, d).quote == 0.0
  {
    hide Add;
    DepthNonNegative(levels);
    if levels == [] || d <= DUST {
    } else {
      var l := levels[0];
      var take := if IsValid(l) then Min(d, l.baseSize) else 0.0;
      WalkBase(levels[1..], d - take);
      if IsValid(l) {
        AddIsPositive(take, l.price, Walk(levels[1..], d - take));
      }
    }
  }

  /** The base collected by a walk, one level at a time. */
  lemma WalkBaseStep(levels: seq<Level>, d: real)
    ensures levels == [] || d <= DUST ==> Walk(levels, d).base == 0.0
    ensures levels != [] && d > DUST && IsValid(levels[0]) ==>
              var take := Min(d, levels[0].baseSize);
              Walk(levels, d).base == take + Walk(levels[1..], d - take).base
  {
  }

  /** `computeFill` fills the smaller of the demand and the depth, to within the dust tolerance. */
  lemma FillMeetsDemand(levels: seq<Level>, desiredBase: real)
    requires desiredBase > 0.0
    ensures var b := FillOf(levels, desiredBase).fillableBase;
            b <= Min(desiredBase, Depth(levels)) <= b + DUST
    ensures FillOf(levels, desiredBase).vwap.None? <==> FillOf(levels, desiredBase).fillableBase == 0.0
  {
    WalkBase(levels, desiredBase);
  }

  // ---------------------------------------------------------------- greedy is optimal

  /** An allocation takes from each level no more than its size. */
  ghost predicate IsAllocation(levels: seq<Level>, x: seq<real>) {
    |x| == |levels| && forall i :: 0 <= i < |x| ==> 0.0 <= x[i] <= levels[i].baseSize
  }

  function QuoteOf(levels: seq<Level>, x: seq<real>): real
    requires |x| == |levels|
  {
    if x == [] then 0.0 else x[0] * levels[0].price + QuoteOf(levels[1..], x[1..])
  }

  /** The allocation the walk makes. */
  function GreedyTake(levels: seq<Level>, d: real): (x: seq<real>)
    ensures |x| == |levels|
  {
    if levels == [] then []
    else if d <= DUST || !IsValid(levels[0]) then [0.0] + GreedyTake(levels[1..], d)
    else
      var take := Min(d, levels[0].baseSize);
      [take] + GreedyTake(levels[1..], d - take)
  }

  lemma QuoteOfCons(levels: seq<Level>, take: real, rest: seq<real>)
    requires levels != [] && |rest| == |levels| - 1
    ensures QuoteOf(levels, [take] + rest) == take * levels[0].price + QuoteOf(levels[1..], rest)
  {
    assert ([take] + rest)[1..] == rest;
  }

  lemma {:induction false} GreedyQuoteIsWalked(levels: seq<Level>, d: real)
    requires forall l :: l in levels ==> IsValid(l)
    ensures QuoteOf(levels, GreedyTake(levels, d)) == Walk(levels, d).quote
  {
    if levels == [] {
    } else {
      hide QuoteOf;
      assert levels[0] in levels;
      var take := if d <= DUST then 0.0 else Min(d, levels[0].baseSize);
      GreedyQuoteIsWalked(levels[1..], d - take);
      QuoteOfCons(levels, take, GreedyTake(levels[1..], d - take));
    }
  }

  /** The allocation stays within the level sizes and takes the base of the walk. */
  lemma {:induction false} GreedyTakesWalkedBase(levels: seq<Level>, d: real)
    requires forall l :: l in levels ==> IsValid(l)
    ensures IsAllocation(levels, GreedyTake(levels, d))
    ensures Sum(GreedyTake(levels, d)) == Walk(levels, d).base
  {
    hide Walk;
    WalkBaseStep(levels, d);
    if levels == [] {
    } else {
      assert levels[0] in levels;
      var take := if d <= DUST then 0.0 else Min(d, levels[0].baseSize);
      GreedyTakesWalkedBase(levels[1..], d - take);
      WalkBaseStep(levels[1..], d - take);
      assert GreedyTake(levels, d)[1..] == GreedyTake(levels[1..], d - take);
    }
  }

  lemma GreedyTakeIsAllocation(levels: seq<Level>, d: real)
    requires forall l :: l in levels ==> IsValid(l)
    ensures IsAllocation(levels, GreedyTake(levels, d))
    ensures Sum(GreedyTake(levels, d)) == Walk(levels, d).base
    ensures QuoteOf(levels, GreedyTake(levels, d)) == Walk(levels, d).quote
  {
    hide QuoteOf, Walk, Sum, GreedyTake, IsAllocation;
    GreedyTakesWalkedBase(levels, d);
    GreedyQuoteIsWalked(levels, d);
  }

  /** What `x` takes beyond `g`, weighed by how far each level lies from the marginal price `w`. */
  function Excess(side: Side, levels: seq<Level>, x: seq<real>, g: seq<real>, w: real): real
    requires |x| == |g| == |levels|
  {
    if x == [] then 0.0
    else LevelExcess(side, levels[0], x[0], g[0], w) + Excess(side, levels[1..], x[1..], g[1..], w)
  }

  function LevelExcess(side: Side, l: Level, x: real, g: real, w: real): real {
    (x - g) * (Rank(side, l) - w)
  }

  lemma {:induction false} ExcessIsExtraCost(side: Side, levels: seq<Level>, x: seq<real>, g: seq<real>, w: real)
    requires |x| == |g| == |levels|
    ensures Excess(side, levels, x, g, w)
         == Cost(side, QuoteOf(levels, x)) - Cost(side, QuoteOf(levels, g)) - w * (Sum(x) - Sum(g))
  {
    hide LevelExcess;
    if x == [] {
      assert g == [];
    } else {
      ExcessIsExtraCost(side, levels[1..], x[1..], g[1..], w);
      ExcessStep(side, levels[0], x[0], g[0], w, QuoteOf(levels[1..], x[1..]), QuoteOf(levels[1..], g[1..]),
                 Sum(x[1..]), Sum(g[1..]));
    }
  }

  lemma ExcessStep(side: Side, l: Level, x: real, g: real, w: real, quoteX: real, quoteG: real, sumX: real, sumG: real)
    ensures LevelExcess(side, l, x, g, w) + (Cost(side, quoteX) - Cost(side, quoteG) - w * (sumX - sumG))
         == Cost(side, x * l.price + quoteX) - Cost(side, g * l.price + quoteG) - w * (x + sumX - (g + sumG))
  {
  }

  /** Below the marginal price `w` the allocation takes everything, above it nothing. */
  ghost predicate FillsUpTo(side: Side, levels: seq<Level>, g: seq<real>, w: real)
    requires |g| == |levels|
  {
    g == [] || (FillsLevel(side, levels[0], g[0], w) && FillsUpTo(side, levels[1..], g[1..], w))
  }

  ghost predicate FillsLevel(side: Side, l: Level, take: real, w: real) {
    var k := Rank(side, l);
    k == w || (k < w && take == l.baseSize) || (k > w && take == 0.0)
  }

  lemma GreedyTakeStep(levels: seq<Level>, d: real)
    requires levels != [] && IsValid(levels[0])
    ensures var take := if d <= DUST then 0.0 else Min(d, levels[0].baseSize);
            GreedyTake(levels, d) == [take] + GreedyTake(levels[1..], d - take)
  {
  }

  lemma FillsUpToNothing(side: Side, d: real, w: real)
    ensures FillsUpTo(side, [], GreedyTake([], d), w)
  {
  }

  lemma FillsUpToCons(side: Side, levels: seq<Level>, take: real, rest: seq<real>, w: real)
    requires levels != [] && |rest| == |levels| - 1
    requires FillsLevel(side, levels[0], take, w) && FillsUpTo(side, levels[1..], rest, w)
    ensures FillsUpTo(side, levels, [take] + rest, w)
  {
    assert ([take] + rest)[1..] == rest;
  }

  lemma {:induction false} GreedyFillsUpTo(side: Side, levels: seq<Level>, d: real, w: real)
    requires Normalized(levels, side)
    requires d >= 0.0
    requires d <= DUST ==> forall i :: 0 <= i < |levels| ==> w <= Rank(side, levels[i])
    requires Walk(levels, d).worst.Some? ==> w == Cost(side, Walk(levels, d).worst.value)
    ensures FillsUpTo(side, levels, GreedyTake(levels, d), w)
  {
    hide Walk, Cost, Rank, GreedyTake, FillsUpTo;
    if levels == [] {
      FillsUpToNothing(side, d, w);
    } else {
      var take := if d <= DUST then 0.0 else Min(d, levels[0].baseSize);
      NormalizedTail(side, levels);
      if d <= DUST {
        SkipStep(levels[1..], d);
      } else {
        WalkTakesFirst(levels, d);
        PivotAgainstHead(side, levels, d, w);
      }
      GreedyFillsUpTo(side, levels[1..], d - take, w);
      GreedyTakeStep(levels, d);
      FillsUpToCons(side, levels, take, GreedyTake(levels[1..], d - take), w);
    }
  }

  lemma {:induction false} FillingUpToHasNoExcess(side: Side, levels: seq<Level>, g: seq<real>, x: seq<real>, w: real)
    requires IsAllocation(levels, x) && IsAllocation(levels, g) && FillsUpTo(side, levels, g, w)
    ensures Excess(side, levels, x, g, w) >= 0.0
  {
    hide Rank, LevelExcess;
    if x == [] {
    } else {
      FillingUpToHasNoExcess(side, levels[1..], g[1..], x[1..], w);
      LevelHasNoExcess(side, levels[0], g[0], x[0], w);
    }
  }

  lemma LevelHasNoExcess(side: Side, l: Level, take: real, x: real, w: real)
    requires FillsLevel(side, l, take, w) && 0.0 <= x <= l.baseSize
    ensures LevelExcess(side, l, x, take, w) >= 0.0
  {
    ProductNonNegative(x - take, Rank(side, l) - w);
  }

  lemma FillingUpToIsCheapest(side: Side, levels: seq<Level>, g: seq<real>, x: seq<real>, w: real)
    requires IsAllocation(levels, x) && IsAllocation(levels, g) && FillsUpTo(side, levels, g, w)
    requires Sum(x) == Sum(g)
    ensures Cost(side, QuoteOf(levels, x)) >= Cost(side, QuoteOf(levels, g))
  {
    hide Sum, QuoteOf, Excess, FillsUpTo, Cost;
    FillingUpToHasNoExcess(side, levels, g, x, w);
    ExcessIsExtraCost(side, levels, x, g, w);
    SameUnits(Excess(side, levels, x, g, w), Cost(side, QuoteOf(levels, x)), Cost(side, QuoteOf(levels, g)), w,
              Sum(x), Sum(g));
  }

  lemma SameUnits(excess: real, costX: real, costG: real, w: real, sumX: real, sumG: real)
    requires excess == costX - costG - w * (sumX - sumG) && sumX == sumG
    ensures excess == costX - costG
  {
    assert w * (sumX - sumG) == 0.0;
  }

  lemma NormalizedTail(side: Side, levels: seq<Level>)
    requires Normalized(levels, side) && levels != []
    ensures Normalized(levels[1..], side) && IsValid(levels[0])
    ensures forall l :: l in levels[1..] ==> Rank(side, levels[0]) <= Rank(side, l)
  {
    assert levels[0] in levels;
  }

  /** The first level is no worse than the marginal price, and is the marginal level if not used up. */
  lemma PivotAgainstHead(side: Side, levels: seq<Level>, d: real, w: real)
    requires Normalized(levels, side) && levels != [] && d > DUST
    requires Walk(levels, d).worst.Some? && w == Cost(side, Walk(levels, d).worst.value)
    ensures var k, take := Rank(side, levels[0]), Min(d, levels[0].baseSize);
            && k <= w && (d - take <= DUST || take < levels[0].baseSize ==> w == k)
            && (Walk(levels[1..], d - take).worst.Some? ==> Walk(levels[1..], d - take).worst == Walk(levels, d).worst)
  {
    NormalizedTail(side, levels);
    WorstIsALevel(side, levels[1..], d - Min(d, levels[0].baseSize));
  }

  lemma {:induction false} WorstIsALevel(side: Side, levels: seq<Level>, d: real)
    requires Normalized(levels, side)
    ensures Walk(levels, d).worst.Some? ==>
              exists l :: l in levels && l.price == Walk(levels, d).worst.value
  {
    if levels == [] || d <= DUST {
    } else {
      assert levels[0] in levels;
      WorstIsALevel(side, levels[1..], d - Min(d, levels[0].baseSize));
    }
  }

  /**
   Greedy optimality: of all ways to take the same base within the level sizes, the walk over
   normalised levels pays the least (BUY) or receives the most (SELL).
   */
  lemma GreedyIsBestAllocation(side: Side, levels: seq<Level>, desiredBase: real, x: seq<real>)
    requires Normalized(levels, side)
    requires desiredBase > 0.0
    requires IsAllocation(levels, x)
    requires Sum(x) == Walk(levels, desiredBase).base
    ensures side.Buy? ==> QuoteOf(levels, x) >= Walk(levels, desiredBase).quote
    ensures side.Sell? ==> QuoteOf(levels, x) <= Walk(levels, desiredBase).quote
  {
    var t := Walk(levels, desiredBase);
    WalkBase(levels, desiredBase);
    if t.worst.None? {
      NothingFromNothing(levels, x);
    } else {
      var w := Cost(side, t.worst.value);
      GreedyTakeIsAllocation(levels, desiredBase);
      GreedyFillsUpTo(side, levels, desiredBase, w);
      FillingUpToIsCheapest(side, levels, GreedyTake(levels, desiredBase), x, w);
    }
  }

  lemma {:induction false} NothingFromNothing(levels: seq<Level>, x: seq<real>)
    requires IsAllocation(levels, x)
    ensures Sum(x) >= 0.0
    ensures Sum(x) == 0.0 ==> QuoteOf(levels, x) == 0.0
  {
    if x == [] {
    } else {
      NothingFromNothing(levels[1..], x[1..]);
    }
  }

  // ---------------------------------------------------------------- choosing a limit

  function SideLevels(side: Side, book: Book): seq<Level> {
    if side.Buy? then NormalizeLevels(book.asks, Buy) else NormalizeLevels(book.bids, Sell)
  }

  /** The VWAP with the slippage budget (in bps, negative budgets count as zero) applied against the side. */
  function VwapCap(side: Side, vwap: real, slippageBps: real): real {
    var slippageFactor := Max(0.0, slippageBps) / 10000.0;
    if side.Buy? then vwap * (1.0 + slippageFactor) else vwap * (1.0 - slippageFactor)
  }

  predicate IsWithinCap(side: Side, cap: real, l: Level) {
    if side.Buy? then l.price <= cap + DUST else l.price + DUST >= cap
  }

  function WithinCap(side: Side, cap: real): Level -> bool {
    (l: Level) => IsWithinCap(side, cap, l)
  }

  function ChooseLimitPrice(side: Side, desiredBase: real, book: Book, slippageBps: real): LimitChoice {
    if desiredBase <= 0.0 then NO_LIMIT
    else
      var sideLevels := SideLevels(side, book);
      if sideLevels == [] then NO_LIMIT
      else
        var rawFill := FillOf(sideLevels, desiredBase);
        if rawFill.fillableBase <= 0.0 || rawFill.vwap.None? then NO_LIMIT
        else
          var cap := VwapCap(side, rawFill.vwap.value, slippageBps);
          var cappedFill := FillOf(Filter(sideLevels, WithinCap(side, cap)), desiredBase);
          if cappedFill.fillableBase <= 0.0 || cappedFill.vwap.None? || cappedFill.worstPrice.None? then NO_LIMIT
          else LimitChoice(cappedFill.worstPrice, cappedFill.fillableBase, cappedFill.vwap, cappedFill.worstPrice)
  }

  /** `a` is at least as good a price as `b` for the side. */
  predicate NoWorse(side: Side, a: real, b: real) {
    Cost(side, a) <= Cost(side, b)
  }

  lemma JoinAfterAdd(take: real, price: real, later: Totals, rest: Totals)
    ensures Join(Add(take, price, later), rest) == Add(take, price, Join(later, rest))
    ensures Add(take, price, later).base == take + later.base
    ensures Join(NOTHING, rest) == rest
  {
  }

  lemma {:induction false} WalkConcat(a: seq<Level>, b: seq<Level>, d: real)
    ensures Walk(a + b, d) == Join(Walk(a, d), Walk(b, d - Walk(a, d).base))
  {
    hide Add, Join;
    if a == [] || d <= DUST {
      assert a == [] ==> a + b == b;
      JoinAfterAdd(0.0, 0.0, NOTHING, Walk(b, d));
    } else {
      assert (a + b)[1..] == a[1..] + b;
      var take := if IsValid(a[0]) then Min(d, a[0].baseSize) else 0.0;
      var later := Walk(a[1..], d - take);
      WalkConcat(a[1..], b, d - take);
      JoinAfterAdd(take, a[0].price, later, Walk(b, d - take - later.base));
    }
  }

  /** The walk's units weighed by how far their prices lie from `w`. */
  function Offset(side: Side, levels: seq<Level>, d: real, w: real): real {
    if levels == [] || d <= DUST then 0.0
    else if !IsValid(levels[0]) then Offset(side, levels[1..], d, w)
    else
      var take := Min(d, levels[0].baseSize);
      take * (Rank(side, levels[0]) - w) + Offset(side, levels[1..], d - take, w)
  }

  lemma {:induction false} OffsetIsCost(side: Side, levels: seq<Level>, d: real, w: real)
    ensures Offset(side, levels, d, w) == Cost(side, Walk(levels, d).quote) - w * Walk(levels, d).base
  {
    if levels == [] || d <= DUST {
    } else {
      OffsetIsCost(side, levels[1..], if IsValid(levels[0]) then d - Min(d, levels[0].baseSize) else d, w);
    }
  }

  lemma {:induction false} OffsetAbove(side: Side, levels: seq<Level>, d: real, lo: real)
    requires forall l :: l in levels ==> IsValid(l) && lo <= Rank(side, l)
    ensures Offset(side, levels, d, lo) >= 0.0
  {
    if levels == [] || d <= DUST {
    } else {
      var take := Min(d, levels[0].baseSize);
      assert levels[0] in levels;
      OffsetAbove(side, levels[1..], d - take, lo);
      ProductNonNegative(take, Rank(side, levels[0]) - lo);
    }
  }

  lemma {:induction false} OffsetBelow(side: Side, levels: seq<Level>, d: real, hi: real)
    requires Normalized(levels, side)
    requires Walk(levels, d).worst.Some? ==> Cost(side, Walk(levels, d).worst.value) <= hi
    ensures Offset(side, levels, d, hi) <= 0.0
  {
    hide Walk, Cost;
    if levels == [] || d <= DUST {
    } else {
      var take := Min(d, levels[0].baseSize);
      NormalizedTail(side, levels);
      assert Walk(levels, d).worst.Some? by { WalkTakesFirst(levels, d); }
      PivotAgainstHead(side, levels, d, Cost(side, Walk(levels, d).worst.value));
      OffsetBelow(side, levels[1..], d - take, hi);
      ProductNonPositive(take, Rank(side, levels[0]) - hi);
    }
  }

  /** All prices met are at least `lo`, so their average is. */
  lemma WalkAveragesAtLeast(side: Side, levels: seq<Level>, d: real, lo: real)
    requires forall l :: l in levels ==> IsValid(l) && lo <= Rank(side, l)
    requires Walk(levels, d).base > 0.0
    ensures lo <= Cost(side, Walk(levels, d).quote / Walk(levels, d).base)
  {
    hide Walk, Offset, Cost;
    OffsetAbove(side, levels, d, lo);
    OffsetIsCost(side, levels, d, lo);
    AverageAtLeast(side, Walk(levels, d).quote, Walk(levels, d).base, lo);
  }

  /** No unit is dearer than the last level touched, so the average is not either. */
  lemma WalkAveragesAtMost(side: Side, levels: seq<Level>, d: real, hi: real)
    requires Normalized(levels, side)
    requires Walk(levels, d).base > 0.0
    requires Walk(levels, d).worst.Some? ==> Cost(side, Walk(levels, d).worst.value) <= hi
    ensures Cost(side, Walk(levels, d).quote / Walk(levels, d).base) <= hi
  {
    hide Walk, Cost;
    WalkCostsAtMost(side, levels, d, hi);
    AverageAtMost(side, Walk(levels, d).quote, Walk(levels, d).base, hi);
  }

  lemma WalkCostsAtMost(side: Side, levels: seq<Level>, d: real, hi: real)
    requires Normalized(levels, side)
    requires Walk(levels, d).worst.Some? ==> Cost(side, Walk(levels, d).worst.value) <= hi
    ensures Cost(side, Walk(levels, d).quote) - hi * Walk(levels, d).base <= 0.0
  {
    hide Walk, Offset, Cost;
    OffsetBelow(side, levels, d, hi);
    OffsetIsCost(side, levels, d, hi);
  }

  lemma AverageAtLeast(side: Side, q: real, b: real, lo: real)
    requires b > 0.0 && Cost(side, q) - lo * b >= 0.0
    ensures lo <= Cost(side, q / b)
  {
    DivideLe(lo, 1.0, Cost(side, q), b);
    assert Cost(side, q) / b == Cost(side, q / b);
  }

  lemma AverageAtMost(side: Side, q: real, b: real, hi: real)
    requires b > 0.0 && Cost(side, q) - hi * b <= 0.0
    ensures Cost(side, q / b) <= hi
  {
    DivideLe(Cost(side, q), b, hi, 1.0);
    assert Cost(side, q) / b == Cost(side, q / b);
  }

  /** Mixing in units that cost at least `w` cannot lower an average of at most `w`. */
  lemma MixWithDearer(side: Side, q: real, b: real, q': real, b': real, w: real)
    requires b > 0.0 && b' > 0.0
    requires Cost(side, q / b) <= w <= Cost(side, q' / b')
    ensures NoWorse(side, q / b, (q + q') / (b + b'))
  {
    hide Cost;
    var x, y := q / b, q' / b';
    CostOfQuotient(side, q, b);
    CostOfQuotient(side, q', b');
    ScaleLe(Cost(side, x), Cost(side, y), b');
    Distributes(Cost(side, x), b, b');
    CostOfSum(side, q, q');
    AverageAtLeast(side, q + q', b + b', Cost(side, x));
  }

  lemma CostOfQuotient(side: Side, q: real, b: real)
    requires b > 0.0
    ensures Cost(side, q / b) * b == Cost(side, q)
  {
    QuotientTimes(q, b);
  }

  lemma CostOfSum(side: Side, a: real, b: real)
    ensures Cost(side, a + b) == Cost(side, a) + Cost(side, b)
  {
  }

  lemma Distributes(k: real, a: real, b: real)
    ensures k * (a + b) == k * a + k * b
  {
  }

  /** A longer prefix fills at least as much and ends at a price that is no better. */
  lemma PrefixWalk(side: Side, levels: seq<Level>, m: nat, n: nat, d: real)
    requires Normalized(levels, side) && m <= n <= |levels| && d >= 0.0
    ensures var a, more := Walk(levels[..m], d), Walk(levels[m..n], d - Walk(levels[..m], d).base);
            && Walk(levels[..n], d) == Join(a, more)
            && a.base >= 0.0 && more.base >= 0.0
            && (a.worst.Some? && more.worst.Some? ==> NoWorse(side, a.worst.value, more.worst.value))
  {
    hide Walk, Cost, Depth;
    var a := Walk(levels[..m], d);
    WalkBase(levels[..m], d);
    WalkBase(levels[m..n], d - a.base);
    assert levels[..n] == levels[..m] + levels[m..n];
    WalkConcat(levels[..m], levels[m..n], d);
    WorstIsALevel(side, levels[..m], d);
    WorstIsALevel(side, levels[m..n], d - a.base);
  }

  /** On a sorted side the levels within the cap are the leading ones. */
  lemma CapKeepsPrefix(side: Side, levels: seq<Level>, cap: real)
    requires Normalized(levels, side)
    ensures Filter(levels, WithinCap(side, cap)) == levels[..Leading(levels, WithinCap(side, cap))]
    ensures forall i :: 0 <= i < |levels| ==>
              (i < Leading(levels, WithinCap(side, cap)) <==> Rank(side, levels[i]) <= Cost(side, cap) + DUST)
  {
    var n := Leading(levels, WithinCap(side, cap));
    forall i | n <= i < |levels|
      ensures !IsWithinCap(side, cap, levels[i])
    {
      assert Rank(side, levels[n]) <= Rank(side, levels[i]);
    }
    FilterIsPrefix(levels, WithinCap(side, cap), n);
  }

  lemma CapLoosens(side: Side, vwap: real, s1: real, s2: real)
    requires vwap > 0.0 && s1 <= s2
    ensures NoWorse(side, VwapCap(side, vwap, s1), VwapCap(side, vwap, s2))
    ensures NoWorse(side, vwap, VwapCap(side, vwap, s1))
  {
    var f1, f2 := Max(0.0, s1) / 10000.0, Max(0.0, s2) / 10000.0;
    ScaleLe(f1, f2, vwap);
    ScaleLe(0.0, f1, vwap);
    assert vwap * (1.0 + f1) == vwap + vwap * f1 && vwap * (1.0 + f2) == vwap + vwap * f2;
    assert vwap * (1.0 - f1) == vwap - vwap * f1 && vwap * (1.0 - f2) == vwap - vwap * f2;
  }

  /** The levels used by the second pass, as a length of the sorted side. */
  function UsedLevels(side: Side, desiredBase: real, book: Book, slippageBps: real): (n: nat)
    ensures n <= |SideLevels(side, book)|
  {
    var levels := SideLevels(side, book);
    var vwap := FillOf(levels, desiredBase).vwap;
    if vwap.None? then 0 else Leading(levels, WithinCap(side, VwapCap(side, vwap.value, slippageBps)))
  }

  /**
   With one valid level and a demand above dust, the capped levels are a non-empty prefix of the
   sorted side, and the choice is the fill of that prefix: it is never null.
   */
  lemma LimitChoiceUsesPrefix(side: Side, desiredBase: real, book: Book, slippageBps: real)
    requires desiredBase > DUST && SideLevels(side, book) != []
    ensures 0 < UsedLevels(side, desiredBase, book, slippageBps)
    ensures var c := ChooseLimitPrice(side, desiredBase, book, slippageBps);
            var t := Walk(SideLevels(side, book)[..UsedLevels(side, desiredBase, book, slippageBps)], desiredBase);
            && t.base > 0.0 && t.worst.Some?
            && c == LimitChoice(t.worst, t.base, Some(t.quote / t.base), t.worst)
  {
    var levels := SideLevels(side, book);
    SideLevelsNormalized(side, book);
    RawFill(side, levels, desiredBase);
    var vwap := FillOf(levels, desiredBase).vwap.value;
    var cap := VwapCap(side, vwap, slippageBps);
    CapLoosens(side, vwap, slippageBps, slippageBps);
    CapKeepsPrefix(side, levels, cap);
    var n := Leading(levels, WithinCap(side, cap));
    assert 0 < n;
    assert levels[..n][0] == levels[0] && levels[0] in levels;
    WalkBase(levels[..n], desiredBase);
    WalkTakesFirst(levels[..n], desiredBase);
  }

  /**
   The limit in the book's own numbers. With `average` the uncapped quote over base, and `bound` the budget above it
   for a BUY and below it for a SELL, the second pass uses exactly the levels priced within the bound, and the
   choice is what filling those levels gives.
   */
  lemma LimitChoiceMeaning(side: Side, desiredBase: real, book: Book, slippageBps: real, average: real, bound: real)
    requires desiredBase > DUST && SideLevels(side, book) != []
    requires var all := Walk(SideLevels(side, book), desiredBase);
             all.base > 0.0 && average == all.quote / all.base
    requires var budget := (if slippageBps > 0.0 then slippageBps else 0.0) / 10000.0;
             bound == if side == Buy then average * (1.0 + budget) else average * (1.0 - budget)
    ensures var levels, n := SideLevels(side, book), UsedLevels(side, desiredBase, book, slippageBps);
            var used := Walk(levels[..n], desiredBase);
            && (forall i :: 0 <= i < |levels| ==>
                  (i < n <==> if side == Buy then levels[i].price <= bound + DUST
                              else levels[i].price >= bound - DUST))
            && used.base > 0.0
            && ChooseLimitPrice(side, desiredBase, book, slippageBps)
            == LimitChoice(used.worst, used.base, Some(used.quote / used.base), used.worst)
  {
    hide Walk, ChooseLimitPrice, SideLevels, VwapCap, FillOf;
    var levels := SideLevels(side, book);
    SideLevelsNormalized(side, book);
    RawFill(side, levels, desiredBase);
    LimitChoiceUsesPrefix(side, desiredBase, book, slippageBps);
    CapIsBudget(side, average, slippageBps);
    CapKeepsPrefix(side, levels, bound);
  }

  lemma CapIsBudget(side: Side, vwap: real, slippageBps: real)
    ensures var budget := (if slippageBps > 0.0 then slippageBps else 0.0) / 10000.0;
            VwapCap(side, vwap, slippageBps)
            == if side == Buy then vwap * (1.0 + budget) else vwap * (1.0 - budget)
  {
  }

  lemma SideLevelsNormalized(side: Side, book: Book)
    ensures Normalized(SideLevels(side, book), side)
  {
    NormalizeLevelsMeaning(book.asks, Buy);
    NormalizeLevelsMeaning(book.bids, Sell);
  }

  lemma WalkTakesFirst(levels: seq<Level>, d: real)
    requires levels != [] && IsValid(levels[0]) && d > DUST
    ensures Walk(levels, d).base > 0.0 && Walk(levels, d).worst.Some?
  {
    var take := Min(d, levels[0].baseSize);
    WalkBase(levels[1..], d - take);
  }

  /** The first pass always fills something, at an average no better than the best price. */
  lemma RawFill(side: Side, levels: seq<Level>, d: real)
    requires Normalized(levels, side) && levels != [] && d > DUST
    ensures var t := Walk(levels, d);
            && t.base > 0.0 && t.quote > 0.0 && t.worst.Some?
            && FillOf(levels, d) == Fill(t.base, Some(t.quote / t.base), t.worst)
            && t.quote / t.base > 0.0
            && Rank(side, levels[0]) <= Cost(side, t.quote / t.base)
  {
    assert levels[0] in levels;
    WalkTakesFirst(levels, d);
    WalkBase(levels, d);
    var t, k := Walk(levels, d), Rank(side, levels[0]);
    WalkAveragesAtLeast(side, levels, d, k);
    QuotientSign(t.quote, t.base);
  }

  /** The average over a prefix is no worse than the average over everything, nor than its own worst price. */
  lemma CappedVwapNoWorse(side: Side, levels: seq<Level>, n: nat, d: real)
    requires Normalized(levels, side) && 0 < n <= |levels| && d > DUST
    ensures var t, raw := Walk(levels[..n], d), Walk(levels, d);
            && 0.0 < t.base <= raw.base && t.worst.Some?
            && NoWorse(side, t.quote / t.base, raw.quote / raw.base)
            && NoWorse(side, t.quote / t.base, t.worst.value)
  {
    hide Walk, Cost;
    var t, raw := Walk(levels[..n], d), Walk(levels, d);
    assert levels[..n][0] == levels[0] && levels[0] in levels;
    WalkTakesFirst(levels[..n], d);
    WalkBase(levels[..n], d);
    assert levels[..|levels|] == levels;
    PrefixWalk(side, levels, n, |levels|, d);
    var more := Walk(levels[n..], d - t.base);
    WalkBase(levels[n..], d - t.base);
    WalkAveragesAtMost(side, levels[..n], d, Cost(side, t.worst.value));
    if more.base > 0.0 {
      var w := Rank(side, levels[n]);
      WorstIsALevel(side, levels[..n], d);
      WalkAveragesAtLeast(side, levels[n..], d - t.base, w);
      MixWithDearer(side, t.quote, t.base, more.quote, more.base, w);
    }
  }

  /** The limit respects the cap, and the expected VWAP is no worse than the uncapped one. */
  lemma LimitChoiceRespectsCap(side: Side, desiredBase: real, book: Book, slippageBps: real)
    requires desiredBase > DUST && SideLevels(side, book) != []
    ensures var raw := FillOf(SideLevels(side, book), desiredBase);
            var c := ChooseLimitPrice(side, desiredBase, book, slippageBps);
            && raw.vwap.Some? && c.limitPrice.Some? && c.expectedVwap.Some?
            && Cost(side, c.limitPrice.value) <= Cost(side, VwapCap(side, raw.vwap.value, slippageBps)) + DUST
            && NoWorse(side, c.expectedVwap.value, raw.vwap.value)
            && NoWorse(side, c.expectedVwap.value, c.limitPrice.value)
            && 0.0 < c.fillableBase <= raw.fillableBase
  {
    var levels := SideLevels(side, book);
    var n := UsedLevels(side, desiredBase, book, slippageBps);
    SideLevelsNormalized(side, book);
    RawFill(side, levels, desiredBase);
    LimitChoiceUsesPrefix(side, desiredBase, book, slippageBps);
    CapKeepsPrefix(side, levels, VwapCap(side, FillOf(levels, desiredBase).vwap.value, slippageBps));
    WorstIsALevel(side, levels[..n], desiredBase);
    CappedVwapNoWorse(side, levels, n, desiredBase);
  }

  lemma WiderBudgetUsesMore(side: Side, desiredBase: real, book: Book, s1: real, s2: real)
    requires s1 <= s2 && desiredBase > DUST && SideLevels(side, book) != []
    ensures UsedLevels(side, desiredBase, book, s1) <= UsedLevels(side, desiredBase, book, s2)
  {
    var levels := SideLevels(side, book);
    SideLevelsNormalized(side, book);
    RawFill(side, levels, desiredBase);
    var vwap := FillOf(levels, desiredBase).vwap.value;
    CapLoosens(side, vwap, s1, s2);
    CapKeepsPrefix(side, levels, VwapCap(side, vwap, s1));
    CapKeepsPrefix(side, levels, VwapCap(side, vwap, s2));
    var n1, n2 := UsedLevels(side, desiredBase, book, s1), UsedLevels(side, desiredBase, book, s2);
    assert n1 > 0 ==> Rank(side, levels[n1 - 1]) <= Cost(side, VwapCap(side, vwap, s2)) + DUST;
  }

  /** A wider budget never lowers the fillable base and never makes the limit less aggressive. */
  lemma WiderBudgetFillsMore(side: Side, desiredBase: real, book: Book, s1: real, s2: real)
    requires s1 <= s2
    ensures var c1, c2 := ChooseLimitPrice(side, desiredBase, book, s1), ChooseLimitPrice(side, desiredBase, book, s2);
            && c1.fillableBase <= c2.fillableBase
            && (c1.limitPrice.Some? <==> c2.limitPrice.Some?)
            && (c1.limitPrice.Some? ==> NoWorse(side, c1.limitPrice.value, c2.limitPrice.value))
  {
    var levels := SideLevels(side, book);
    if desiredBase <= DUST {
      NothingBelowDust(side, desiredBase, book, s1);
      NothingBelowDust(side, desiredBase, book, s2);
    } else if levels != [] {
      SideLevelsNormalized(side, book);
      LimitChoiceUsesPrefix(side, desiredBase, book, s1);
      LimitChoiceUsesPrefix(side, desiredBase, book, s2);
      WiderBudgetUsesMore(side, desiredBase, book, s1, s2);
      LongerPrefixFillsMore(side, levels, UsedLevels(side, desiredBase, book, s1),
                            UsedLevels(side, desiredBase, book, s2), desiredBase);
    }
  }

  lemma LongerPrefixFillsMore(side: Side, levels: seq<Level>, m: nat, n: nat, d: real)
    requires Normalized(levels, side) && m <= n <= |levels| && d >= 0.0
    ensures var a, b := Walk(levels[..m], d), Walk(levels[..n], d);
            && a.base <= b.base
            && (a.worst.Some? ==> b.worst.Some? && NoWorse(side, a.worst.value, b.worst.value))
  {
    hide Walk, Join;
    PrefixWalk(side, levels, m, n, d);
    JoinGrows(side, Walk(levels[..m], d), Walk(levels[m..n], d - Walk(levels[..m], d).base), Walk(levels[..n], d));
  }

  lemma JoinGrows(side: Side, a: Totals, more: Totals, b: Totals)
    requires b == Join(a, more) && more.base >= 0.0
    requires a.worst.Some? && more.worst.Some? ==> NoWorse(side, a.worst.value, more.worst.value)
    ensures a.base <= b.base
    ensures a.worst.Some? ==> b.worst.Some? && NoWorse(side, a.worst.value, b.worst.value)
  {
  }

  /** A limit comes back exactly when the demand is above dust and the side holds a valid level. */
  lemma LimitExistsIff(side: Side, desiredBase: real, book: Book, slippageBps: real)
    ensures ChooseLimitPrice(side, desiredBase, book, slippageBps).limitPrice.Some?
       <==> desiredBase > DUST && exists l :: l in (if side.Buy? then book.asks else book.bids) && IsValid(l)
  {
    NormalizeLevelsMeaning(if side.Buy? then book.asks else book.bids, side);
    if desiredBase <= DUST {
      NothingBelowDust(side, desiredBase, book, slippageBps);
    } else if SideLevels(side, book) != [] {
      LimitChoiceUsesPrefix(side, desiredBase, book, slippageBps);
    }
  }

  lemma NothingBelowDust(side: Side, desiredBase: real, book: Book, slippageBps: real)
    requires desiredBase <= DUST
    ensures ChooseLimitPrice(side, desiredBase, book, slippageBps) == NO_LIMIT
  {
    assert Walk(SideLevels(side, book), desiredBase) == NOTHING;
  }
}
