/** The depth preflight: a second, independent walker over the same book (src/execution/depthCheck.ts). */
module DepthCheck {
  import opened Basics
  import opened Sorting
  import opened DepthPricing

  datatype Availability = Availability(fillableBase: real, hasDepth: bool, levelsWalked: nat, noOrderbook: bool)

  const NO_ORDERBOOK := Availability(0.0, false, 0, true)

  /** The best `maxLevels` valid levels of one side. */
  function BestLevels(levels: seq<Level>, side: Side, maxLevels: real): seq<Level> {
    var sorted := NormalizeLevels(levels, side);
    if |sorted| <= FloorAtLeastOne(maxLevels) then sorted else sorted[..FloorAtLeastOne(maxLevels)]
  }

  /** The side of the book the check reads; `None` when the book or that side is missing. */
  function SourceLevels(book: Option<Book>, side: Side): seq<Level> {
    if book.None? then [] else if side.Buy? then book.value.asks else book.value.bids
  }

  lemma BestLevelsNormalized(levels: seq<Level>, side: Side, maxLevels: real)
    ensures Normalized(BestLevels(levels, side, maxLevels), side)
    ensures |BestLevels(levels, side, maxLevels)| <= FloorAtLeastOne(maxLevels)
    ensures BestLevels(levels, side, maxLevels) == [] <==> forall l :: l in levels ==> !IsValid(l)
  {
    NormalizeLevelsMeaning(levels, side);
  }

  /** How many levels a walk touches before the demand is met. */
  function Touched(levels: seq<Level>, remaining: real): nat {
    if levels == [] || remaining <= DUST then 0
    else if !IsValid(levels[0]) then Touched(levels[1..], remaining)
    else 1 + Touched(levels[1..], remaining - Min(remaining, levels[0].baseSize))
  }

  lemma TouchedStep(levels: seq<Level>, d: real)
    ensures levels == [] || d <= DUST ==> Touched(levels, d) == 0
    ensures levels != [] && d > DUST && IsValid(levels[0]) ==>
              Touched(levels, d) == 1 + Touched(levels[1..], d - Min(d, levels[0].baseSize))
  {
  }

  /**
   The check's own loop. It reports an error exactly when no valid level exists; otherwise its
   fillable base is what `computeFill` reports on the best levels.
   */
  method EvaluateDepthAvailability(side: Side, requiredBase: real, minRequiredBase: real, maxLevels: real,
                                   book: Option<Book>) returns (r: Availability)
    ensures r.noOrderbook <==> forall l :: l in SourceLevels(book, side) ==> !IsValid(l)
    ensures r.noOrderbook ==> r == NO_ORDERBOOK
    ensures !r.noOrderbook ==>
              var levels := BestLevels(SourceLevels(book, side), side, maxLevels);
              && r.fillableBase == FillOf(levels, requiredBase).fillableBase
              && r.levelsWalked == Touched(levels, Max(0.0, requiredBase))
              && r.levelsWalked <= FloorAtLeastOne(maxLevels)
              && (r.hasDepth <==> r.fillableBase + DUST >= Max(0.0, minRequiredBase))
  {
    hide Walk, FillOf, BestLevels, FloorAtLeastOne, Touched, Rank;
    var levels := BestLevels(SourceLevels(book, side), side, maxLevels);
    BestLevelsNormalized(SourceLevels(book, side), side, maxLevels);
    if levels == [] {
      return NO_ORDERBOOK;
    }
    var demand := Max(0.0, requiredBase);
    var remaining := demand;
    var fillableBase := 0.0;
    var levelsWalked := 0;
    var i := 0;
    while i < |levels| && remaining > DUST
      invariant 0 <= i <= |levels|
      invariant remaining >= 0.0
      invariant levelsWalked <= i
      invariant fillableBase + Walk(levels[i..], remaining).base == Walk(levels, demand).base
      invariant levelsWalked + Touched(levels[i..], remaining) == Touched(levels, demand)
    {
      assert levels[i] in levels;
      assert levels[i..][1..] == levels[i + 1..];
      WalkBaseStep(levels[i..], remaining);
      TouchedStep(levels[i..], remaining);
      var takeBase := Min(remaining, levels[i].baseSize);
      fillableBase := fillableBase + takeBase;
      remaining := remaining - takeBase;
      levelsWalked := levelsWalked + 1;
      i := i + 1;
    }
    WalkBaseStep(levels[i..], remaining);
    TouchedStep(levels[i..], remaining);
    FillIsWalk(levels, requiredBase);
    r := Availability(fillableBase, fillableBase + DUST >= Max(0.0, minRequiredBase), levelsWalked, false);
  }

  lemma FillIsWalk(levels: seq<Level>, d: real)
    ensures FillOf(levels, d).fillableBase == Walk(levels, Max(0.0, d)).base
  {
    if d > 0.0 {
      WalkBase(levels, d);
    }
  }

  /** `k` levels can meet a demand when their total size reaches it up to dust. */
  ghost predicate Covers(levels: seq<Level>, k: nat, d: real) {
    k <= |levels| && Depth(levels[..k]) + DUST >= d
  }

  /** The walk touches no more levels than it has to: no shorter prefix covers the demand. */
  lemma {:induction false} TouchedIsLeast(side: Side, levels: seq<Level>, d: real)
    requires Normalized(levels, side)
    ensures Touched(levels, d) <= |levels|
    ensures Touched(levels, d) < |levels| ==> Covers(levels, Touched(levels, d), d)
    ensures forall k :: 0 <= k < Touched(levels, d) ==> !Covers(levels, k, d)
  {
    if levels == [] || d <= DUST {
    } else {
      NormalizedTail(side, levels);
      var size, rest := levels[0].baseSize, levels[1..];
      var left := d - Min(d, size);
      TouchedIsLeast(side, rest, left);
      var n := Touched(rest, left);
      PrefixDepth(levels, n + 1);
      forall k | 0 <= k < Touched(levels, d)
        ensures !Covers(levels, k, d)
      {
        if k > 0 {
          PrefixDepth(levels, k);
          assert !Covers(rest, k - 1, left);
        }
      }
    }
  }

  lemma PrefixDepth(levels: seq<Level>, k: nat)
    requires 0 < k <= |levels| && IsValid(levels[0])
    ensures Depth(levels[..k]) == levels[0].baseSize + Depth(levels[1..][..k - 1])
  {
    assert levels[..k][1..] == levels[1..][..k - 1];
  }

  /**
   The two walkers agree: on the same book the check reports the base that the first pass of the limit
   choice fills if and only if its level limit cuts off no level the demand needs.
   */
  lemma WalkersAgree(side: Side, requiredBase: real, maxLevels: real, book: Book)
    ensures var all := SideLevels(side, book);
            var best := BestLevels(SourceLevels(Some(book), side), side, maxLevels);
            && best == all[..|best|]
            && FillOf(best, requiredBase).fillableBase <= FillOf(all, requiredBase).fillableBase
            && (|all| <= FloorAtLeastOne(maxLevels) ==> best == all)
            && (FillOf(best, requiredBase).fillableBase == FillOf(all, requiredBase).fillableBase
                <==> Touched(all, requiredBase) <= |best|)
  {
    hide Walk;
    var all := SideLevels(side, book);
    var best := BestLevels(SourceLevels(Some(book), side), side, maxLevels);
    var n := |best|;
    assert best == all[..n];
    SideLevelsNormalized(side, book);
    FirstLevelsFillLess(side, all, n, requiredBase);
    FillIsWalk(best, requiredBase);
    FillIsWalk(all, requiredBase);
    if requiredBase > 0.0 {
      if Touched(all, requiredBase) <= n {
        EnoughTouched(side, all, n, requiredBase);
      } else {
        CutOffFillsLess(side, all, n, requiredBase);
      }
    }
  }

  /** Cutting off a level the demand needs fills strictly less. */
  lemma {:induction false} CutOffFillsLess(side: Side, levels: seq<Level>, n: nat, d: real)
    requires Normalized(levels, side) && n < Touched(levels, d) && n <= |levels|
    ensures Walk(levels[..n], d).base < Walk(levels, d).base
  {
    NormalizedTail(side, levels);
    var take := Min(d, levels[0].baseSize);
    WalkBaseStep(levels, d);
    if n == 0 {
      WalkTakesFirst(levels, d);
    } else {
      assert levels[..n][1..] == levels[1..][..n - 1];
      WalkBaseStep(levels[..n], d);
      CutOffFillsLess(side, levels[1..], n - 1, d - take);
    }
  }

  lemma FirstLevelsFillLess(side: Side, levels: seq<Level>, n: nat, d: real)
    requires Normalized(levels, side) && n <= |levels|
    ensures FillOf(levels[..n], d).fillableBase <= FillOf(levels, d).fillableBase
  {
    hide Walk, FillOf;
    FillIsWalk(levels[..n], d);
    FillIsWalk(levels, d);
    LongerPrefixFillsMore(side, levels, n, |levels|, Max(0.0, d));
    assert levels[..|levels|] == levels;
  }

  /** Once the touched levels are kept, the rest of the side adds nothing. */
  lemma {:induction false} EnoughTouched(side: Side, levels: seq<Level>, n: nat, d: real)
    requires Normalized(levels, side) && Touched(levels, d) <= n <= |levels|
    ensures Walk(levels[..n], d).base == Walk(levels, d).base
  {
    if levels == [] || d <= DUST {
    } else {
      NormalizedTail(side, levels);
      var left := d - Min(d, levels[0].baseSize);
      assert levels[..n][1..] == levels[1..][..n - 1];
      EnoughTouched(side, levels[1..], n - 1, left);
    }
  }
}
