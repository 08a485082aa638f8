/**
 Nearest market snapshot (src/analytics/feedbackDb.ts) and the widening search that backfills
 missing horizons (src/analytics/feedbackEngine.ts).
 */
module SnapshotLookup {
  import opened Basics

  /** Snapshots further than this from their target are not used (one hour). */
  const MAX_SNAP_DISTANCE_MS := 3600000

  datatype Row = Row(pairKey: string, ts: int, midPrice: Option<real>)

  function Distance(a: int, b: int): nat {
    if a >= b then a - b else b - a
  }

  /** A row of the pair, under any of its aliases, with `ts BETWEEN lo AND hi`. */
  predicate Matches(keys: set<string>, lo: int, hi: int, r: Row) {
    r.pairKey in keys && lo <= r.ts <= hi
  }

  // ---------------------------------------------------------------- the two queries

  /** A possible answer to `ORDER BY ts DESC LIMIT 1`; the database may choose among equal timestamps. */
  ghost predicate IsLatest(rows: seq<Row>, keys: set<string>, lo: int, hi: int, r: Option<Row>) {
    match r
    case None => forall x :: x in rows ==> !Matches(keys, lo, hi, x)
    case Some(b) =>
      b in rows && Matches(keys, lo, hi, b) && forall x :: x in rows && Matches(keys, lo, hi, x) ==> x.ts <= b.ts
  }

  /** A possible answer to `ORDER BY ts ASC LIMIT 1`. */
  ghost predicate IsEarliest(rows: seq<Row>, keys: set<string>, lo: int, hi: int, r: Option<Row>) {
    match r
    case None => forall x :: x in rows ==> !Matches(keys, lo, hi, x)
    case Some(a) =>
      a in rows && Matches(keys, lo, hi, a) && forall x :: x in rows && Matches(keys, lo, hi, x) ==> a.ts <= x.ts
  }

  function Latest(rows: seq<Row>, keys: set<string>, lo: int, hi: int): (r: Option<Row>)
    ensures IsLatest(rows, keys, lo, hi, r)
  {
    if rows == [] then None
    else
      var later := Latest(rows[1..], keys, lo, hi);
      assert forall x :: x in rows ==> x == rows[0] || x in rows[1..];
      if Matches(keys, lo, hi, rows[0]) && (later.None? || rows[0].ts >= later.value.ts) then Some(rows[0]) else later
  }

  function Earliest(rows: seq<Row>, keys: set<string>, lo: int, hi: int): (r: Option<Row>)
    ensures IsEarliest(rows, keys, lo, hi, r)
  {
    if rows == [] then None
    else
      var later := Earliest(rows[1..], keys, lo, hi);
      assert forall x :: x in rows ==> x == rows[0] || x in rows[1..];
      if Matches(keys, lo, hi, rows[0]) && (later.None? || rows[0].ts <= later.value.ts) then Some(rows[0]) else later
  }

  function Closer(before: Option<Row>, after: Option<Row>, ts: int): Option<Row> {
    if before.None? then after
    else if after.None? then before
    else if Distance(before.value.ts, ts) <= Distance(after.value.ts, ts) then before else after
  }

  function GetSnapshotNear(rows: seq<Row>, keys: set<string>, ts: int, toleranceMs: int): Option<Row> {
    Closer(Latest(rows, keys, ts - toleranceMs, ts), Earliest(rows, keys, ts, ts + toleranceMs), ts)
  }

  /** Every answer the lookup may give, over all choices the database has among equal timestamps. */
  ghost predicate MayAnswer(rows: seq<Row>, keys: set<string>, ts: int, toleranceMs: int, r: Option<Row>) {
    exists before, after ::
      && IsLatest(rows, keys, ts - toleranceMs, ts, before)
      && IsEarliest(rows, keys, ts, ts + toleranceMs, after)
      && r == Closer(before, after, ts)
  }

  lemma LookupMayAnswer(rows: seq<Row>, keys: set<string>, ts: int, toleranceMs: int)
    ensures MayAnswer(rows, keys, ts, toleranceMs, GetSnapshotNear(rows, keys, ts, toleranceMs))
  {
    assert IsLatest(rows, keys, ts - toleranceMs, ts, Latest(rows, keys, ts - toleranceMs, ts));
  }

  // ---------------------------------------------------------------- what the lookup means

  predicate Within(keys: set<string>, ts: int, toleranceMs: int, r: Row) {
    r.pairKey in keys && Distance(r.ts, ts) <= toleranceMs
  }

  /** No row within tolerance is nearer, and among equally near ones this is on the earlier side. */
  ghost predicate IsNearest(rows: seq<Row>, keys: set<string>, ts: int, toleranceMs: int, r: Row) {
    && r in rows && Within(keys, ts, toleranceMs, r)
    && forall x :: x in rows && Within(keys, ts, toleranceMs, x) ==>
         Distance(r.ts, ts) < Distance(x.ts, ts) || (Distance(r.ts, ts) == Distance(x.ts, ts) && r.ts <= x.ts)
  }

  ghost predicate NothingNear(rows: seq<Row>, keys: set<string>, ts: int, toleranceMs: int) {
    forall x :: x in rows ==> !Within(keys, ts, toleranceMs, x)
  }

  /**
   The lookup answers a nearest row, the earlier of two equally near ones, and nothing exactly when no
   row lies within tolerance; and every such row is an answer the database may give.
   */
  lemma LookupMeaning(rows: seq<Row>, keys: set<string>, ts: int, toleranceMs: int, r: Option<Row>)
    ensures MayAnswer(rows, keys, ts, toleranceMs, r)
       <==> if r.None? then NothingNear(rows, keys, ts, toleranceMs)
         else IsNearest(rows, keys, ts, toleranceMs, r.value)
  {
    SplitAround(keys, ts, toleranceMs);
    if MayAnswer(rows, keys, ts, toleranceMs, r) {
      var before, after :| IsLatest(rows, keys, ts - toleranceMs, ts, before)
                           && IsEarliest(rows, keys, ts, ts + toleranceMs, after) && r == Closer(before, after, ts);
      CloserIsNearest(rows, keys, ts, toleranceMs, before, after);
    } else if r.None? {
      LookupMayAnswer(rows, keys, ts, toleranceMs);
      var before, after := Latest(rows, keys, ts - toleranceMs, ts), Earliest(rows, keys, ts, ts + toleranceMs);
      CloserIsNearest(rows, keys, ts, toleranceMs, before, after);
    } else if IsNearest(rows, keys, ts, toleranceMs, r.value) {
      NearestMayBeAnswered(rows, keys, ts, toleranceMs, r.value);
    }
  }

  lemma SplitAround(keys: set<string>, ts: int, toleranceMs: int)
    ensures forall x :: Within(keys, ts, toleranceMs, x)
                    <==> Matches(keys, ts - toleranceMs, ts, x) || Matches(keys, ts, ts + toleranceMs, x)
  {
  }

  lemma CloserIsNearest(rows: seq<Row>, keys: set<string>, ts: int, toleranceMs: int, before: Option<Row>,
                        after: Option<Row>)
    requires IsLatest(rows, keys, ts - toleranceMs, ts, before) && IsEarliest(rows, keys, ts, ts + toleranceMs, after)
    ensures var r := Closer(before, after, ts);
            if r.None? then NothingNear(rows, keys, ts, toleranceMs)
            else IsNearest(rows, keys, ts, toleranceMs, r.value)
  {
    SplitAround(keys, ts, toleranceMs);
  }

  lemma NearestMayBeAnswered(rows: seq<Row>, keys: set<string>, ts: int, toleranceMs: int, r: Row)
    requires IsNearest(rows, keys, ts, toleranceMs, r)
    ensures MayAnswer(rows, keys, ts, toleranceMs, Some(r))
  {
    SplitAround(keys, ts, toleranceMs);
    var before := if r.ts <= ts then Some(r) else Latest(rows, keys, ts - toleranceMs, ts);
    var after := if r.ts <= ts then Earliest(rows, keys, ts, ts + toleranceMs) else Some(r);
    assert IsLatest(rows, keys, ts - toleranceMs, ts, before);
    assert IsEarliest(rows, keys, ts, ts + toleranceMs, after);
    assert Closer(before, after, ts) == Some(r);
  }

  // ---------------------------------------------------------------- the widening search

  function UsableMid(r: Option<Row>): Option<real> {
    if r.Some? && r.value.midPrice.Some? && r.value.midPrice.value > 0.0 then r.value.midPrice else None
  }

  /** The loop over the answers to successively wider lookups: the first usable one near enough wins. */
  function FirstUsable(answers: seq<Option<Row>>, target: int): Option<real> {
    if answers == [] then None
    else if UsableMid(answers[0]).Some? && Distance(answers[0].value.ts, target) <= MAX_SNAP_DISTANCE_MS
    then UsableMid(answers[0])
    else FirstUsable(answers[1..], target)
  }

  function Lookups(rows: seq<Row>, keys: set<string>, target: int, tolerances: seq<int>): seq<Option<Row>> {
    seq(|tolerances|, i requires 0 <= i < |tolerances| => GetSnapshotNear(rows, keys, target, tolerances[i]))
  }

  method WideningMid(rows: seq<Row>, keys: set<string>, target: int, tolerances: seq<int>) returns (mid: Option<real>)
    ensures mid == FirstUsable(Lookups(rows, keys, target, tolerances), target)
  {
    hide GetSnapshotNear;
    mid := None;
    ghost var answers := Lookups(rows, keys, target, tolerances);
    for i := 0 to |tolerances|
      invariant FirstUsable(answers[i..], target) == FirstUsable(answers, target)
    {
      assert answers[i..][1..] == answers[i + 1..];
      var snap := GetSnapshotNear(rows, keys, target, tolerances[i]);
      if UsableMid(snap).Some? && Distance(snap.value.ts, target) <= MAX_SNAP_DISTANCE_MS {
        return UsableMid(snap);
      }
    }
  }

  /** A snapshot with a positive mid price, no more than an hour before or after the target. */
  predicate HasMidNear(r: Option<Row>, target: int) {
    match r
    case None => false
    case Some(row) => match row.midPrice
      case None => false
      case Some(mid) => mid > 0.0 && -3600000 <= row.ts - target <= 3600000
  }

  /** The loop gives the mid price of the first snapshot that has one near the target, and none when no answer does. */
  lemma {:induction false} FirstUsableMeaning(answers: seq<Option<Row>>, target: int)
    ensures FirstUsable(answers, target) == None <==> forall i :: 0 <= i < |answers| ==> !HasMidNear(answers[i], target)
    ensures FirstUsable(answers, target) != None ==>
              exists i :: 0 <= i < |answers| && HasMidNear(answers[i], target)
                          && FirstUsable(answers, target) == answers[i].value.midPrice
                          && forall k :: 0 <= k < i ==> !HasMidNear(answers[k], target)
  {
    if answers == [] {
    } else {
      FirstUsableMeaning(answers[1..], target);
      assert forall i :: 0 < i < |answers| ==> answers[i] == answers[1..][i - 1];
      if !HasMidNear(answers[0], target) && FirstUsable(answers[1..], target) != None {
        var i :| 0 <= i < |answers[1..]| && HasMidNear(answers[1..][i], target)
                 && FirstUsable(answers[1..], target) == answers[1..][i].value.midPrice
                 && forall k :: 0 <= k < i ==> !HasMidNear(answers[1..][k], target);
        assert HasMidNear(answers[i + 1], target);
      }
    }
  }

  ghost predicate Widening(tolerances: seq<int>) {
    && tolerances != []
    && (forall i, j :: 0 <= i <= j < |tolerances| ==> tolerances[i] <= tolerances[j])
    && tolerances[|tolerances| - 1] <= MAX_SNAP_DISTANCE_MS
  }

  ghost predicate MayAnswerAll(rows: seq<Row>, keys: set<string>, target: int, tolerances: seq<int>,
                               answers: seq<Option<Row>>) {
    |answers| == |tolerances| && forall i :: 0 <= i < |answers| ==>
        MayAnswer(rows, keys, target, tolerances[i], answers[i])
  }

  /** Whatever the database chooses among equal timestamps, the loop finds what one widest lookup finds. */
  ghost predicate LoopIsOneLookup(rows: seq<Row>, keys: set<string>, target: int, tolerances: seq<int>)
    requires Widening(tolerances)
  {
    forall answers, r ::
      MayAnswerAll(rows, keys, target, tolerances, answers)
        && MayAnswer(rows, keys, target, tolerances[|tolerances| - 1], r) ==>
        FirstUsable(answers, target) == UsableMid(r)
  }

  /** Equally near rows carry the same usable mid price. */
  ghost predicate TiesAgree(rows: seq<Row>, keys: set<string>, target: int, toleranceMs: int) {
    forall x, y :: IsNearest(rows, keys, target, toleranceMs, x) && IsNearest(rows, keys, target, toleranceMs, y) ==>
      UsableMid(Some(x)) == UsableMid(Some(y))
  }

  /** A nearest row within a narrow tolerance is a nearest row within every wider one. */
  lemma NearestStaysNearest(rows: seq<Row>, keys: set<string>, ts: int, narrow: int, wide: int, r: Row)
    requires narrow <= wide && IsNearest(rows, keys, ts, narrow, r)
    ensures IsNearest(rows, keys, ts, wide, r)
  {
  }

  lemma {:induction false} LoopFindsNearest(answers: seq<Option<Row>>, target: int, mid: Option<real>)
    requires answers != []
    requires forall i :: 0 <= i < |answers| && answers[i].Some? ==>
               UsableMid(answers[i]) == mid && Distance(answers[i].value.ts, target) <= MAX_SNAP_DISTANCE_MS
    requires answers[|answers| - 1].None? ==> mid.None?
    ensures FirstUsable(answers, target) == mid
  {
    if |answers| > 1 {
      LoopFindsNearest(answers[1..], target, mid);
    } else {
      assert answers[1..] == [];
    }
  }

  /**
   The widening loop gives the same mid price as one lookup at the widest tolerance, for every choice
   of the database, if and only if equally near rows agree on it.
   */
  lemma WideningIsOneLookupIff(rows: seq<Row>, keys: set<string>, target: int, tolerances: seq<int>)
    requires Widening(tolerances)
    ensures LoopIsOneLookup(rows, keys, target, tolerances)
       <==> TiesAgree(rows, keys, target, tolerances[|tolerances| - 1])
  {
    var n, widest := |tolerances|, tolerances[|tolerances| - 1];
    if TiesAgree(rows, keys, target, widest) {
      forall answers, r
        | MayAnswerAll(rows, keys, target, tolerances, answers) && MayAnswer(rows, keys, target, widest, r)
        ensures FirstUsable(answers, target) == UsableMid(r)
      {
        AgreeingTiesSuffice(rows, keys, target, tolerances, answers, r);
      }
    }
    if LoopIsOneLookup(rows, keys, target, tolerances) {
      forall x, y | IsNearest(rows, keys, target, widest, x) && IsNearest(rows, keys, target, widest, y)
        ensures UsableMid(Some(x)) == UsableMid(Some(y))
      {
        var answers := AlwaysAnswer(rows, keys, target, tolerances, x);
        LookupMeaning(rows, keys, target, widest, Some(y));
      }
    }
  }

  lemma AgreeingTiesSuffice(rows: seq<Row>, keys: set<string>, target: int, tolerances: seq<int>,
                            answers: seq<Option<Row>>, r: Option<Row>)
    requires Widening(tolerances) && TiesAgree(rows, keys, target, tolerances[|tolerances| - 1])
    requires MayAnswerAll(rows, keys, target, tolerances, answers)
    requires MayAnswer(rows, keys, target, tolerances[|tolerances| - 1], r)
    ensures FirstUsable(answers, target) == UsableMid(r)
  {
    hide MayAnswer, UsableMid, Within;
    var n, widest := |tolerances|, tolerances[|tolerances| - 1];
    LookupMeaning(rows, keys, target, widest, r);
    forall i | 0 <= i < n && answers[i].Some?
      ensures UsableMid(answers[i]) == UsableMid(r) && Distance(answers[i].value.ts, target) <= MAX_SNAP_DISTANCE_MS
    {
      var x := answers[i].value;
      LookupMeaning(rows, keys, target, tolerances[i], answers[i]);
      NearestStaysNearest(rows, keys, target, tolerances[i], widest, x);
      NearIsClose(rows, keys, target, widest, x);
      assert r.Some? && IsNearest(rows, keys, target, widest, r.value);
    }
    LookupMeaning(rows, keys, target, widest, answers[n - 1]);
    NothingIsUnusable();
    if answers[n - 1].None? {
      assert r.None?;
    }
    LoopFindsNearest(answers, target, UsableMid(r));
  }

  lemma NothingIsUnusable()
    ensures UsableMid(None) == None
  {
  }

  lemma NearIsClose(rows: seq<Row>, keys: set<string>, ts: int, toleranceMs: int, r: Row)
    requires IsNearest(rows, keys, ts, toleranceMs, r) && toleranceMs <= MAX_SNAP_DISTANCE_MS
    ensures Distance(r.ts, ts) <= MAX_SNAP_DISTANCE_MS
    ensures !NothingNear(rows, keys, ts, toleranceMs)
  {
  }

  /** The database may answer every lookup that reaches `x` with `x`. */
  lemma AlwaysAnswer(rows: seq<Row>, keys: set<string>, target: int, tolerances: seq<int>, x: Row)
    returns (answers: seq<Option<Row>>)
    requires Widening(tolerances) && IsNearest(rows, keys, target, tolerances[|tolerances| - 1], x)
    ensures MayAnswerAll(rows, keys, target, tolerances, answers)
    ensures FirstUsable(answers, target) == UsableMid(Some(x))
  {
    var n, widest := |tolerances|, tolerances[|tolerances| - 1];
    answers := seq(n, i requires 0 <= i < n => if Distance(x.ts, target) <= tolerances[i] then Some(x) else None);
    forall i | 0 <= i < n
      ensures MayAnswer(rows, keys, target, tolerances[i], answers[i])
    {
      AnswerOrNothing(rows, keys, target, tolerances[i], widest, x);
    }
    LoopFindsNearest(answers, target, UsableMid(Some(x)));
  }

  lemma AnswerOrNothing(rows: seq<Row>, keys: set<string>, ts: int, narrow: int, wide: int, x: Row)
    requires narrow <= wide && IsNearest(rows, keys, ts, wide, x)
    ensures MayAnswer(rows, keys, ts, narrow, if Distance(x.ts, ts) <= narrow then Some(x) else None)
  {
    LookupMeaning(rows, keys, ts, narrow, if Distance(x.ts, ts) <= narrow then Some(x) else None);
  }

  /** One snapshot per timestamp and pair. */
  ghost predicate DistinctTimestamps(rows: seq<Row>, keys: set<string>) {
    forall x, y :: x in rows && y in rows && x.pairKey in keys && y.pairKey in keys && x.ts == y.ts ==> x == y
  }

  const TOLERANCES_1M := [120000, 600000, 3600000]
  const TOLERANCES_5M := [180000, 600000, 3600000]

  /** With distinct timestamps per pair, both backfill loops give what one lookup within an hour gives. */
  lemma BackfillIsOneLookup(rows: seq<Row>, keys: set<string>, target: int)
    requires DistinctTimestamps(rows, keys)
    ensures var widest := UsableMid(GetSnapshotNear(rows, keys, target, 3600000));
            && FirstUsable(Lookups(rows, keys, target, TOLERANCES_1M), target) == widest
            && FirstUsable(Lookups(rows, keys, target, TOLERANCES_5M), target) == widest
  {
    hide UsableMid, GetSnapshotNear, FirstUsable;
    OneLookupSuffices(rows, keys, target, TOLERANCES_1M);
    OneLookupSuffices(rows, keys, target, TOLERANCES_5M);
  }

  lemma OneLookupSuffices(rows: seq<Row>, keys: set<string>, target: int, tolerances: seq<int>)
    requires DistinctTimestamps(rows, keys) && Widening(tolerances)
    ensures FirstUsable(Lookups(rows, keys, target, tolerances), target)
         == UsableMid(GetSnapshotNear(rows, keys, target, tolerances[|tolerances| - 1]))
  {
    hide UsableMid, GetSnapshotNear, FirstUsable, MayAnswer, Distance;
    WideningIsOneLookupIff(rows, keys, target, tolerances);
    forall i | 0 <= i < |tolerances|
      ensures MayAnswer(rows, keys, target, tolerances[i], GetSnapshotNear(rows, keys, target, tolerances[i]))
    {
      LookupMayAnswer(rows, keys, target, tolerances[i]);
    }
    assert MayAnswerAll(rows, keys, target, tolerances, Lookups(rows, keys, target, tolerances));
  }

  /** Two rows at the target, one without a price: the loop may find a price where the single lookup finds none. */
  lemma EqualTimestampsMayDisagree()
    ensures var rows := [Row("A", 0, None), Row("A", 0, Some(1.0))];
            !LoopIsOneLookup(rows, {"A"}, 0, TOLERANCES_1M)
  {
    var rows := [Row("A", 0, None), Row("A", 0, Some(1.0))];
    WideningIsOneLookupIff(rows, {"A"}, 0, TOLERANCES_1M);
    assert rows[0] in rows && rows[1] in rows;
    assert IsNearest(rows, {"A"}, 0, 3600000, rows[0]) && IsNearest(rows, {"A"}, 0, 3600000, rows[1]);
  }
}
