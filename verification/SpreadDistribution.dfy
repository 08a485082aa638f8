/** Rolling spread statistics over a circular buffer (src/analytics/spreadDistribution.ts). */
module SpreadDistribution {
  import opened Basics
  import opened Sorting

  const DAY_MS := 86400000

  datatype Sample = Sample(timestamp: int, value: real)

  datatype Stats = Stats(sampleCount: nat, medianBps: Option<real>, p75Bps: Option<real>, p90Bps: Option<real>)

  datatype Snapshot = Snapshot(pair: Option<string>, updatedAtMs: int, lookback24h: Stats, baselineMultiDay: Stats,
                               days: real)

  // ---------------------------------------------------------------- statistics

  /** Relative spread in basis points; `None` for a missing, crossed or non-positive book. */
  function ComputeSpreadBps(bestBid: real, bestAsk: real): (r: Option<real>)
    ensures r.Some? <==> 0.0 < bestBid <= bestAsk
    ensures r.Some? ==> r.value * (bestBid + bestAsk) == 20000.0 * (bestAsk - bestBid)
    ensures r.Some? ==> 0.0 <= r.value < 20000.0
  {
    if bestBid <= 0.0 || bestAsk <= 0.0 || bestAsk < bestBid then None
    else
      var mid := (bestBid + bestAsk) / 2.0;
      var r := (bestAsk - bestBid) / mid;
      QuotientBounds(bestAsk - bestBid, mid, 2.0);
      QuotientTimes(bestAsk - bestBid, mid);
      Some(r * 10000.0)
  }

  lemma QuotientBounds(a: real, b: real, k: real)
    requires 0.0 <= a < k * b && b > 0.0
    ensures 0.0 <= a / b < k
  {
  }

  function Identity(v: real): real { v }

  function RankIndex(p: nat, n: nat): (i: int)
    requires 1 <= p <= 100
    ensures n > 0 ==> 0 <= i < n && i * 100 < p * n <= (i + 1) * 100
  {
    MaxInt(0, (p * n + 99) / 100 - 1)
  }

  /** The value at rank ceil(p/100 * n) of a sorted list. */
  function Percentile(sorted: seq<real>, p: nat): Option<real>
    requires 1 <= p <= 100
  {
    if sorted == [] then None else Some(sorted[RankIndex(p, |sorted|)])
  }

  function BuildStats(values: seq<real>): Stats {
    var sorted := StableSort(values, Identity);
    Stats(|sorted|, Percentile(sorted, 50), Percentile(sorted, 75), Percentile(sorted, 90))
  }

  predicate IsAtMost(bound: real, v: real) { v <= bound }
  predicate IsBelow(bound: real, v: real) { v < bound }

  function AtMost(bound: real): real -> bool { (v: real) => IsAtMost(bound, v) }
  function Below(bound: real): real -> bool { (v: real) => IsBelow(bound, v) }

  /**
   `v` is a nearest-rank percentile: at least p percent of the values are at most `v`, fewer than p percent
   below it.
   */
  ghost predicate IsNearestRank(values: seq<real>, p: nat, v: real) {
    && v in values
    && |Filter(values, AtMost(v))| * 100 >= p * |values|
    && |Filter(values, Below(v))| * 100 < p * |values|
  }

  lemma PercentileIsNearestRank(values: seq<real>, p: nat)
    requires values != [] && 1 <= p <= 100
    ensures var v := Percentile(StableSort(values, Identity), p);
            v.Some? && IsNearestRank(values, p, v.value)
  {
    hide Filter;
    var sorted := StableSort(values, Identity);
    var i := RankIndex(p, |sorted|);
    var v := sorted[i];
    StableSortSorted(values, Identity);
    SortKeepsMembers(values, Identity);
    assert v in sorted;
    FilterCommutesWithSort(values, Identity, AtMost(v));
    FilterCommutesWithSort(values, Identity, Below(v));
    AtMostFromFront(sorted, i);
    BelowFromFront(sorted, i);
  }

  lemma AtMostFromFront(sorted: seq<real>, i: nat)
    requires Sorted(sorted, Identity) && i < |sorted|
    ensures |Filter(sorted, AtMost(sorted[i]))| >= i + 1
  {
    hide Filter;
    var front, p := sorted[..i + 1], AtMost(sorted[i]);
    assert sorted == front + sorted[i + 1..];
    FilterConcat(front, sorted[i + 1..], p);
    assert forall k :: 0 <= k <= i ==> Identity(sorted[k]) <= Identity(sorted[i]);
    FilterAll(front, p);
  }

  lemma BelowFromFront(sorted: seq<real>, i: nat)
    requires Sorted(sorted, Identity) && i < |sorted|
    ensures |Filter(sorted, Below(sorted[i]))| <= i
  {
    hide Filter;
    var back, p := sorted[i..], Below(sorted[i]);
    assert sorted == sorted[..i] + back;
    FilterConcat(sorted[..i], back, p);
    FilterShorter(sorted[..i], p);
    assert forall k :: i <= k < |sorted| ==> Identity(sorted[i]) <= Identity(sorted[k]);
    assert forall x :: x in back ==> !p(x);
    FilterNone(back, p);
  }

  /** The statistics are true nearest ranks, in order. */
  lemma StatsMeaning(values: seq<real>)
    ensures var st := BuildStats(values);
            && st.sampleCount == |values|
            && (st.medianBps.None? <==> values == []) && (st.p75Bps.None? <==> values == [])
            && (st.p90Bps.None? <==> values == [])
            && (values != [] ==>
                  && IsNearestRank(values, 50, st.medianBps.value) && IsNearestRank(values, 75, st.p75Bps.value)
                  && IsNearestRank(values, 90, st.p90Bps.value)
                  && st.medianBps.value <= st.p75Bps.value <= st.p90Bps.value)
  {
    if values != [] {
      PercentileIsNearestRank(values, 50);
      PercentileIsNearestRank(values, 75);
      PercentileIsNearestRank(values, 90);
      var sorted, n := StableSort(values, Identity), |values|;
      StableSortSorted(values, Identity);
      assert RankIndex(50, n) <= RankIndex(75, n) <= RankIndex(90, n);
      assert Identity(sorted[RankIndex(50, n)]) <= Identity(sorted[RankIndex(75, n)]);
      assert Identity(sorted[RankIndex(75, n)]) <= Identity(sorted[RankIndex(90, n)]);
    }
  }

  // ---------------------------------------------------------------- the window of samples

  predicate IsSince(cutoffMs: int, s: Sample) { s.timestamp >= cutoffMs }

  function Since(cutoffMs: int): Sample -> bool { (s: Sample) => IsSince(cutoffMs, s) }

  function ValuesOf(samples: seq<Sample>): seq<real> {
    seq(|samples|, i requires 0 <= i < |samples| => samples[i].value)
  }

  function Pushed(samples: seq<Sample>, capacity: nat, s: Sample): seq<Sample>
    requires capacity >= 1
  {
    if |samples| < capacity then samples + [s] else samples[1..] + [s]
  }

  /** Drops leading samples older than the cutoff. */
  function Pruned(samples: seq<Sample>, cutoffMs: int): seq<Sample> {
    if samples == [] || samples[0].timestamp >= cutoffMs then samples else Pruned(samples[1..], cutoffMs)
  }

  function LastOf(samples: seq<Sample>, n: nat): seq<Sample> {
    if |samples| <= n then samples else samples[|samples| - n..]
  }

  lemma SinceMeans(cutoffMs: int, s: Sample)
    ensures Since(cutoffMs)(s) <==> s.timestamp >= cutoffMs
  {
  }

  lemma ValuesOfAppended(samples: seq<Sample>, s: Sample)
    ensures ValuesOf(samples + [s]) == ValuesOf(samples) + [s.value]
    ensures ValuesOf([]) == []
  {
  }

  lemma NothingSince(cutoffMs: int)
    ensures ValuesOf(Filter([], Since(cutoffMs))) == []
  {
  }

  lemma OneMoreSince(samples: seq<Sample>, i: nat, cutoffMs: int)
    requires i < |samples|
    ensures ValuesOf(Filter(samples[..i + 1], Since(cutoffMs)))
         == ValuesOf(Filter(samples[..i], Since(cutoffMs)))
             + (if samples[i].timestamp >= cutoffMs then [samples[i].value] else [])
  {
    hide Filter, ValuesOf, Since;
    assert samples[..i + 1] == samples[..i] + [samples[i]];
    SinceMeans(cutoffMs, samples[i]);
    FilterAppend(samples[..i], samples[i], Since(cutoffMs));
    ValuesOfAppended(Filter(samples[..i], Since(cutoffMs)), samples[i]);
    assert Filter(samples[..i], Since(cutoffMs)) + [] == Filter(samples[..i], Since(cutoffMs));
  }

  lemma Wrap(a: nat, c: nat)
    requires a < 2 * c
    ensures a % c == if a < c then a else a - c
  {
    if a >= c {
      assert a == (a - c) + c;
    }
  }

  function SlotAt(start: nat, i: nat, capacity: nat): (r: nat)
    requires start < capacity && i < capacity
    ensures r < capacity && r == if start + i < capacity then start + i else start + i - capacity
  {
    Wrap(start + i, capacity);
    (start + i) % capacity
  }

  /** The samples held by the two arrays, oldest first. */
  function Window(timestamps: seq<int>, values: seq<real>, start: nat, size: nat): (r: seq<Sample>)
    requires start < |timestamps| == |values| && size <= |timestamps|
    ensures |r| == size
  {
    seq(size, i requires 0 <= i < size =>
          Sample(timestamps[SlotAt(start, i, |timestamps|)], values[SlotAt(start, i, |timestamps|)]))
  }

  lemma WindowGrows(timestamps: seq<int>, values: seq<real>, start: nat, size: nat, s: Sample)
    requires start < |timestamps| == |values| && size < |timestamps|
    ensures var idx := SlotAt(start, size, |timestamps|);
            Window(timestamps[idx := s.timestamp], values[idx := s.value], start, size + 1)
            == Window(timestamps, values, start, size) + [s]
  {
    hide SlotAt;
  }

  lemma WindowMoves(timestamps: seq<int>, values: seq<real>, start: nat, s: Sample)
    requires start < |timestamps| == |values|
    ensures Window(timestamps[start := s.timestamp], values[start := s.value],
                   SlotAt(start, 1 % |timestamps|, |timestamps|), |timestamps|)
         == Window(timestamps, values, start, |timestamps|)[1..] + [s]
  {
    hide SlotAt;
    Wrap(1, |timestamps|);
  }

  class TimeSeriesRingBuffer {
    const capacity: nat
    const timestamps: array<int>
    const values: array<real>
    var start: nat
    var size: nat

    ghost predicate Valid()
      reads this
    {
      capacity >= 1 && timestamps.Length == values.Length == capacity && start < capacity && size <= capacity
    }

    ghost function Contents(): (r: seq<Sample>)
      requires Valid()
      reads this, timestamps, values
      ensures |r| == size
    {
      Window(timestamps[..], values[..], start, size)
    }

    constructor (cap: int)
      ensures Valid() && Contents() == [] && capacity == MaxInt(1, cap)
      ensures fresh(timestamps) && fresh(values)
    {
      capacity := MaxInt(1, cap);
      timestamps := new int[MaxInt(1, cap)];
      values := new real[MaxInt(1, cap)];
      start := 0;
      size := 0;
    }

    method Push(timestamp: int, value: real)
      requires Valid()
      modifies this, timestamps, values
      ensures Valid() && Contents() == Pushed(old(Contents()), capacity, Sample(timestamp, value))
    {
      hide Window, SlotAt;
      ghost var ts, vs, s := timestamps[..], values[..], Sample(timestamp, value);
      if size < capacity {
        var idx := SlotAt(start, size, capacity);
        WindowGrows(ts, vs, start, size, s);
        timestamps[idx] := timestamp;
        values[idx] := value;
        size := size + 1;
        assert timestamps[..] == ts[idx := timestamp] && values[..] == vs[idx := value];
      } else {
        WindowMoves(ts, vs, start, s);
        Wrap(start + 1, capacity);
        Wrap(1, capacity);
        timestamps[start] := timestamp;
        values[start] := value;
        assert timestamps[..] == ts[start := timestamp] && values[..] == vs[start := value];
        start := (start + 1) % capacity;
      }
    }

    method Prune(cutoffMs: int)
      requires Valid()
      modifies this
      ensures Valid() && Contents() == Pruned(old(Contents()), cutoffMs)
    {
      while size > 0
        invariant Valid() && Pruned(Contents(), cutoffMs) == Pruned(old(Contents()), cutoffMs)
        decreases size
      {
        ghost var before := Contents();
        var ts := timestamps[start];
        assert before[0].timestamp == ts;
        if ts >= cutoffMs {
          break;
        }
        Wrap(start + 1, capacity);
        start := (start + 1) % capacity;
        size := size - 1;
        assert Contents() == before[1..];
      }
    }

    method ValuesSince(cutoffMs: int) returns (result: seq<real>)
      requires Valid()
      ensures result == ValuesOf(Filter(Contents(), Since(cutoffMs)))
    {
      hide Filter, ValuesOf, Since;
      result := [];
      ghost var all := Contents();
      NothingSince(cutoffMs);
      for i := 0 to size
        invariant result == ValuesOf(Filter(all[..i], Since(cutoffMs)))
      {
        var idx := SlotAt(start, i, capacity);
        assert all[i] == Sample(timestamps[idx], values[idx]);
        OneMoreSince(all, i, cutoffMs);
        if timestamps[idx] >= cutoffMs {
          result := result + [values[idx]];
        }
      }
      assert all[..size] == all;
    }

    method Clear()
      requires Valid()
      modifies this
      ensures Valid() && Contents() == []
    {
      start := 0;
      size := 0;
    }
  }

  // ---------------------------------------------------------------- the sampler

  datatype Config = Config(baselineDays: real, computeIntervalMs: int, maxSamples: int)

  /** Timestamps are whole milliseconds, so a cutoff in between counts as the next one. */
  function BaselineMs(c: Config): int {
    (c.baselineDays * DAY_MS as real).Floor
  }

  function Capacity(c: Config): (n: nat)
    ensures n >= 1
  {
    MaxInt(1, c.maxSamples)
  }

  function StatsSince(samples: seq<Sample>, cutoffMs: int): Stats {
    BuildStats(ValuesOf(Filter(samples, Since(cutoffMs))))
  }

  function SnapshotOf(samples: seq<Sample>, c: Config, pair: Option<string>, nowMs: int): Snapshot {
    Snapshot(pair, nowMs, StatsSince(samples, nowMs - DAY_MS), StatsSince(samples, nowMs - BaselineMs(c)),
             c.baselineDays)
  }

  function Ingested(samples: seq<Sample>, c: Config, bestBid: real, bestAsk: real, nowMs: int): seq<Sample> {
    var spread := ComputeSpreadBps(bestBid, bestAsk);
    if spread.None? then samples
    else Pruned(Pushed(samples, Capacity(c), Sample(nowMs, spread.value)), nowMs - BaselineMs(c))
  }

  class SpreadDistributionSampler {
    const config: Config
    const buffer: TimeSeriesRingBuffer
    var pairKey: Option<string>
    var lastComputedMs: int
    var latestSnapshot: Option<Snapshot>

    ghost predicate Valid()
      reads this, buffer
    {
      buffer.Valid() && buffer.capacity == Capacity(config)
    }

    ghost function Samples(): seq<Sample>
      requires Valid()
      reads this, buffer, buffer.timestamps, buffer.values
    {
      buffer.Contents()
    }

    constructor (config: Config)
      ensures Valid() && Samples() == [] && this.config == config && latestSnapshot.None?
    {
      this.config := config;
      buffer := new TimeSeriesRingBuffer(config.maxSamples);
      pairKey := None;
      lastComputedMs := 0;
      latestSnapshot := None;
    }

    method Ingest(bestBid: real, bestAsk: real, nowMs: int)
      requires Valid()
      modifies buffer, buffer.timestamps, buffer.values
      ensures Valid() && Samples() == Ingested(old(Samples()), config, bestBid, bestAsk, nowMs)
    {
      var spreadBps := ComputeSpreadBps(bestBid, bestAsk);
      if spreadBps.None? {
        return;
      }
      buffer.Push(nowMs, spreadBps.value);
      buffer.Prune(nowMs - BaselineMs(config));
    }

    method Compute(nowMs: int) returns (snapshot: Snapshot)
      requires Valid()
      modifies this, buffer
      ensures Valid() && pairKey == old(pairKey)
      ensures Samples() == Pruned(old(Samples()), nowMs - BaselineMs(config))
      ensures snapshot == SnapshotOf(Samples(), config, pairKey, nowMs)
      ensures latestSnapshot == Some(snapshot) && lastComputedMs == nowMs
    {
      hide Filter, BuildStats, Pruned, ValuesOf;
      var cutoff24h := nowMs - 24 * 60 * 60 * 1000;
      var cutoffBaseline := nowMs - BaselineMs(config);
      buffer.Prune(cutoffBaseline);
      var lookback24hValues := buffer.ValuesSince(cutoff24h);
      var baselineValues := buffer.ValuesSince(cutoffBaseline);
      snapshot := Snapshot(pairKey, nowMs, BuildStats(lookback24hValues), BuildStats(baselineValues),
                           config.baselineDays);
      latestSnapshot := Some(snapshot);
      lastComputedMs := nowMs;
    }

    /** Answers from the cache while it is younger than the interval; otherwise computes. */
    method MaybeCompute(nowMs: int) returns (snapshot: Snapshot)
      requires Valid()
      modifies this, buffer
      ensures Valid() && latestSnapshot == Some(snapshot)
      ensures if old(latestSnapshot).Some? && nowMs - old(lastComputedMs) < config.computeIntervalMs
              then snapshot == old(latestSnapshot).value && Samples() == old(Samples())
                && lastComputedMs == old(lastComputedMs)
              else Samples() == Pruned(old(Samples()), nowMs - BaselineMs(config)) && lastComputedMs == nowMs
                   && snapshot == SnapshotOf(Samples(), config, old(pairKey), nowMs)
    {
      if latestSnapshot.None? || nowMs - lastComputedMs >= config.computeIntervalMs {
        snapshot := Compute(nowMs);
      } else {
        snapshot := latestSnapshot.value;
      }
    }

    /** Answers from the cache up to twice the interval. */
    method GetSnapshot(nowMs: int) returns (snapshot: Snapshot)
      requires Valid()
      modifies this, buffer
      ensures Valid() && latestSnapshot == Some(snapshot)
      ensures if old(latestSnapshot).Some? && nowMs - old(lastComputedMs) <= config.computeIntervalMs * 2
              then snapshot == old(latestSnapshot).value && Samples() == old(Samples())
                && lastComputedMs == old(lastComputedMs)
              else Samples() == Pruned(old(Samples()), nowMs - BaselineMs(config)) && lastComputedMs == nowMs
                   && snapshot == SnapshotOf(Samples(), config, old(pairKey), nowMs)
    {
      if latestSnapshot.None? {
        snapshot := Compute(nowMs);
      } else if nowMs - lastComputedMs > config.computeIntervalMs * 2 {
        snapshot := Compute(nowMs);
      } else {
        snapshot := latestSnapshot.value;
      }
    }

    method Reset()
      requires Valid()
      modifies this, buffer
      ensures Valid() && Samples() == [] && latestSnapshot.None? && lastComputedMs == 0
    {
      buffer.Clear();
      lastComputedMs := 0;
      latestSnapshot := None;
    }
  }

  // ---------------------------------------------------------------- runs since a reset

  datatype Event = Ingest(bestBid: real, bestAsk: real, atMs: int) | Compute(atMs: int)

  /** The ring buffer after the events. */
  function Buffered(es: seq<Event>, c: Config): seq<Sample> {
    if es == [] then []
    else
      var n := |es| - 1;
      match es[n]
      case Ingest(bid, ask, nowMs) => Ingested(Buffered(es[..n], c), c, bid, ask, nowMs)
      case Compute(nowMs) => Pruned(Buffered(es[..n], c), nowMs - BaselineMs(c))
  }

  /** Every sample ever accepted, in order: no capacity, no pruning. */
  function Accepted(es: seq<Event>): seq<Sample> {
    if es == [] then []
    else
      var n := |es| - 1;
      var before := Accepted(es[..n]);
      if es[n].Ingest? && ComputeSpreadBps(es[n].bestBid, es[n].bestAsk).Some?
      then before + [Sample(es[n].atMs, ComputeSpreadBps(es[n].bestBid, es[n].bestAsk).value)]
      else before
  }

  /** Both sides quoted, and not crossed. */
  predicate IsUsableBook(e: Event) {
    e.Ingest? && 0.0 < e.bestBid && e.bestBid <= e.bestAsk
  }

  /** One sample for each usable book, at its time, with the gap in bps of the mid price. */
  ghost predicate AreSpreads(books: seq<Event>, samples: seq<Sample>) {
    && |samples| == |books|
    && forall i :: 0 <= i < |books| && books[i].Ingest? ==>
         IsSpread(books[i].bestBid, books[i].bestAsk, books[i].atMs, samples[i])
  }

  predicate IsSpread(bid: real, ask: real, atMs: int, s: Sample) {
    s.timestamp == atMs && s.value * (bid + ask) == 20000.0 * (ask - bid)
  }

  /** The history behind the statistics, in the numbers of the books that were ingested. */
  lemma {:induction false} AcceptedAreSpreads(es: seq<Event>)
    ensures AreSpreads(Filter(es, IsUsableBook), Accepted(es))
  {
    hide Filter, ComputeSpreadBps, IsSpread, IsUsableBook;
    if es == [] {
      FilterNone(es, IsUsableBook);
    } else {
      var n, e := |es| - 1, es[|es| - 1];
      AcceptedAreSpreads(es[..n]);
      assert es == es[..n] + [e];
      FilterAppend(es[..n], e, IsUsableBook);
      AcceptedIfUsable(e);
    }
  }

  lemma AcceptedIfUsable(e: Event)
    ensures IsUsableBook(e) <==> e.Ingest? && ComputeSpreadBps(e.bestBid, e.bestAsk).Some?
    ensures IsUsableBook(e) ==>
              IsSpread(e.bestBid, e.bestAsk, e.atMs, Sample(e.atMs, ComputeSpreadBps(e.bestBid, e.bestAsk).value))
  {
    hide ComputeSpreadBps;
  }

  /** The clock does not go back, and no event is later than `nowMs`. */
  ghost predicate ClockRuns(es: seq<Event>, nowMs: int) {
    && (forall i, j :: 0 <= i <= j < |es| ==> es[i].atMs <= es[j].atMs)
    && (forall i :: 0 <= i < |es| ==> es[i].atMs <= nowMs)
  }

  ghost predicate TimeOrdered(samples: seq<Sample>, nowMs: int) {
    && (forall i, j :: 0 <= i <= j < |samples| ==> samples[i].timestamp <= samples[j].timestamp)
    && (forall i :: 0 <= i < |samples| ==> samples[i].timestamp <= nowMs)
  }

  /** The buffer is the tail of the history; what is missing from the last `n` is older than the cutoff. */
  ghost predicate Tracks(buffer: seq<Sample>, history: seq<Sample>, n: nat, cutoffMs: int) {
    && |buffer| <= n && |buffer| <= |history|
    && buffer == history[|history| - |buffer|..]
    && (forall j :: 0 <= j && |history| - n <= j < |history| - |buffer| ==> history[j].timestamp < cutoffMs)
  }

  lemma PushTracks(buffer: seq<Sample>, history: seq<Sample>, n: nat, cutoffMs: int, s: Sample)
    requires n >= 1 && Tracks(buffer, history, n, cutoffMs)
    ensures Tracks(Pushed(buffer, n, s), history + [s], n, cutoffMs)
  {
  }

  lemma {:induction false} PruneTracks(buffer: seq<Sample>, history: seq<Sample>, n: nat, cutoffMs: int, laterMs: int)
    requires Tracks(buffer, history, n, cutoffMs) && cutoffMs <= laterMs
    ensures Tracks(Pruned(buffer, laterMs), history, n, laterMs)
  {
    if buffer != [] && buffer[0].timestamp < laterMs {
      assert buffer[1..] == history[|history| - (|buffer| - 1)..];
      PruneTracks(buffer[1..], history, n, laterMs, laterMs);
    }
  }

  lemma {:induction false} AcceptedInOrder(es: seq<Event>, nowMs: int)
    requires ClockRuns(es, nowMs)
    ensures TimeOrdered(Accepted(es), nowMs)
  {
    hide ComputeSpreadBps;
    if es == [] {
    } else {
      AcceptedInOrder(es[..|es| - 1], es[|es| - 1].atMs);
    }
  }

  lemma {:induction false} BufferTracks(es: seq<Event>, c: Config, nowMs: int)
    requires ClockRuns(es, nowMs)
    ensures Tracks(Buffered(es, c), Accepted(es), Capacity(c), nowMs - BaselineMs(c))
  {
    hide ComputeSpreadBps, Tracks, Pruned, Pushed, Capacity;
    if es == [] {
      NothingTracks(Capacity(c), nowMs - BaselineMs(c));
    } else {
      var n, e := |es| - 1, es[|es| - 1];
      BufferTracks(es[..n], c, e.atMs);
      var buffer, history := Buffered(es[..n], c), Accepted(es[..n]);
      var before := e.atMs - BaselineMs(c);
      if e.Ingest? && ComputeSpreadBps(e.bestBid, e.bestAsk).Some? {
        var s := Sample(e.atMs, ComputeSpreadBps(e.bestBid, e.bestAsk).value);
        PushTracks(buffer, history, Capacity(c), before, s);
        PruneTracks(Pushed(buffer, Capacity(c), s), history + [s], Capacity(c), before, before);
      } else if e.Compute? {
        PruneTracks(buffer, history, Capacity(c), before, before);
      }
      LaterTracks(Buffered(es, c), Accepted(es), Capacity(c), before, nowMs - BaselineMs(c));
    }
  }

  lemma NothingTracks(n: nat, cutoffMs: int)
    ensures Tracks([], [], n, cutoffMs)
  {
  }

  lemma LaterTracks(buffer: seq<Sample>, history: seq<Sample>, n: nat, cutoffMs: int, laterMs: int)
    requires Tracks(buffer, history, n, cutoffMs) && cutoffMs <= laterMs
    ensures Tracks(buffer, history, n, laterMs)
  {
  }

  /** From the cutoff on, the buffer and the last `n` of the history hold the same samples. */
  lemma TrackingIsExact(buffer: seq<Sample>, history: seq<Sample>, n: nat, cutoffMs: int, sinceMs: int)
    requires Tracks(buffer, history, n, cutoffMs) && cutoffMs <= sinceMs
    ensures Filter(buffer, Since(sinceMs)) == Filter(LastOf(history, n), Since(sinceMs))
  {
    hide Filter, Tracks;
    var missing := MissingIsOld(buffer, history, n, cutoffMs);
    FilterConcat(missing, buffer, Since(sinceMs));
    FilterNone(missing, Since(sinceMs));
  }

  lemma MissingIsOld(buffer: seq<Sample>, history: seq<Sample>, n: nat, cutoffMs: int) returns (missing: seq<Sample>)
    requires Tracks(buffer, history, n, cutoffMs)
    ensures LastOf(history, n) == missing + buffer
    ensures forall s :: s in missing ==> s.timestamp < cutoffMs
  {
    var last := LastOf(history, n);
    var offset := |history| - |last|;
    missing := last[..|last| - |buffer|];
    assert forall k :: 0 <= k < |missing| ==> missing[k] == history[offset + k];
  }

  lemma {:induction false} PrunedIsRecent(buffer: seq<Sample>, cutoffMs: int, nowMs: int)
    requires TimeOrdered(buffer, nowMs)
    ensures forall s :: s in Pruned(buffer, cutoffMs) ==> IsSince(cutoffMs, s)
  {
    if buffer != [] && buffer[0].timestamp < cutoffMs {
      PrunedIsRecent(buffer[1..], cutoffMs, nowMs);
    }
  }

  /** The cutoff that really bounds the 24-hour window: pruning has already applied the baseline's. */
  function LookbackCutoff(c: Config, nowMs: int): int {
    MaxInt(nowMs - DAY_MS, nowMs - BaselineMs(c))
  }

  /**
   Sampler refinement. For any run under a clock that does not go back, the values behind a snapshot
   are the last `maxSamples` accepted samples filtered by the cutoff: wrap-around, overwriting and
   earlier pruning cannot be observed.
   */
  lemma SamplerRefines(es: seq<Event>, c: Config, nowMs: int)
    requires ClockRuns(es, nowMs)
    ensures var buffer, last := Pruned(Buffered(es, c), nowMs - BaselineMs(c)), LastOf(Accepted(es), Capacity(c));
            && Filter(buffer, Since(nowMs - BaselineMs(c))) == Filter(last, Since(nowMs - BaselineMs(c)))
            && Filter(buffer, Since(nowMs - DAY_MS)) == Filter(last, Since(LookbackCutoff(c, nowMs)))
  {
    hide Filter, Pruned, Tracks, Buffered, Accepted, LastOf;
    var cut := nowMs - BaselineMs(c);
    BufferTracks(es, c, nowMs);
    PruneTracks(Buffered(es, c), Accepted(es), Capacity(c), cut, cut);
    var buffer := Pruned(Buffered(es, c), cut);
    TrackingIsExact(buffer, Accepted(es), Capacity(c), cut, cut);
    if BaselineMs(c) >= DAY_MS {
      TrackingIsExact(buffer, Accepted(es), Capacity(c), cut, nowMs - DAY_MS);
    } else {
      ShortBaselineBounds(es, c, nowMs);
    }
  }

  /** With a baseline under a day, nothing that pruning keeps is old enough for the 24-hour cutoff to matter. */
  lemma ShortBaselineBounds(es: seq<Event>, c: Config, nowMs: int)
    requires ClockRuns(es, nowMs) && BaselineMs(c) < DAY_MS
    ensures var buffer := Pruned(Buffered(es, c), nowMs - BaselineMs(c));
            Filter(buffer, Since(nowMs - DAY_MS)) == Filter(buffer, Since(nowMs - BaselineMs(c)))
  {
    hide Filter, Pruned, Tracks, Buffered, Accepted, TimeOrdered;
    var cut := nowMs - BaselineMs(c);
    var buffer := Pruned(Buffered(es, c), cut);
    BufferTracks(es, c, nowMs);
    AcceptedInOrder(es, nowMs);
    TailIsOrdered(Buffered(es, c), Accepted(es), Capacity(c), cut, nowMs);
    PrunedIsRecent(Buffered(es, c), cut, nowMs);
    FilterAll(buffer, Since(cut));
    FilterAll(buffer, Since(nowMs - DAY_MS));
  }

  lemma TailIsOrdered(buffer: seq<Sample>, history: seq<Sample>, n: nat, cutoffMs: int, nowMs: int)
    requires Tracks(buffer, history, n, cutoffMs) && TimeOrdered(history, nowMs)
    ensures TimeOrdered(buffer, nowMs)
  {
    var k := |history| - |buffer|;
    assert forall i :: 0 <= i < |buffer| ==> buffer[i] == history[k + i];
  }

  /** Every snapshot of every run carries the statistics of the unbounded history's window. */
  lemma SnapshotsAreExact(es: seq<Event>, c: Config, pair: Option<string>, nowMs: int)
    requires ClockRuns(es, nowMs)
    ensures var last := LastOf(Accepted(es), Capacity(c));
            SnapshotOf(Pruned(Buffered(es, c), nowMs - BaselineMs(c)), c, pair, nowMs)
              == Snapshot(pair, nowMs, StatsSince(last, LookbackCutoff(c, nowMs)),
                          StatsSince(last, nowMs - BaselineMs(c)), c.baselineDays)
  {
    hide Filter, Pruned, Buffered, Accepted, BuildStats, ValuesOf, LookbackCutoff, LastOf, ClockRuns;
    SamplerRefines(es, c, nowMs);
  }

  /** The figure is absent, or the spread in bps of a usable book that was ingested no earlier than the cutoff. */
  ghost predicate IsIngestedSpread(es: seq<Event>, cutoffMs: int, figure: Option<real>) {
    figure.Some? ==>
      exists e :: e in es && IsUsableBook(e) && e.atMs >= cutoffMs
                  && figure.value * (e.bestBid + e.bestAsk) == 20000.0 * (e.bestAsk - e.bestBid)
  }

  ghost predicate FiguresAreSpreads(es: seq<Event>, cutoffMs: int, st: Stats) {
    && IsIngestedSpread(es, cutoffMs, st.medianBps)
    && IsIngestedSpread(es, cutoffMs, st.p75Bps) && IsIngestedSpread(es, cutoffMs, st.p90Bps)
  }

  /** Every figure of every snapshot of every run is the spread of a book ingested within its window. */
  lemma SnapshotFigures(es: seq<Event>, c: Config, pair: Option<string>, nowMs: int)
    requires ClockRuns(es, nowMs)
    ensures var s := SnapshotOf(Pruned(Buffered(es, c), nowMs - BaselineMs(c)), c, pair, nowMs);
            && FiguresAreSpreads(es, nowMs - 24 * 60 * 60 * 1000, s.lookback24h)
            && FiguresAreSpreads(es, (nowMs as real - c.baselineDays * 86400000.0).Floor, s.baselineMultiDay)
  {
    hide Filter, Pruned, Buffered, Accepted, BuildStats, ValuesOf, LastOf, ClockRuns, FiguresAreSpreads;
    SnapshotsAreExact(es, c, pair, nowMs);
    WindowFigures(es, Capacity(c), LookbackCutoff(c, nowMs), nowMs - DAY_MS);
    WindowFigures(es, Capacity(c), nowMs - BaselineMs(c), (nowMs as real - c.baselineDays * 86400000.0).Floor);
  }

  lemma WindowFigures(es: seq<Event>, n: nat, cutoffMs: int, sinceMs: int)
    requires sinceMs <= cutoffMs
    ensures FiguresAreSpreads(es, sinceMs, StatsSince(LastOf(Accepted(es), n), cutoffMs))
  {
    hide Filter, Accepted, BuildStats, ValuesOf, LastOf, IsNearestRank, IsIngestedSpread;
    var values := ValuesOf(Filter(LastOf(Accepted(es), n), Since(cutoffMs)));
    StatsMeaning(values);
    if values != [] {
      var st := BuildStats(values);
      RankIsAValue(values, 50, st.medianBps.value);
      RankIsAValue(values, 75, st.p75Bps.value);
      RankIsAValue(values, 90, st.p90Bps.value);
      ValueIsASpread(es, n, cutoffMs, sinceMs, st.medianBps.value);
      ValueIsASpread(es, n, cutoffMs, sinceMs, st.p75Bps.value);
      ValueIsASpread(es, n, cutoffMs, sinceMs, st.p90Bps.value);
    } else {
      assert IsIngestedSpread(es, sinceMs, None) by { NoFigure(es, sinceMs); }
    }
  }

  lemma NoFigure(es: seq<Event>, cutoffMs: int)
    ensures IsIngestedSpread(es, cutoffMs, None)
  {
  }

  lemma RankIsAValue(values: seq<real>, p: nat, v: real)
    requires IsNearestRank(values, p, v)
    ensures v in values
  {
  }

  lemma ValueIsASpread(es: seq<Event>, n: nat, cutoffMs: int, sinceMs: int, v: real)
    requires v in ValuesOf(Filter(LastOf(Accepted(es), n), Since(cutoffMs))) && sinceMs <= cutoffMs
    ensures IsIngestedSpread(es, sinceMs, Some(v))
  {
    hide Filter, Accepted, IsIngestedSpread;
    var samples := Filter(LastOf(Accepted(es), n), Since(cutoffMs));
    var i :| 0 <= i < |samples| && samples[i].value == v;
    assert samples[i] in samples;
    assert samples[i] in LastOf(Accepted(es), n) && IsSince(cutoffMs, samples[i]);
    SampleIsASpread(es, samples[i], sinceMs);
  }

  lemma SampleIsASpread(es: seq<Event>, s: Sample, sinceMs: int)
    requires s in Accepted(es) && s.timestamp >= sinceMs
    ensures IsIngestedSpread(es, sinceMs, Some(s.value))
  {
    hide Filter, Accepted;
    AcceptedAreSpreads(es);
    var k :| 0 <= k < |Accepted(es)| && Accepted(es)[k] == s;
    var book := Filter(es, IsUsableBook)[k];
    assert book in Filter(es, IsUsableBook);
    assert IsSpread(book.bestBid, book.bestAsk, book.atMs, s);
  }

  /** Every run sees in its 24-hour window exactly the kept samples of the last 24 hours. */
  ghost predicate LookbackIsADay(c: Config) {
    forall es, nowMs :: ClockRuns(es, nowMs) ==>
      Filter(Pruned(Buffered(es, c), nowMs - BaselineMs(c)), Since(nowMs - DAY_MS))
        == Filter(LastOf(Accepted(es), Capacity(c)), Since(nowMs - DAY_MS))
  }

  /** The 24-hour window is right on every run exactly when the baseline covers at least a day. */
  lemma LookbackIsADayIff(c: Config)
    ensures LookbackIsADay(c) <==> c.baselineDays >= 1.0
  {
    hide Filter, Pruned, Buffered, Accepted, LastOf, ClockRuns, Since;
    if BaselineMs(c) >= DAY_MS {
      forall es, nowMs | ClockRuns(es, nowMs)
        ensures Filter(Pruned(Buffered(es, c), nowMs - BaselineMs(c)), Since(nowMs - DAY_MS))
             == Filter(LastOf(Accepted(es), Capacity(c)), Since(nowMs - DAY_MS))
      {
        SamplerRefines(es, c, nowMs);
      }
    } else {
      ShortBaselineLosesSample(c);
    }
  }

  /** One sample, read exactly a day later: it belongs to the window, but a shorter baseline has pruned it. */
  lemma ShortBaselineLosesSample(c: Config)
    requires c.baselineDays < 1.0
    ensures var es := [Ingest(1.0, 1.0, 0)];
            && ClockRuns(es, DAY_MS)
            && Filter(Pruned(Buffered(es, c), DAY_MS - BaselineMs(c)), Since(0)) == []
            && Filter(LastOf(Accepted(es), Capacity(c)), Since(0)) == [Sample(0, 0.0)]
  {
    var es := [Ingest(1.0, 1.0, 0)];
    var s := Sample(0, 0.0);
    assert (1.0 - 1.0) / ((1.0 + 1.0) / 2.0) == 0.0;
    assert ComputeSpreadBps(1.0, 1.0) == Some(0.0);
    assert es[..0] == [];
    assert Accepted(es) == [s];
    var first := Pruned([s], 0 - BaselineMs(c));
    assert [s][1..] == [];
    assert Buffered(es, c) == first;
    assert Pruned([], 0 - BaselineMs(c)) == [] && Pruned([], DAY_MS - BaselineMs(c)) == [];
    assert first == [s] || first == [];
    assert Pruned([s], DAY_MS - BaselineMs(c)) == [];
    FilterAll([s], Since(0));
  }
}
