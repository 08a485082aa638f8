/** Per-key log throttling with periodic clean-up (src/analytics/throttledLogger.ts). */
module ThrottledLogger {
  import opened Basics
  import opened Sorting

  const WINDOW_MS := 1000
  const STALE_MS := 30000

  datatype Throttle = Throttle(count: nat, lastLogged: int, suppressed: nat)

  type Throttles = map<string, Throttle>

  // ---------------------------------------------------------------- the throttle

  /** The throttle table after one call, and whether the message may be logged. */
  function Logged(m: Throttles, key: string, nowMs: int, limit: nat): (Throttles, bool) {
    if key !in m || nowMs - m[key].lastLogged >= WINDOW_MS then
      (m[key := Throttle(1, nowMs, if key in m then m[key].suppressed else 0)], true)
    else if m[key].count < limit then (m[key := m[key].(count := m[key].count + 1)], true)
    else (m[key := m[key].(suppressed := m[key].suppressed + 1)], false)
  }

  predicate IsStale(t: Throttle, nowMs: int) {
    nowMs - t.lastLogged > STALE_MS
  }

  /** The table after a flush: suppressed counts reported, stale entries gone. */
  function Flushed(m: Throttles, nowMs: int): Throttles {
    map k | k in m && !IsStale(m[k], nowMs) :: m[k].(suppressed := 0)
  }

  class LogThrottle {
    var throttleMap: Throttles
    const limit: nat

    constructor (maxPerSec: int)
      ensures throttleMap == map[] && limit == MaxInt(1, maxPerSec)
    {
      throttleMap := map[];
      limit := MaxInt(1, maxPerSec);
    }

    method ShouldLog(key: string, nowMs: int) returns (r: bool)
      modifies this
      ensures (throttleMap, r) == Logged(old(throttleMap), key, nowMs, limit)
    {
      if key !in throttleMap {
        throttleMap := throttleMap[key := Throttle(1, nowMs, 0)];
        return true;
      }
      var state := throttleMap[key];
      if nowMs - state.lastLogged >= WINDOW_MS {
        throttleMap := throttleMap[key := state.(count := 1, lastLogged := nowMs)];
        return true;
      }
      if state.count < limit {
        throttleMap := throttleMap[key := state.(count := state.count + 1)];
        return true;
      }
      throttleMap := throttleMap[key := state.(suppressed := state.suppressed + 1)];
      r := false;
    }

    method Flush(nowMs: int)
      modifies this
      ensures throttleMap == Flushed(old(throttleMap), nowMs)
    {
      var todo := throttleMap.Keys;
      while todo != {}
        invariant todo <= throttleMap.Keys <= old(throttleMap).Keys
        invariant forall k :: k in todo ==> throttleMap[k] == old(throttleMap)[k]
        invariant forall k :: k in old(throttleMap) && k !in todo ==>
                    (k in throttleMap <==> !IsStale(old(throttleMap)[k], nowMs))
        invariant forall k :: k in throttleMap && k !in todo ==> throttleMap[k] == old(throttleMap)[k].(suppressed := 0)
        decreases todo
      {
        var k :| k in todo;
        var state := throttleMap[k].(suppressed := 0);
        throttleMap := throttleMap[k := state];
        if IsStale(state, nowMs) {
          throttleMap := throttleMap - {k};
        }
        todo := todo - {k};
      }
    }
  }

  // ---------------------------------------------------------------- runs

  datatype Event = Call(key: string, nowMs: int) | Flush(nowMs: int)

  function Table(es: seq<Event>, limit: nat): Throttles {
    if es == [] then map[]
    else
      var n := |es| - 1;
      match es[n]
      case Call(key, nowMs) => Logged(Table(es[..n], limit), key, nowMs, limit).0
      case Flush(nowMs) => Flushed(Table(es[..n], limit), nowMs)
  }

  predicate Admits(es: seq<Event>, key: string, limit: nat)
    requires es != []
  {
    var n := |es| - 1;
    es[n].Call? && es[n].key == key && Logged(Table(es[..n], limit), key, es[n].nowMs, limit).1
  }

  /** The times at which the key's messages were admitted. */
  function Admitted(es: seq<Event>, key: string, limit: nat): seq<int> {
    if es == [] then []
    else
      var before := Admitted(es[..|es| - 1], key, limit);
      if Admits(es, key, limit) then before + [es[|es| - 1].nowMs] else before
  }

  ghost predicate ClockRuns(es: seq<Event>) {
    forall i, j :: 0 <= i <= j < |es| ==> es[i].nowMs <= es[j].nowMs
  }

  /** A flush forgets exactly the keys whose window began more than 30 seconds ago, and clears the other counts. */
  lemma FlushMeaning(m: Throttles, nowMs: int)
    ensures forall k :: k in Flushed(m, nowMs) <==> k in m && nowMs - m[k].lastLogged <= 30000
    ensures forall k :: k in Flushed(m, nowMs) ==>
              var was, now := m[k], Flushed(m, nowMs)[k];
              now.count == was.count && now.lastLogged == was.lastLogged && now.suppressed == 0
  {
  }

  /** Calls for the key that were refused since the last flush. */
  function RefusedSinceFlush(es: seq<Event>, key: string, limit: nat): nat {
    if es == [] then 0
    else
      var n := |es| - 1;
      match es[n]
      case Call(k, _) =>
        RefusedSinceFlush(es[..n], key, limit) + (if k == key && !Admits(es, key, limit) then 1 else 0)
      case Flush(_) => 0
  }

  /** No suppressed message goes uncounted: a flush reports for a key the calls refused since the flush before. */
  lemma {:induction false} SuppressedAreRefused(es: seq<Event>, key: string, limit: nat)
    ensures var m := Table(es, limit);
            RefusedSinceFlush(es, key, limit) == if key in m then m[key].suppressed else 0
  {
    if es == [] {
    } else {
      SuppressedAreRefused(es[..|es| - 1], key, limit);
    }
  }

  // ---------------------------------------------------------------- windows

  /** An admitted call with its place: the window it falls in, when that began, and its rank there. */
  datatype Note = Note(time: int, window: nat, start: int, rank: nat)

  function NextNote(m: Throttles, key: string, notes: seq<Note>, nowMs: int): Note {
    if notes == [] then Note(nowMs, 0, nowMs, 1)
    else
      var last := notes[|notes| - 1];
      if key !in m || nowMs - m[key].lastLogged >= WINDOW_MS then Note(nowMs, last.window + 1, nowMs, 1)
      else Note(nowMs, last.window, last.start, last.rank + 1)
  }

  function Notes(es: seq<Event>, key: string, limit: nat): seq<Note> {
    if es == [] then []
    else
      var n := |es| - 1;
      var before := Notes(es[..n], key, limit);
      if !Admits(es, key, limit) then before else before + [NextNote(Table(es[..n], limit), key, before, es[n].nowMs)]
  }

  ghost predicate NoteOk(a: Note, limit: nat) {
    1 <= a.rank <= limit && a.start <= a.time < a.start + WINDOW_MS && (a.rank == 1 ==> a.time == a.start)
  }

  ghost predicate Follows(a: Note, b: Note) {
    a.time <= b.time
    && ((b.window == a.window && b.start == a.start && b.rank == a.rank + 1)
        || (b.window == a.window + 1 && b.start >= a.start + WINDOW_MS && b.start >= a.time && b.rank == 1))
  }

  ghost predicate Chain(notes: seq<Note>, limit: nat) {
    && (forall i :: 0 <= i < |notes| ==> NoteOk(notes[i], limit))
    && (forall i :: 0 < i < |notes| ==> Follows(notes[i - 1], notes[i]))
  }

  /** What the table remembers of the key is its last window; an entry cleaned up is long over. */
  ghost predicate Remembers(m: Throttles, key: string, notes: seq<Note>, clockMs: int) {
    if notes == [] then key !in m
    else
      var last := notes[|notes| - 1];
      && last.time <= clockMs
      && (if key in m then m[key].lastLogged == last.start && m[key].count == last.rank
          else clockMs - last.start > STALE_MS)
  }

  lemma CallKeeps(m: Throttles, key: string, k: string, notes: seq<Note>, nowMs: int, limit: nat)
    requires limit >= 1 && Chain(notes, limit) && Remembers(m, key, notes, nowMs)
    ensures var r := Logged(m, k, nowMs, limit);
            var noted := if k == key && r.1 then notes + [NextNote(m, key, notes, nowMs)] else notes;
            Chain(noted, limit) && Remembers(r.0, key, noted, nowMs)
  {
  }

  lemma FlushKeeps(m: Throttles, key: string, notes: seq<Note>, nowMs: int)
    requires Remembers(m, key, notes, nowMs)
    ensures Remembers(Flushed(m, nowMs), key, notes, nowMs)
  {
  }

  lemma LaterRemembers(m: Throttles, key: string, notes: seq<Note>, nowMs: int, laterMs: int)
    requires Remembers(m, key, notes, nowMs) && nowMs <= laterMs
    ensures Remembers(m, key, notes, laterMs)
  {
  }

  lemma {:induction false} NotesChain(es: seq<Event>, key: string, limit: nat, clockMs: int)
    requires limit >= 1 && ClockRuns(es) && (es != [] ==> es[|es| - 1].nowMs <= clockMs)
    ensures Chain(Notes(es, key, limit), limit)
    ensures Remembers(Table(es, limit), key, Notes(es, key, limit), clockMs)
    ensures |Notes(es, key, limit)| == |Admitted(es, key, limit)|
    ensures forall i :: 0 <= i < |Notes(es, key, limit)| ==>
          Notes(es, key, limit)[i].time == Admitted(es, key, limit)[i]
  {
    hide Chain, Logged, Remembers, NextNote, Flushed;
    if es == [] {
      NoNotes(key, limit, clockMs);
    } else {
      var n, nowMs := |es| - 1, es[|es| - 1].nowMs;
      NotesChain(es[..n], key, limit, nowMs);
      match es[n] {
        case Call(k, _) => CallKeeps(Table(es[..n], limit), key, k, Notes(es[..n], key, limit), nowMs, limit);
        case Flush(_) => FlushKeeps(Table(es[..n], limit), key, Notes(es[..n], key, limit), nowMs);
      }
      LaterRemembers(Table(es, limit), key, Notes(es, key, limit), nowMs, clockMs);
      NextNoteTime(Table(es[..n], limit), key, Notes(es[..n], key, limit), nowMs);
    }
  }

  lemma NextNoteTime(m: Throttles, key: string, notes: seq<Note>, nowMs: int)
    ensures NextNote(m, key, notes, nowMs).time == nowMs
  {
  }

  lemma NoNotes(key: string, limit: nat, clockMs: int)
    ensures Chain([], limit) && Remembers(map[], key, [], clockMs)
  {
  }

  // ---------------------------------------------------------------- clean-ups are unobservable

  /** The calls of a run, without its clean-ups. */
  function Calls(es: seq<Event>): seq<Event> {
    if es == [] then []
    else
      var before, last := Calls(es[..|es| - 1]), es[|es| - 1];
      if last.Call? then before + [last] else before
  }

  predicate IsCall(e: Event) {
    e.Call?
  }

  /** Exactly the calls, in their order. */
  lemma {:induction false} CallsAreKept(es: seq<Event>)
    ensures Calls(es) == Filter(es, IsCall)
    ensures forall e :: e in Calls(es) ==> e.Call?
  {
    if es == [] {
    } else {
      var n := |es| - 1;
      CallsAreKept(es[..n]);
      assert es == es[..n] + [es[n]];
      FilterAppend(es[..n], es[n], IsCall);
    }
  }

  /** The key's entry is the one of the table never cleaned, or is gone because that one is stale. */
  ghost predicate Cleaned(m: Throttles, kept: Throttles, key: string, nowMs: int) {
    if key in m then key in kept && kept[key].lastLogged == m[key].lastLogged && kept[key].count == m[key].count
    else key in kept ==> nowMs - kept[key].lastLogged > STALE_MS
  }

  lemma CallKeepsCleaned(m: Throttles, kept: Throttles, key: string, k: string, nowMs: int, limit: nat)
    requires Cleaned(m, kept, key, nowMs)
    ensures Cleaned(Logged(m, k, nowMs, limit).0, Logged(kept, k, nowMs, limit).0, key, nowMs)
    ensures k == key ==> Logged(m, k, nowMs, limit).1 == Logged(kept, k, nowMs, limit).1
  {
  }

  lemma FlushKeepsCleaned(m: Throttles, kept: Throttles, key: string, nowMs: int)
    requires Cleaned(m, kept, key, nowMs)
    ensures Cleaned(Flushed(m, nowMs), kept, key, nowMs)
  {
  }

  /** Clean-ups, wherever they fall, change nothing about which calls are admitted and when. */
  lemma {:induction false} CleanUpsAreUnobservable(es: seq<Event>, key: string, limit: nat)
    requires ClockRuns(es)
    ensures Admitted(es, key, limit) == Admitted(Calls(es), key, limit)
    ensures es != [] ==> Cleaned(Table(es, limit), Table(Calls(es), limit), key, es[|es| - 1].nowMs)
  {
    hide Logged, Flushed;
    if es == [] {
    } else {
      var init, e := es[..|es| - 1], es[|es| - 1];
      CleanUpsAreUnobservable(init, key, limit);
      var m, kept := Table(init, limit), Table(Calls(init), limit);
      assert Cleaned(m, kept, key, e.nowMs);
      match e {
        case Call(k, nowMs) =>
          CallKeepsCleaned(m, kept, key, k, nowMs, limit);
          assert (Calls(init) + [e])[..|Calls(init)|] == Calls(init);
        case Flush(nowMs) => FlushKeepsCleaned(m, kept, key, nowMs);
      }
    }
  }

  /** Between two admitted calls: how many lie between, and how much time the windows take. */
  lemma {:induction false} ChainSpan(notes: seq<Note>, limit: nat, i: nat, j: nat)
    requires Chain(notes, limit) && i <= j < |notes|
    ensures var a, b := notes[i], notes[j];
            && b.window >= a.window && a.time <= b.time
            && j - i <= (b.window - a.window) * limit + b.rank - a.rank
            && b.start >= a.start + (b.window - a.window) * WINDOW_MS
            && (b.window > a.window ==> b.start >= a.time + (b.window - a.window - 1) * WINDOW_MS)
            && (b.window == a.window ==> b.start == a.start)
  {
    if i < j {
      ChainSpan(notes, limit, i, j - 1);
      assert Follows(notes[j - 1], notes[j]) && NoteOk(notes[j - 1], limit);
      var d := notes[j - 1].window - notes[i].window;
      assert (d + 1) * limit == d * limit + limit;
    }
  }

  function Windows(lengthMs: int): int {
    (lengthMs + WINDOW_MS - 1) / WINDOW_MS
  }

  lemma ScaleWindows(a: int, b: int, limit: nat)
    requires a <= b
    ensures a * limit <= b * limit
  {
  }

  /** Calls `i` to `j`, all inside an interval, number at most limit * (windows + 1) - 1. */
  lemma SpanBound(notes: seq<Note>, limit: nat, i: nat, j: nat, fromMs: int, lengthMs: int)
    requires limit >= 1 && Chain(notes, limit) && i <= j < |notes|
    requires fromMs <= notes[i].time && notes[j].time < fromMs + lengthMs
    ensures j - i + 1 <= limit * (Windows(lengthMs) + 1) - 1
  {
    var a, b, w := notes[i], notes[j], Windows(lengthMs);
    var d := b.window - a.window;
    ChainSpan(notes, limit, i, j);
    assert NoteOk(a, limit) && NoteOk(b, limit);
    assert limit * (w + 1) == w * limit + limit;
    if a.rank == 1 {
      assert d <= w - 1;
      ScaleWindows(d, w - 1, limit);
      assert (w - 1) * limit == w * limit - limit;
    } else {
      assert d <= w;
      ScaleWindows(d, w, limit);
    }
  }

  // ---------------------------------------------------------------- the rate

  predicate IsWithin(fromMs: int, lengthMs: int, t: int) {
    fromMs <= t < fromMs + lengthMs
  }

  function Within(fromMs: int, lengthMs: int): int -> bool {
    (t: int) => IsWithin(fromMs, lengthMs, t)
  }

  /** How many calls were admitted in the half-open interval. */
  function AdmittedIn(es: seq<Event>, key: string, limit: nat, fromMs: int, lengthMs: int): nat {
    |Filter(Admitted(es, key, limit), Within(fromMs, lengthMs))|
  }

  /** The occurrences that satisfy `p` lie between a first and a last one. */
  lemma {:induction false} CountBetween(ts: seq<int>, p: int -> bool) returns (i: nat, j: nat)
    requires |Filter(ts, p)| > 0
    ensures i <= j < |ts| && p(ts[i]) && p(ts[j]) && |Filter(ts, p)| <= j - i + 1
  {
    var rest := ts[1..];
    if |Filter(rest, p)| > 0 {
      i, j := CountBetween(rest, p);
      i, j := if p(ts[0]) then 0 else i + 1, j + 1;
    } else {
      i, j := 0, 0;
    }
  }

  /**
   The rate limit. For any run under a clock that does not go back, with any clean-ups in between, the
   calls admitted for a key in an interval of length L number at most limit * (ceil(L / 1000) + 1) - 1.
   */
  lemma RateBound(es: seq<Event>, key: string, limit: nat, fromMs: int, lengthMs: int)
    requires limit >= 1 && ClockRuns(es) && lengthMs > 0
    ensures AdmittedIn(es, key, limit, fromMs, lengthMs) <= limit * (Windows(lengthMs) + 1) - 1
  {
    hide Filter, Admitted, Notes, Chain;
    var ts, notes := Admitted(es, key, limit), Notes(es, key, limit);
    NotesChain(es, key, limit, if es == [] then 0 else es[|es| - 1].nowMs);
    if AdmittedIn(es, key, limit, fromMs, lengthMs) > 0 {
      var i, j := CountBetween(ts, Within(fromMs, lengthMs));
      assert IsWithin(fromMs, lengthMs, ts[i]) && IsWithin(fromMs, lengthMs, ts[j]);
      SpanBound(notes, limit, i, j, fromMs, lengthMs);
    } else {
      ScaleWindows(2, Windows(lengthMs) + 1, limit);
    }
  }

  /** In any second at most 2 * limit - 1 calls are admitted. */
  lemma RateBoundPerSecond(es: seq<Event>, key: string, limit: nat, fromMs: int)
    requires limit >= 1 && ClockRuns(es)
    ensures AdmittedIn(es, key, limit, fromMs, 1000) <= 2 * limit - 1
  {
    RateBound(es, key, limit, fromMs, 1000);
  }

  // ---------------------------------------------------------------- the bound is tight

  function Repeated(key: string, nowMs: int, n: nat): seq<Event> {
    seq(n, i requires 0 <= i < n => Call(key, nowMs))
  }

  function Times(nowMs: int, n: nat): seq<int> {
    seq(n, i requires 0 <= i < n => nowMs)
  }

  /** Within the window, calls are admitted as long as the count allows. */
  lemma {:induction false} RepeatedCalls(es: seq<Event>, key: string, limit: nat, nowMs: int, n: nat, t: Throttle)
    requires key in Table(es, limit) && Table(es, limit)[key] == t
    requires nowMs - t.lastLogged < WINDOW_MS && t.count + n <= limit
    ensures var all := es + Repeated(key, nowMs, n);
            && key in Table(all, limit) && Table(all, limit)[key] == t.(count := t.count + n)
            && Admitted(all, key, limit) == Admitted(es, key, limit) + Times(nowMs, n)
  {
    hide Table, Admitted;
    if n == 0 {
      assert es + Repeated(key, nowMs, 0) == es;
    } else {
      var before := es + Repeated(key, nowMs, n - 1);
      RepeatedCalls(es, key, limit, nowMs, n - 1, t);
      OneMoreCall(before, key, limit, nowMs, t.(count := t.count + n - 1));
      assert es + Repeated(key, nowMs, n) == before + [Call(key, nowMs)];
      assert Times(nowMs, n) == Times(nowMs, n - 1) + [nowMs];
    }
  }

  lemma OneMoreCall(es: seq<Event>, key: string, limit: nat, nowMs: int, t: Throttle)
    requires key in Table(es, limit) && Table(es, limit)[key] == t
    requires nowMs - t.lastLogged < WINDOW_MS && t.count < limit
    ensures var next := es + [Call(key, nowMs)];
            && key in Table(next, limit) && Table(next, limit)[key] == t.(count := t.count + 1)
            && Admitted(next, key, limit) == Admitted(es, key, limit) + [nowMs]
  {
    assert (es + [Call(key, nowMs)])[..|es|] == es;
  }

  /** One call at 0, the rest of its window at 999, and a new window filled at 1000. */
  function Burst(key: string, limit: nat): seq<Event>
    requires limit >= 1
  {
    [Call(key, 0)] + Repeated(key, 999, limit - 1) + [Call(key, 1000)] + Repeated(key, 1000, limit - 1)
  }

  lemma BurstAdmitsAll(key: string, limit: nat)
    requires limit >= 1
    ensures ClockRuns(Burst(key, limit))
    ensures Admitted(Burst(key, limit), key, limit) == [0] + Times(999, limit - 1) + [1000] + Times(1000, limit - 1)
  {
    hide Logged;
    var first := [Call(key, 0)];
    FirstCall(key, limit);
    RepeatedCalls(first, key, limit, 999, limit - 1, Throttle(1, 0, 0));
    var filled := first + Repeated(key, 999, limit - 1);
    var next := filled + [Call(key, 1000)];
    NewWindow(filled, key, limit, 1000);
    RepeatedCalls(next, key, limit, 1000, limit - 1, Table(next, limit)[key]);
  }

  lemma FirstCall(key: string, limit: nat)
    ensures Table([Call(key, 0)], limit) == map[key := Throttle(1, 0, 0)]
    ensures Admitted([Call(key, 0)], key, limit) == [0]
  {
    assert [Call(key, 0)][..0] == [];
  }

  lemma NewWindow(es: seq<Event>, key: string, limit: nat, nowMs: int)
    requires key in Table(es, limit) && nowMs - Table(es, limit)[key].lastLogged >= WINDOW_MS
    ensures var next := es + [Call(key, nowMs)];
            && key in Table(next, limit) && Table(next, limit)[key].count == 1
            && Table(next, limit)[key].lastLogged == nowMs
            && Admitted(next, key, limit) == Admitted(es, key, limit) + [nowMs]
  {
    assert (es + [Call(key, nowMs)])[..|es|] == es;
  }

  /** The bound of 2 * limit - 1 calls in one second is reached. */
  lemma RateBoundIsTight(key: string, limit: nat)
    requires limit >= 1
    ensures ClockRuns(Burst(key, limit)) && AdmittedIn(Burst(key, limit), key, limit, 999, 1000) == 2 * limit - 1
  {
    hide Filter, Burst, Admitted;
    BurstAdmitsAll(key, limit);
    var p, late := Within(999, 1000), Times(999, limit - 1) + [1000] + Times(1000, limit - 1);
    assert [0] + Times(999, limit - 1) + [1000] + Times(1000, limit - 1) == [0] + late;
    FilterConcat([0], late, p);
    FilterNone([0], p);
    FilterAll(late, p);
  }

  /** At most `limit` messages per key and second, as the configuration promises. */
  ghost predicate LimitPerSecond(limit: nat) {
    forall es, key, fromMs :: ClockRuns(es) ==> AdmittedIn(es, key, limit, fromMs, 1000) <= limit
  }

  /** The promised limit per second holds on every run exactly when the limit is 1. */
  lemma LimitPerSecondIff(limit: nat)
    requires limit >= 1
    ensures LimitPerSecond(limit) <==> limit == 1
  {
    if limit == 1 {
      forall es, key, fromMs | ClockRuns(es)
        ensures AdmittedIn(es, key, limit, fromMs, 1000) <= limit
      {
        RateBoundPerSecond(es, key, limit, fromMs);
      }
    } else {
      RateBoundIsTight("", limit);
    }
  }
}
