/** What the markout scheduler keeps over every run of starts, stops, schedules, timer firings and restarts. */
module MarkoutRuns {
  import opened Basics
  import opened Sorting
  import opened Trades
  import opened TradeStore
  import opened MarkoutScheduler

  /** The file was written for some set of well-formed jobs with finite fill prices. */
  ghost predicate IsMirror(disk: seq<RawJob>, canon: string -> string) {
    exists pending :: Keyed(pending, canon) && AllFinite(pending) && Mirrors(disk, pending)
  }

  /** In a started scheduler the armed timers are exactly the pending jobs; without a start there are none. */
  ghost predicate TimersMatch(s: State) {
    s.timers.Keys == if s.started then s.pending.Keys else {}
  }

  /**
   The invariant. While the scheduler runs, the armed timers are exactly the pending jobs; the file
   mirrors the pending jobs, except in a new process that has not read it yet.
   */
  ghost predicate Inv(s: State, canon: string -> string) {
    && Keyed(s.pending, canon) && AllFinite(s.pending)
    && TimersMatch(s)
    && (Mirrors(s.disk, s.pending) || (!s.started && s.pending == map[] && IsMirror(s.disk, canon)))
  }

  /** Fill prices are finite numbers. `RestartKeepsIff` says what happens to the others. */
  ghost predicate FinitePrice(e: Event) {
    e.Schedule? ==> e.input.fillPrice.Some?
  }

  /** The jobs the scheduler knows, counting those it would read from the file on start. */
  ghost function Outstanding(s: State, canon: string -> string): map<JobId, Job> {
    Load(s.pending, s.disk, 0, canon)
  }

  lemma OutstandingIsPending(s: State, canon: string -> string)
    requires Inv(s, canon) && Mirrors(s.disk, s.pending)
    ensures Outstanding(s, canon) == s.pending
  {
    LoadMirror(s.pending, s.disk, s.pending, 0, canon);
  }

  /** The clock plays no part in reading the file back, and what is read is what the file mirrors. */
  lemma LoadReadsMirror(s: State, nowMs: int, canon: string -> string)
    requires Inv(s, canon)
    ensures Load(s.pending, s.disk, nowMs, canon) == Outstanding(s, canon)
    ensures Keyed(Outstanding(s, canon), canon) && AllFinite(Outstanding(s, canon))
    ensures Mirrors(s.disk, Outstanding(s, canon))
  {
    hide Load, Mirrors, Keyed, AllFinite, Finite;
    if Mirrors(s.disk, s.pending) {
      LoadMirror(s.pending, s.disk, s.pending, 0, canon);
      LoadMirror(s.pending, s.disk, s.pending, nowMs, canon);
    } else {
      var pending :| Keyed(pending, canon) && AllFinite(pending) && Mirrors(s.disk, pending);
      LoadMirror(map[], s.disk, pending, 0, canon);
      LoadMirror(map[], s.disk, pending, nowMs, canon);
      FiniteKeepsAllIff(pending);
    }
  }

  /** In any state, a new process finds again exactly the jobs whose fill price is finite. */
  lemma RestartKeepsIff(s: State, s1: State, s2: State, nowMs: int, defaults: seq<real>, canon: string -> string)
    requires Keyed(s.pending, canon) && Mirrors(s.disk, s.pending)
    requires Step(s, Restart, s1, defaults, canon) && Step(s1, Start(nowMs), s2, defaults, canon)
    ensures s2.pending == Finite(s.pending)
    ensures s2.pending == s.pending <==> AllFinite(s.pending)
  {
    hide Mirrors, Load, Keyed, ArmAll;
    LoadMirror(map[], s.disk, s.pending, nowMs, canon);
    FiniteKeepsAllIff(s.pending);
  }

  /** A job whose fill price is not finite, in memory and on file: a new process does not find it again. */
  lemma RestartLosesJob(j: Job, nowMs: int, defaults: seq<real>, canon: string -> string)
    requires WellFormed(j, canon) && j.fillPrice.None?
    ensures var s := State(false, map[j.id := j], map[], [], [], [ToDisk(j)]);
            var s1, s2 := s.(pending := map[]), s.(started := true, pending := map[]);
            && Mirrors(s.disk, s.pending)
            && Step(s, Restart, s1, defaults, canon) && Step(s1, Start(nowMs), s2, defaults, canon)
  {
    var disk := [ToDisk(j)];
    assert disk[..0] == [];
    DiskRoundTrip(j, nowMs, canon);
    assert Load(map[], disk, nowMs, canon) == map[];
  }

  lemma FiniteKeepsAllIff(pending: map<JobId, Job>)
    ensures Finite(pending) == pending <==> AllFinite(pending)
  {
    if Finite(pending) == pending {
      assert forall k :: k in pending ==> k in Finite(pending);
    }
  }

  /** A new process next to a file with one job: the job is outstanding but not in memory. */
  lemma UnreadFile(j: Job, canon: string -> string)
    requires WellFormed(j, canon) && j.fillPrice.Some?
    ensures var s := State(false, map[], map[], [], [], [ToDisk(j)]);
            && Inv(s, canon) && !FileIsRead(s, canon)
            && Outstanding(s, canon) == map[j.id := j]
  {
    var disk, pending := [ToDisk(j)], map[j.id := j];
    assert disk[0] in disk;
    assert Mirrors(disk, pending);
    LoadMirror(map[], disk, pending, 0, canon);
    FiniteKeepsAllIff(pending);
    assert j.id in pending;
  }

  // ---------------------------------------------------------------- one step

  lemma {:induction false} AddHorizonsKeeps(s: State, input: ScheduleInput, horizons: seq<real>, nowMs: int,
                                            canon: string -> string)
    requires Keyed(s.pending, canon) && Idempotent(canon)
    ensures var r := AddHorizons(s, input, horizons, nowMs, canon);
            && Keyed(r.pending, canon) && r.started == s.started
            && (forall k :: k in s.pending ==> k in r.pending && r.pending[k] == s.pending[k])
            && (forall k :: k in r.pending && k !in s.pending ==>
                  k.tradeId == input.tradeId && r.pending[k].attempts == 0 && r.pending[k].fillPrice == input.fillPrice)
  {
    if horizons == [] {
    } else {
      AddHorizonsKeeps(s, input, horizons[..|horizons| - 1], nowMs, canon);
    }
  }

  lemma ProcessedKeeps(s: State, id: JobId, env: Env, canon: string -> string)
    requires Keyed(s.pending, canon) && id in s.pending
    ensures var r := Processed(s, id, env);
            && Keyed(r.pending, canon) && r.started == s.started
            && (forall k :: k in s.pending && k != id ==> k in r.pending && r.pending[k] == s.pending[k])
            && (forall k :: k in r.pending ==> k in s.pending)
            && (id in r.pending ==> r.pending[id] == TriedJob(s.pending[id]) && r.pending[id].attempts < MAX_ATTEMPTS)
  {
    hide AfterMarkout, MarkPrice;
  }

  lemma {:induction false} AddHorizonsArms(s: State, input: ScheduleInput, horizons: seq<real>, nowMs: int,
                                           canon: string -> string)
    requires TimersMatch(s)
    ensures TimersMatch(AddHorizons(s, input, horizons, nowMs, canon))
  {
    if horizons == [] {
    } else {
      AddHorizonsArms(s, input, horizons[..|horizons| - 1], nowMs, canon);
    }
  }

  lemma ProcessedArms(s: State, id: JobId, env: Env)
    requires TimersMatch(s) && id in s.timers
    ensures TimersMatch(Processed(s, id, env))
  {
    hide AfterMarkout, MarkPrice;
  }

  /** Every step keeps the timers in step with the jobs, whatever is scheduled and whatever is on file. */
  lemma StepKeepsTimers(s: State, e: Event, s': State, defaults: seq<real>, canon: string -> string)
    requires TimersMatch(s) && Step(s, e, s', defaults, canon)
    ensures TimersMatch(s')
  {
    hide Load, AddHorizons, Processed;
    match e
    case Start(nowMs) =>
    case Schedule(input, nowMs) => AddHorizonsArms(s, input, Horizons(input, defaults), nowMs, canon);
    case Fire(id, env) => ProcessedArms(s, id, env);
    case Stop =>
    case Restart =>
  }

  /**
   Every step keeps the invariant: in a started scheduler the armed timers are exactly the pending
   jobs and the file lists exactly the pending jobs.
   */
  lemma StepKeepsInv(s: State, e: Event, s': State, defaults: seq<real>, canon: string -> string)
    requires Inv(s, canon) && Idempotent(canon) && FinitePrice(e) && Step(s, e, s', defaults, canon)
    ensures Inv(s', canon)
    ensures s'.started ==> s'.timers.Keys == s'.pending.Keys && Mirrors(s'.disk, s'.pending)
  {
    hide Mirrors, Load, AddHorizons, Processed, Keyed;
    StepKeepsTimers(s, e, s', defaults, canon);
    match e
    case Start(nowMs) => LoadReadsMirror(s, nowMs, canon);
    case Schedule(input, nowMs) => AddHorizonsKeeps(s, input, Horizons(input, defaults), nowMs, canon);
    case Fire(id, env) => ProcessedKeeps(s, id, env, canon);
    case Stop =>
    case Restart => NoJobsKeyed(canon);
  }

  lemma NoJobsKeyed(canon: string -> string)
    ensures Keyed(map[], canon)
  {
  }

  /** The jobs on file are all in memory. */
  ghost predicate FileIsRead(s: State, canon: string -> string) {
    Outstanding(s, canon) == s.pending
  }

  /** Scheduling waits until the file has been read. */
  ghost predicate Disciplined(s: State, e: Event, canon: string -> string) {
    e.Schedule? ==> FileIsRead(s, canon)
  }

  /**
   An event as a run of the scheduler meets it: the invariant holds, prices are finite, the file is read
   before scheduling.
   */
  ghost predicate Orderly(s: State, e: Event, canon: string -> string) {
    Inv(s, canon) && Idempotent(canon) && FinitePrice(e) && Disciplined(s, e, canon)
  }

  /** A step loses, duplicates and alters no job: only its own timer changes a job, by one attempt, or removes it. */
  lemma StepTracksJobs(s: State, e: Event, s': State, defaults: seq<real>, canon: string -> string)
    requires Step(s, e, s', defaults, canon) && Orderly(s, e, canon)
    ensures var was, now := Outstanding(s, canon), Outstanding(s', canon);
            && (forall k :: k in was && !(e.Fire? && e.id == k) ==> k in now && now[k] == was[k])
            && (forall k :: k in was && e.Fire? && e.id == k && k in now ==>
                  now[k] == TriedJob(was[k]) && now[k].attempts < MAX_ATTEMPTS)
            && (forall k :: k in now && k !in was ==> e.Schedule? && now[k].attempts == 0)
  {
    hide Mirrors, Load, AddHorizons, Processed, Keyed, Outstanding;
    StepKeepsInv(s, e, s', defaults, canon);
    LoadReadsMirror(s, 0, canon);
    LoadReadsMirror(s', 0, canon);
    match e
    case Start(nowMs) =>
      LoadReadsMirror(s, nowMs, canon);
      OutstandingIsPending(s', canon);
    case Schedule(input, nowMs) =>
      AddHorizonsKeeps(s, input, Horizons(input, defaults), nowMs, canon);
      OutstandingIsPending(s', canon);
    case Fire(id, env) =>
      ProcessedKeeps(s, id, env, canon);
      OutstandingIsPending(s, canon);
      OutstandingIsPending(s', canon);
    case Stop => SameFileSameJobs(s, s', canon);
    case Restart => RestartKeepsJobs(s, s', canon);
  }

  lemma SameFileSameJobs(s: State, s': State, canon: string -> string)
    requires s'.pending == s.pending && s'.disk == s.disk
    ensures Outstanding(s', canon) == Outstanding(s, canon)
  {
  }

  lemma RestartKeepsJobs(s: State, s': State, canon: string -> string)
    requires Inv(s, canon) && s'.pending == map[] && s'.disk == s.disk
    ensures Outstanding(s', canon) == Outstanding(s, canon)
  {
    if Mirrors(s.disk, s.pending) {
      LoadMirror(map[], s.disk, s.pending, 0, canon);
      OutstandingIsPending(s, canon);
      assert Finite(s.pending) == s.pending;
    }
  }

  /**
   Scheduling rewrites the file from memory. For a trade with nothing outstanding it keeps every
   outstanding job if and only if the jobs on file are all in memory; in a new process that has not
   been started, the jobs on file are lost.
   */
  lemma ScheduleKeepsJobsIff(s: State, input: ScheduleInput, nowMs: int, s': State, defaults: seq<real>,
                             canon: string -> string)
    requires Inv(s, canon) && Idempotent(canon) && input.fillPrice.Some?
    requires Step(s, Schedule(input, nowMs), s', defaults, canon)
    requires forall k :: k in Outstanding(s, canon) ==> k.tradeId != input.tradeId
    ensures var was, now := Outstanding(s, canon), Outstanding(s', canon);
            (forall k :: k in was ==> k in now && now[k] == was[k]) <==> FileIsRead(s, canon)
  {
    hide Mirrors, Load, AddHorizons, Keyed, Outstanding;
    StepKeepsInv(s, Schedule(input, nowMs), s', defaults, canon);
    AddHorizonsKeeps(s, input, Horizons(input, defaults), nowMs, canon);
    OutstandingIsPending(s', canon);
    if Mirrors(s.disk, s.pending) {
      OutstandingIsPending(s, canon);
    }
    if s.pending == map[] && Outstanding(s, canon) != map[] {
      var k :| k in Outstanding(s, canon);
      assert k !in s'.pending;
    }
  }

  // ---------------------------------------------------------------- outcomes

  predicate IsOutcome(e: Lifecycle, id: JobId) {
    e == MarkoutRecorded(id) || e == MarkoutMissing(id)
  }

  function Outcomes(events: seq<Lifecycle>, id: JobId): nat {
    if events == [] then 0
    else Outcomes(events[..|events| - 1], id) + (if IsOutcome(events[|events| - 1], id) then 1 else 0)
  }

  lemma OutcomesOfAppended(events: seq<Lifecycle>, e: Lifecycle, id: JobId)
    ensures Outcomes(events + [e], id) == Outcomes(events, id) + (if IsOutcome(e, id) then 1 else 0)
  {
    assert (events + [e])[..|events|] == events;
  }

  lemma {:induction false} SchedulingHasNoOutcome(s: State, input: ScheduleInput, horizons: seq<real>, nowMs: int,
                                                  canon: string -> string, id: JobId)
    ensures Outcomes(AddHorizons(s, input, horizons, nowMs, canon).events, id) == Outcomes(s.events, id)
  {
    if horizons == [] {
    } else {
      var n := |horizons| - 1;
      var before := AddHorizons(s, input, horizons[..n], nowMs, canon);
      SchedulingHasNoOutcome(s, input, horizons[..n], nowMs, canon, id);
      OutcomesOfAppended(before.events, MarkoutScheduled(JobId(input.tradeId, FloorAtLeastOne(horizons[n]))), id);
    }
  }

  /** The job leaves in this step: its timer fired and it is no longer pending. */
  ghost predicate Leaves(s: State, e: Event, s': State, id: JobId) {
    e.Fire? && e.id == id && id in s.pending && id !in s'.pending
  }

  /** Storing the markout succeeded. */
  ghost predicate NoError(e: Event) {
    e.Fire? ==> !e.env.appendThrows
  }

  /** A job is announced, once, in exactly the step in which it leaves. */
  lemma OneOutcomeWhenLeaving(s: State, e: Event, s': State, defaults: seq<real>, canon: string -> string, id: JobId)
    requires Inv(s, canon) && NoError(e) && Step(s, e, s', defaults, canon)
    ensures Outcomes(s'.events, id) == Outcomes(s.events, id) + (if Leaves(s, e, s', id) then 1 else 0)
  {
    hide Mirrors, Load, AddHorizons, Keyed, AfterMarkout;
    match e
    case Schedule(input, nowMs) => SchedulingHasNoOutcome(s, input, Horizons(input, defaults), nowMs, canon, id);
    case Fire(k, env) =>
      OutcomesOfAppended(s.events, if MarkPrice(env).Some? then MarkoutRecorded(k) else MarkoutMissing(k), id);
    case _ =>
  }

  /**
   The stored outcome. When a job leaves without error and its trade is stored with one markout per
   horizon, that trade then holds exactly one markout for the horizon, in sorted order, and every
   other trade is untouched.
   */
  lemma LeavingStoresMarkout(s: State, id: JobId, env: Env, s': State, defaults: seq<real>, canon: string -> string)
    requires Step(s, Fire(id, env), s', defaults, canon) && Leaves(s, Fire(id, env), s', id) && !env.appendThrows
    ensures var tried := TriedJob(s.pending[id]);
            var i := FindTrade(s.trades, tried.txHash, tried.tradeId);
            && |s'.trades| == |s.trades|
            && (forall k :: 0 <= k < |s.trades| && k != i ==> s'.trades[k] == s.trades[k])
            && (i >= 0 && HorizonsUnique(MarkoutsOf(s.trades[i])) ==>
                  var ms, m := MarkoutsOf(s'.trades[i]), MarkoutOf(tried, env, s.trades);
                  && HorizonsUnique(ms) && (forall i, j :: 0 <= i <= j < |ms| ==> ms[i].horizonS <= ms[j].horizonS)
                  && m in ms && m.attempts == tried.attempts
                  && forall x :: x in ms && x.horizonS == tried.horizonS ==> x == m)
  {
    hide AfterMarkout, FindTrade, MarkoutsOf, Mirrors, PutMarkout;
    var tried := TriedJob(s.pending[id]);
    var i := FindTrade(s.trades, tried.txHash, tried.tradeId);
    assert s'.trades == AfterMarkout(s.trades, tried.txHash, tried.tradeId, MarkoutOf(tried, env, s.trades));
    MarkoutKeepsStore(s.trades, tried.txHash, tried.tradeId, MarkoutOf(tried, env, s.trades));
    if i >= 0 && HorizonsUnique(MarkoutsOf(s.trades[i])) {
      PutMarkoutMeaning(MarkoutsOf(s.trades[i]), MarkoutOf(tried, env, s.trades));
    }
  }

  // ---------------------------------------------------------------- runs

  /** Consecutive states, one event between each two. */
  ghost predicate IsRun(ss: seq<State>, es: seq<Event>, defaults: seq<real>, canon: string -> string) {
    && |ss| == |es| + 1
    && (forall i :: 0 <= i < |es| ==> Step(ss[i], es[i], ss[i + 1], defaults, canon) && FinitePrice(es[i]))
  }

  function Firings(es: seq<Event>, id: JobId): nat {
    if es == [] then 0
    else Firings(es[..|es| - 1], id) + (if es[|es| - 1].Fire? && es[|es| - 1].id == id then 1 else 0)
  }

  /** The invariant holds after every event of every run, restarts included. */
  lemma {:induction false} RunKeepsInv(ss: seq<State>, es: seq<Event>, n: nat, defaults: seq<real>,
                                       canon: string -> string)
    requires IsRun(ss, es, defaults, canon) && Idempotent(canon) && Inv(ss[0], canon) && n < |ss|
    ensures Inv(ss[n], canon)
  {
    hide Step, Inv;
    if n == 0 {
    } else {
      RunKeepsInv(ss, es, n - 1, defaults, canon);
      StepKeepsInv(ss[n - 1], es[n - 1], ss[n], defaults, canon);
    }
  }

  /**
   The attempt bound, across any number of stops, reloads and starts: while a job is outstanding its
   attempt count is the number of times its timer has fired, and stays below 5. The fifth firing removes it.
   */
  lemma {:induction false} AttemptsAreFirings(ss: seq<State>, es: seq<Event>, n: nat, id: JobId, defaults: seq<real>,
                                              canon: string -> string)
    requires IsRun(ss, es, defaults, canon) && Idempotent(canon) && Inv(ss[0], canon) && n < |ss|
    requires forall i :: 0 <= i < n ==> Disciplined(ss[i], es[i], canon)
    requires forall i :: 0 <= i <= n ==> id in Outstanding(ss[i], canon)
    ensures var was, now := Outstanding(ss[0], canon)[id], Outstanding(ss[n], canon)[id];
            && now == was.(attempts := was.attempts + Firings(es[..n], id))
            && now.attempts < MAX_ATTEMPTS
  {
    hide Step, Inv, Outstanding, Disciplined;
    if n == 0 {
      LoadReadsMirrorAttempts(ss[0], id, canon);
    } else {
      AttemptsAreFirings(ss, es, n - 1, id, defaults, canon);
      RunKeepsInv(ss, es, n - 1, defaults, canon);
      StepTracksJobs(ss[n - 1], es[n - 1], ss[n], defaults, canon);
      assert es[..n][..n - 1] == es[..n - 1];
    }
  }

  lemma LoadReadsMirrorAttempts(s: State, id: JobId, canon: string -> string)
    requires Inv(s, canon) && id in Outstanding(s, canon)
    ensures Outstanding(s, canon)[id].attempts < MAX_ATTEMPTS
  {
    LoadReadsMirror(s, 0, canon);
  }

  ghost predicate IsFresh(s: State, id: JobId, canon: string -> string) {
    id in Outstanding(s, canon) && Outstanding(s, canon)[id].attempts == 0
  }

  /** A job that has not been tried is gone by its fifth firing, whatever restarts lie in between. */
  lemma FreshJobLeaves(ss: seq<State>, es: seq<Event>, n: nat, id: JobId, defaults: seq<real>, canon: string -> string)
    requires IsRun(ss, es, defaults, canon) && Idempotent(canon) && Inv(ss[0], canon) && n < |ss|
    requires forall i :: 0 <= i < n ==> Disciplined(ss[i], es[i], canon)
    requires Firings(es[..n], id) >= MAX_ATTEMPTS
    requires IsFresh(ss[0], id, canon)
    ensures exists i :: 0 < i <= n && id !in Outstanding(ss[i], canon)
  {
    if forall i :: 0 <= i <= n ==> id in Outstanding(ss[i], canon) {
      AttemptsAreFirings(ss, es, n, id, defaults, canon);
      assert false;
    }
  }

  ghost function Departures(ss: seq<State>, es: seq<Event>, n: nat, id: JobId): nat
    requires |ss| == |es| + 1 && n <= |es|
  {
    if n == 0 then 0
    else Departures(ss, es, n - 1, id) + (if Leaves(ss[n - 1], es[n - 1], ss[n], id) then 1 else 0)
  }

  /** Over a run without storage errors there are exactly as many outcomes announced for a job as times it left. */
  lemma {:induction false} OutcomesAreDepartures(ss: seq<State>, es: seq<Event>, n: nat, id: JobId,
                                                 defaults: seq<real>, canon: string -> string)
    requires IsRun(ss, es, defaults, canon) && Idempotent(canon) && Inv(ss[0], canon) && n < |ss|
    requires forall i :: 0 <= i < n ==> NoError(es[i])
    ensures Outcomes(ss[n].events, id) == Outcomes(ss[0].events, id) + Departures(ss, es, n, id)
  {
    hide Step, Inv, Leaves;
    if n == 0 {
    } else {
      OutcomesAreDepartures(ss, es, n - 1, id, defaults, canon);
      RunKeepsInv(ss, es, n - 1, defaults, canon);
      OneOutcomeWhenLeaving(ss[n - 1], es[n - 1], ss[n], defaults, canon, id);
    }
  }

  // ---------------------------------------------------------------- what is scheduled, and when it falls due

  /** A new job as the fill describes it: due a full horizon after the fill, kept for minutes after that. */
  ghost predicate IsScheduled(j: Job, input: ScheduleInput, nowMs: int, canon: string -> string) {
    && j.tradeId == input.tradeId && j.txHash == input.txHash && j.pairKey == canon(input.pairKey)
    && j.side == input.side && j.fillPrice == input.fillPrice && j.fillTsMs == input.fillTsMs
    && j.dueTsMs == input.fillTsMs + 1000 * j.horizonS
    && j.expiresTsMs - j.dueTsMs >= 120000 && 2 * (j.expiresTsMs - j.dueTsMs) >= 1000 * j.horizonS
    && (j.expiresTsMs - j.dueTsMs == 120000 || 2 * (j.expiresTsMs - j.dueTsMs) == 1000 * j.horizonS)
    && j.attempts == 0 && j.createdTsMs == nowMs
  }

  /** Whole seconds, at least one. */
  function WholeSeconds(horizon: real): int {
    if horizon < 1.0 then 1 else horizon.Floor
  }

  /** One of the requested horizons of the fill. */
  ghost predicate IsAskedFor(k: JobId, input: ScheduleInput, horizons: seq<real>) {
    k.tradeId == input.tradeId && exists i :: 0 <= i < |horizons| && k.horizonS == WholeSeconds(horizons[i])
  }

  /** One horizon: nothing if its job is pending, else one new job, with its timer in a started scheduler. */
  lemma AddHorizonSchedules(s: State, input: ScheduleInput, horizon: real, nowMs: int, canon: string -> string)
    ensures var r, k := AddHorizon(s, input, horizon, nowMs, canon), JobId(input.tradeId, WholeSeconds(horizon));
            && k in r.pending && r.started == s.started
            && (k in s.pending ==> r.pending == s.pending && r.timers == s.timers)
            && (k !in s.pending ==>
                  && r.pending == s.pending[k := r.pending[k]]
                  && r.pending[k].id == k && r.pending[k].horizonS == k.horizonS
                  && IsScheduled(r.pending[k], input, nowMs, canon)
                  && r.timers.Keys == s.timers.Keys + (if s.started then {k} else {})
                  && (forall x :: x in s.timers && x != k ==> r.timers[x] == s.timers[x])
                  && (s.started ==> r.timers[k] == MaxInt(nowMs, r.pending[k].dueTsMs)))
  {
  }

  lemma {:induction false} AddHorizonsSchedules(s: State, input: ScheduleInput, horizons: seq<real>, nowMs: int,
                                                canon: string -> string)
    ensures var r := AddHorizons(s, input, horizons, nowMs, canon);
            && (forall k :: k in s.pending ==> k in r.pending && r.pending[k] == s.pending[k])
            && (forall k :: k in r.pending && k !in s.pending ==>
                  r.pending[k].id == k && r.pending[k].horizonS == k.horizonS
                  && IsScheduled(r.pending[k], input, nowMs, canon))
            && (forall k :: k in r.pending && k !in s.pending ==> IsAskedFor(k, input, horizons))
            && (forall k :: IsAskedFor(k, input, horizons) ==> k in r.pending)
  {
    hide AddHorizon, IsScheduled, WholeSeconds;
    if horizons == [] {
    } else {
      var n := |horizons| - 1;
      AddHorizonsSchedules(s, input, horizons[..n], nowMs, canon);
      AddHorizonSchedules(AddHorizons(s, input, horizons[..n], nowMs, canon), input, horizons[n], nowMs, canon);
      AskedForLast(input, horizons);
    }
  }

  lemma AskedForLast(input: ScheduleInput, horizons: seq<real>)
    requires horizons != []
    ensures var n := |horizons| - 1;
            forall k :: IsAskedFor(k, input, horizons)
                    <==> IsAskedFor(k, input, horizons[..n]) || k == JobId(input.tradeId, WholeSeconds(horizons[n]))
  {
    hide WholeSeconds;
    var n := |horizons| - 1;
    assert forall i :: 0 <= i < n ==> horizons[..n][i] == horizons[i];
    forall k
      ensures IsAskedFor(k, input, horizons)
         <==> IsAskedFor(k, input, horizons[..n]) || k == JobId(input.tradeId, WholeSeconds(horizons[n]))
    {
    }
  }

  /** In a started scheduler every new job gets a timer for its due time, or for now if that has passed. */
  lemma {:induction false} AddHorizonsSetsTimers(s: State, input: ScheduleInput, horizons: seq<real>, nowMs: int,
                                                 canon: string -> string)
    requires TimersMatch(s)
    ensures var r := AddHorizons(s, input, horizons, nowMs, canon);
            && TimersMatch(r) && r.started == s.started
            && (forall k :: k in s.timers ==> k in r.timers && r.timers[k] == s.timers[k])
            && (forall k :: k in r.timers && k !in s.timers ==>
                  r.timers[k] == MaxInt(nowMs, r.pending[k].dueTsMs))
  {
    hide AddHorizon, IsScheduled, WholeSeconds;
    if horizons == [] {
    } else {
      var n := |horizons| - 1;
      AddHorizonsSetsTimers(s, input, horizons[..n], nowMs, canon);
      AddHorizonSchedules(AddHorizons(s, input, horizons[..n], nowMs, canon), input, horizons[n], nowMs, canon);
    }
  }

  /**
   Scheduling leaves the pending jobs alone and adds one for each requested horizon that has none: in whole seconds,
   due that many seconds after the fill, to be given up two minutes or half the horizon later.
   */
  lemma ScheduledJobsAreDue(s: State, input: ScheduleInput, nowMs: int, s': State, defaults: seq<real>,
                            canon: string -> string)
    requires Step(s, Schedule(input, nowMs), s', defaults, canon)
    ensures var horizons := if input.horizons != [] then input.horizons else defaults;
            && (forall k :: k in s.pending ==> k in s'.pending && s'.pending[k] == s.pending[k])
            && (forall k :: k in s'.pending && k !in s.pending ==>
                  s'.pending[k].id == k && s'.pending[k].horizonS == k.horizonS
                  && IsScheduled(s'.pending[k], input, nowMs, canon))
            && (forall k :: k in s'.pending <==> k in s.pending || IsAskedFor(k, input, horizons))
  {
    hide AddHorizons, Mirrors, IsScheduled, WholeSeconds;
    AddHorizonsSchedules(s, input, Horizons(input, defaults), nowMs, canon);
  }

  /** Due a full horizon after the fill. */
  predicate IsPunctual(j: Job) {
    j.dueTsMs == j.fillTsMs + 1000 * j.horizonS
  }

  /** Every outstanding job is due a horizon after its fill, and no timer is set for an earlier time. */
  ghost predicate Punctual(s: State, canon: string -> string) {
    && (forall k :: k in Outstanding(s, canon) ==> IsPunctual(Outstanding(s, canon)[k]))
    && (forall k :: k in s.timers && k in s.pending ==>
          s.timers[k] >= s.pending[k].fillTsMs + 1000 * s.pending[k].horizonS)
  }

  /** The host fires no timer before its time. */
  ghost predicate OnTime(s: State, e: Event) {
    e.Fire? && e.id in s.timers ==> e.env.nowMs >= s.timers[e.id]
  }

  /** A step keeps that, whatever horizons, clocks, restarts and retries it brings. */
  lemma StepKeepsPunctual(s: State, e: Event, s': State, defaults: seq<real>, canon: string -> string)
    requires Inv(s, canon) && Idempotent(canon) && FinitePrice(e) && Step(s, e, s', defaults, canon)
    requires Punctual(s, canon) && OnTime(s, e)
    ensures Punctual(s', canon)
  {
    hide Mirrors, Load, AddHorizons, Processed, Keyed, Outstanding, IsScheduled;
    StepKeepsInv(s, e, s', defaults, canon);
    match e
    case Start(nowMs) =>
      LoadReadsMirror(s, nowMs, canon);
      if !s.started {
        OutstandingIsPending(s', canon);
      }
    case Schedule(input, nowMs) =>
      var horizons := Horizons(input, defaults);
      AddHorizonsSchedules(s, input, horizons, nowMs, canon);
      AddHorizonsSetsTimers(s, input, horizons, nowMs, canon);
      OutstandingIsPending(s', canon);
      PendingIsOutstanding(s, canon);
      forall k | k in s'.pending
        ensures IsPunctual(s'.pending[k])
      {
        NewIsPunctual(s, s', k, input, nowMs, canon);
      }
    case Fire(id, env) =>
      PendingIsOutstanding(s, canon);
      ProcessedIsPunctual(s, id, env);
      OutstandingIsPending(s', canon);
    case Stop => SameFileSameJobs(s, s', canon);
    case Restart => RestartKeepsJobs(s, s', canon);
  }

  lemma NewIsPunctual(s: State, s': State, k: JobId, input: ScheduleInput, nowMs: int, canon: string -> string)
    requires k in s'.pending
    requires k in s.pending ==> s'.pending[k] == s.pending[k] && IsPunctual(s.pending[k])
    requires k !in s.pending ==> IsScheduled(s'.pending[k], input, nowMs, canon)
    ensures IsPunctual(s'.pending[k])
  {
  }

  lemma PendingIsOutstanding(s: State, canon: string -> string)
    requires Inv(s, canon)
    ensures forall k :: k in s.pending ==> k in Outstanding(s, canon) && Outstanding(s, canon)[k] == s.pending[k]
  {
    hide Mirrors, Keyed, Outstanding;
    if Mirrors(s.disk, s.pending) {
      OutstandingIsPending(s, canon);
    }
  }

  lemma ProcessedIsPunctual(s: State, id: JobId, env: Env)
    requires TimersMatch(s) && id in s.timers && env.nowMs >= s.timers[id]
    requires forall k :: k in s.pending ==> IsPunctual(s.pending[k])
    requires forall k :: k in s.timers && k in s.pending ==>
               s.timers[k] >= s.pending[k].fillTsMs + 1000 * s.pending[k].horizonS
    ensures var r := Processed(s, id, env);
            && (forall k :: k in r.pending ==> IsPunctual(r.pending[k]))
            && (forall k :: k in r.timers && k in r.pending ==>
                  r.timers[k] >= r.pending[k].fillTsMs + 1000 * r.pending[k].horizonS)
  {
    hide AfterMarkout, MarkPrice, MarkoutOf, TimedOut;
  }

  /** Over every run: whatever was scheduled, no timer is ever armed for less than a full horizon after the fill. */
  lemma {:induction false} RunIsPunctual(ss: seq<State>, es: seq<Event>, n: nat, defaults: seq<real>,
                                         canon: string -> string)
    requires IsRun(ss, es, defaults, canon) && Idempotent(canon) && Inv(ss[0], canon) && n < |ss|
    requires Punctual(ss[0], canon) && forall i :: 0 <= i < n ==> OnTime(ss[i], es[i])
    ensures Punctual(ss[n], canon)
  {
    hide Step, Inv, Punctual, OnTime;
    if n == 0 {
    } else {
      RunIsPunctual(ss, es, n - 1, defaults, canon);
      RunKeepsInv(ss, es, n - 1, defaults, canon);
      StepKeepsPunctual(ss[n - 1], es[n - 1], ss[n], defaults, canon);
    }
  }

  // ---------------------------------------------------------------- what a firing does

  /** The snapshot lookup gave a positive mid price. */
  predicate HasMid(env: Env) {
    match env.snapshotMid
    case None => false
    case Some(mid) => env.lookupError == None && mid > 0.0
  }

  /**
   A firing ends a pending job if and only if there is a mid price, or the job has expired, or this was its fifth
   attempt; otherwise it is tried again in 15 seconds.
   */
  lemma FiringEndsIff(s: State, id: JobId, env: Env, s': State, defaults: seq<real>, canon: string -> string)
    requires Step(s, Fire(id, env), s', defaults, canon) && id in s.pending
    ensures var job := s.pending[id];
            && (id !in s'.pending <==> HasMid(env) || env.nowMs >= job.expiresTsMs || job.attempts >= 4)
            && (id in s'.pending ==>
                  s'.pending[id] == job.(attempts := job.attempts + 1) && id in s'.timers
                  && s'.timers[id] == env.nowMs + 15000 && s'.trades == s.trades && s'.events == s.events)
  {
    hide AfterMarkout, MarkoutOf, Mirrors;
  }

  /** The markout stored for a job: of its own horizon, due and taken on time, with the price or the reason. */
  ghost predicate IsMarkoutOf(m: Markout, job: Job, env: Env) {
    && m.horizonS == job.horizonS && m.attempts == job.attempts + 1
    && m.dueTsMs == job.fillTsMs + 1000 * job.horizonS && m.markTsMs == env.nowMs
    && m.markTsMs >= m.dueTsMs
    && (HasMid(env) ==> m.status.Recorded? && m.markPrice == env.snapshotMid && m.missingReason.None?)
    && (!HasMid(env) ==> m.status.Missing? && m.markPrice.None? && m.markoutBps.None? && m.missingReason.Some?)
  }

  /** What is stored without a price: why there is none, for the trade with the job's hash, and the error met. */
  ghost predicate IsMissing(m: Markout, job: Job, env: Env, trades: seq<Trade>) {
    var timedOut := env.nowMs >= job.expiresTsMs || job.attempts >= 4;
    && m.missingReason.Some?
    && (m.missingReason.value == UnknownTrade
        <==> job.txHash == "" || forall t :: t in trades ==> t.core.hash != Some(job.txHash))
    && (m.missingReason.value == UnknownTrade
        || exists t :: t in trades && t.core.hash == Some(job.txHash)
                       && FitsReason(t, m.missingReason.value, env.lookupError, timedOut))
    && (match env.lookupError
        case None => m.lastError == None
        case Some(error) => m.lastError == Some(error.message))
  }

  /** The recorded figure is the move of the mid in the fill's favour, in bps of the fill price. */
  ghost predicate IsFavourableMove(m: Markout, job: Job)
    requires m.markPrice.Some? && job.fillPrice.Some?
  {
    var fill, mid := job.fillPrice.value, m.markPrice.value;
    var favourable := if job.side == Buy then mid - fill else fill - mid;
    && m.markoutBps.Some?
    && -0.005 * fill <= m.markoutBps.value * fill - 10000.0 * favourable <= 0.005 * fill
  }

  lemma MissingIsExplained(job: Job, env: Env, trades: seq<Trade>)
    requires MarkPrice(env).None?
    ensures IsMissing(MarkoutOf(TriedJob(job), env, trades), job, env, trades)
  {
    hide MissingReasonOf, FitsReason;
    MissingReasonMeaning(trades, job.txHash, env.lookupError, TimedOut(TriedJob(job), env));
  }

  /**
   The stored outcome in the job's own fields, in any state of a punctual run: the trade gets a markout that is due
   a full horizon after the fill and not taken before.
   */
  lemma StoredMarkoutIsTimely(s: State, id: JobId, env: Env, s': State, defaults: seq<real>, canon: string -> string)
    requires Inv(s, canon) && Punctual(s, canon) && OnTime(s, Fire(id, env))
    requires Step(s, Fire(id, env), s', defaults, canon) && Leaves(s, Fire(id, env), s', id) && !env.appendThrows
    requires var i := FindTrade(s.trades, s.pending[id].txHash, s.pending[id].tradeId);
             i >= 0 && HorizonsUnique(MarkoutsOf(s.trades[i]))
    ensures var job, i := s.pending[id], FindTrade(s.trades, s.pending[id].txHash, s.pending[id].tradeId);
            && |s'.trades| == |s.trades|
            && exists m :: m in MarkoutsOf(s'.trades[i]) && IsMarkoutOf(m, job, env)
                           && (m.markPrice.None? ==> IsMissing(m, job, env, s.trades))
                           && (m.markPrice.Some? && job.fillPrice.Some? && job.fillPrice.value > 0.0 ==>
                                 IsFavourableMove(m, job))
  {
    hide AfterMarkout, FindTrade, MarkoutsOf, Mirrors, PutMarkout, Outstanding, Keyed, ComputeMarkoutBps;
    hide MissingReasonOf, HorizonsUnique;
    var job := s.pending[id];
    LeavingStoresMarkout(s, id, env, s', defaults, canon);
    PendingIsOutstanding(s, canon);
    var m := MarkoutOf(TriedJob(job), env, s.trades);
    assert IsMarkoutOf(m, job, env);
    if m.markPrice.None? {
      MissingIsExplained(job, env, s.trades);
    }
    if m.markPrice.Some? && job.fillPrice.Some? && job.fillPrice.value > 0.0 {
      MarkoutIsFavourableMove(job.side, job.fillPrice.value, m.markPrice.value);
    }
  }
}
