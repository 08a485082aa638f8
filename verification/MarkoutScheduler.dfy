/**
 The markout scheduler: pending jobs, armed timers and their mirror on disk
 (src/analytics/tradeMarkoutScheduler.ts).
 */
module MarkoutScheduler {
  import opened Basics
  import opened Sorting
  import opened Trades
  import opened TradeStore

  const RETRY_INTERVAL_MS := 15000
  const MAX_ATTEMPTS := 5

  /** `"<trade id>:<horizon>"`: the horizon is a number, so the text determines both parts. */
  datatype JobId = JobId(tradeId: string, horizonS: int)

  /** `fillPrice` is `None` when the number is not finite. */
  datatype Job = Job(
    id: JobId, tradeId: string, txHash: string, pairKey: string, side: Side, fillPrice: Option<real>, fillTsMs: int,
    horizonS: int, dueTsMs: int, attempts: nat, createdTsMs: int, expiresTsMs: int)

  /** A record of the pending file; fields may be missing, and a number that is not finite is written as null. */
  datatype RawJob = RawJob(
    id: Option<JobId>, tradeId: Option<string>, txHash: Option<string>, pairKey: Option<string>, side: Option<Side>,
    fillPrice: Option<real>, fillTsMs: Option<int>, horizonS: Option<real>, dueTsMs: Option<int>,
    attempts: Option<real>, createdTsMs: Option<int>, expiresTsMs: Option<int>)

  datatype Lifecycle = MarkoutScheduled(id: JobId) | MarkoutRecorded(id: JobId) | MarkoutMissing(id: JobId)

  /** A failed lookup; `namesSource` tells whether the message speaks of the snapshot database. */
  datatype LookupError = LookupError(message: string, namesSource: bool)

  /**
   What a run of `processJob` meets: the clock, the snapshot's mid price or the failure of the lookup, and
   whether storing the markout throws.
   */
  datatype Env = Env(nowMs: int, snapshotMid: Option<real>, lookupError: Option<LookupError>, appendThrows: bool)

  datatype ScheduleInput = ScheduleInput(
    tradeId: string, txHash: string, pairKey: string, side: Side, fillPrice: Option<real>, fillTsMs: int,
    horizons: seq<real>)

  // ---------------------------------------------------------------- the pending file

  function ToDisk(j: Job): RawJob {
    RawJob(Some(j.id), Some(j.tradeId), Some(j.txHash), Some(j.pairKey), Some(j.side), j.fillPrice, Some(j.fillTsMs),
           Some(j.horizonS as real), Some(j.dueTsMs), Some(j.attempts as real), Some(j.createdTsMs),
           Some(j.expiresTsMs))
  }

  function NormalizePendingJob(r: RawJob, nowMs: int, canon: string -> string): Option<Job> {
    if r.id.None? || r.tradeId.None? || r.txHash.None? || r.pairKey.None? || r.side.None? then None
    else if r.fillPrice.None? || r.fillTsMs.None? || r.dueTsMs.None? || r.horizonS.None? then None
    else Some(Job(
      r.id.value, r.tradeId.value, r.txHash.value, canon(r.pairKey.value), r.side.value, r.fillPrice, r.fillTsMs.value,
      FloorAtLeastOne(r.horizonS.value), r.dueTsMs.value,
      if r.attempts.Some? then MaxInt(0, r.attempts.value.Floor) else 0,
      if r.createdTsMs.Some? then r.createdTsMs.value else nowMs,
      if r.expiresTsMs.Some? then r.expiresTsMs.value else r.dueTsMs.value + 180000))
  }

  /**
   Reading a record back. It is usable exactly with all its names and a finite fill price, fill time, due time and
   horizon; the horizon is cut to whole seconds, at least one. Missing counters start anew, and a missing expiry is
   three minutes after the due time.
   */
  lemma ReadJobMeaning(r: RawJob, nowMs: int, canon: string -> string)
    ensures var job := NormalizePendingJob(r, nowMs, canon);
            && (job.Some? <==> r.id.Some? && r.tradeId.Some? && r.txHash.Some? && r.pairKey.Some? && r.side.Some?
                               && r.fillPrice.Some? && r.fillTsMs.Some? && r.dueTsMs.Some? && r.horizonS.Some?)
            && (job.Some? ==> IsReadFrom(job.value, r, nowMs, canon))
  {
  }

  ghost predicate IsReadFrom(j: Job, r: RawJob, nowMs: int, canon: string -> string) {
    && Some(j.id) == r.id && Some(j.tradeId) == r.tradeId && Some(j.txHash) == r.txHash && Some(j.side) == r.side
    && j.fillPrice == r.fillPrice && Some(j.fillTsMs) == r.fillTsMs && Some(j.dueTsMs) == r.dueTsMs
    && r.pairKey.Some? && j.pairKey == canon(r.pairKey.value)
    && j.horizonS >= 1 && r.horizonS.Some?
    && (r.horizonS.value >= 1.0 ==> j.horizonS as real <= r.horizonS.value < j.horizonS as real + 1.0)
    && (r.horizonS.value < 1.0 ==> j.horizonS == 1)
    && (r.attempts.None? ==> j.attempts == 0)
    && (r.attempts.Some? && r.attempts.value < 0.0 ==> j.attempts == 0)
    && (r.attempts.Some? && r.attempts.value >= 0.0 ==>
          j.attempts as real <= r.attempts.value < j.attempts as real + 1.0)
    && (r.createdTsMs == Some(j.createdTsMs) || (r.createdTsMs.None? && j.createdTsMs == nowMs))
    && (r.expiresTsMs == Some(j.expiresTsMs) || (r.expiresTsMs.None? && j.expiresTsMs == j.dueTsMs + 180000))
  }

  /** A job as the scheduler creates it. */
  ghost predicate WellFormed(j: Job, canon: string -> string) {
    j.horizonS >= 1 && canon(j.pairKey) == j.pairKey && j.attempts < MAX_ATTEMPTS
  }

  /** A job survives being written and read back, unchanged, exactly when its fill price is finite. */
  lemma DiskRoundTrip(j: Job, nowMs: int, canon: string -> string)
    requires WellFormed(j, canon)
    ensures NormalizePendingJob(ToDisk(j), nowMs, canon) == if j.fillPrice.Some? then Some(j) else None
  {
  }

  function DueKey(r: RawJob): real {
    if r.dueTsMs.Some? then r.dueTsMs.value as real else 0.0
  }

  ghost predicate KeyedById(pending: map<JobId, Job>) {
    forall k :: k in pending ==> pending[k].id == k
  }

  ghost predicate Keyed(pending: map<JobId, Job>, canon: string -> string) {
    forall k :: k in pending ==> pending[k].id == k && WellFormed(pending[k], canon)
  }

  /** The file lists every pending job once, by due time. */
  ghost predicate Mirrors(disk: seq<RawJob>, pending: map<JobId, Job>) {
    && Sorted(disk, DueKey)
    && (forall i, j :: 0 <= i < j < |disk| ==> disk[i].id != disk[j].id)
    && (forall r :: r in disk ==> r.id.Some? && r.id.value in pending && r == ToDisk(pending[r.id.value]))
    && (forall k :: k in pending ==> ToDisk(pending[k]) in disk)
  }

  /** The file lists the jobs in order of their due times. */
  lemma MirrorIsByDueTime(disk: seq<RawJob>, pending: map<JobId, Job>)
    requires Mirrors(disk, pending)
    ensures forall i, j :: 0 <= i <= j < |disk| ==>
              disk[i].dueTsMs.Some? && disk[j].dueTsMs.Some? && disk[i].dueTsMs.value <= disk[j].dueTsMs.value
  {
    forall i, j | 0 <= i <= j < |disk|
      ensures disk[i].dueTsMs.Some? && disk[j].dueTsMs.Some? && disk[i].dueTsMs.value <= disk[j].dueTsMs.value
    {
      assert disk[i] in disk && disk[j] in disk;
      assert DueKey(disk[i]) <= DueKey(disk[j]);
    }
  }

  function LoadJob(pending: map<JobId, Job>, r: RawJob, nowMs: int, canon: string -> string): map<JobId, Job> {
    var job := NormalizePendingJob(r, nowMs, canon);
    if job.None? then pending else pending[job.value.id := job.value]
  }

  /** `loadPendingFromDisk`: later records win. */
  function Load(pending: map<JobId, Job>, disk: seq<RawJob>, nowMs: int, canon: string -> string): map<JobId, Job> {
    if disk == [] then pending
    else LoadJob(Load(pending, disk[..|disk| - 1], nowMs, canon), disk[|disk| - 1], nowMs, canon)
  }

  /** The job `k` is among the records and survives being read. */
  ghost predicate IsRead(disk: seq<RawJob>, pending: map<JobId, Job>, k: JobId) {
    k in pending && pending[k].fillPrice.Some? && ToDisk(pending[k]) in disk
  }

  /** What the first `n` records of a mirror do to one job, loaded over `before`. */
  lemma {:induction false} LoadMirrorPrefix(before: map<JobId, Job>, disk: seq<RawJob>, pending: map<JobId, Job>,
                                            n: nat, k: JobId, nowMs: int, canon: string -> string)
    requires Keyed(pending, canon) && Mirrors(disk, pending) && n <= |disk|
    ensures var r := Load(before, disk[..n], nowMs, canon);
            && (k in r <==> IsRead(disk[..n], pending, k) || k in before)
            && (k in r ==> r[k] == if IsRead(disk[..n], pending, k) then pending[k] else before[k])
  {
    hide NormalizePendingJob, ToDisk, WellFormed, Sorted;
    if n == 0 {
    } else {
      LoadMirrorPrefix(before, disk, pending, n - 1, k, nowMs, canon);
      var rec := disk[n - 1];
      assert disk[..n] == disk[..n - 1] + [rec];
      assert rec in disk;
      var id := rec.id.value;
      DiskRoundTrip(pending[id], nowMs, canon);
      ToDiskKeepsId(pending);
      assert disk[..n][..n - 1] == disk[..n - 1];
      assert IsRead(disk[..n], pending, k) <==>
             IsRead(disk[..n - 1], pending, k) || (k == id && pending[k].fillPrice.Some?);
    }
  }

  lemma ToDiskKeepsId(pending: map<JobId, Job>)
    ensures forall k :: k in pending ==> ToDisk(pending[k]).id == Some(pending[k].id)
  {
  }

  /** Loading a mirror of `pending` over nothing gives back exactly the jobs with a finite fill price. */
  lemma LoadMirror(before: map<JobId, Job>, disk: seq<RawJob>, pending: map<JobId, Job>, nowMs: int,
                   canon: string -> string)
    requires Keyed(pending, canon) && Mirrors(disk, pending)
    ensures before == map[] ==> Load(before, disk, nowMs, canon) == Finite(pending)
    ensures before == pending ==> Load(before, disk, nowMs, canon) == pending
  {
    hide NormalizePendingJob, ToDisk, WellFormed, Sorted, Load;
    assert disk[..|disk|] == disk;
    forall k
      ensures var r := Load(before, disk, nowMs, canon);
              && (k in r <==> IsRead(disk, pending, k) || k in before)
              && (k in r ==> r[k] == if IsRead(disk, pending, k) then pending[k] else before[k])
    {
      LoadMirrorPrefix(before, disk, pending, |disk|, k, nowMs, canon);
    }
  }

  function Finite(pending: map<JobId, Job>): map<JobId, Job> {
    map k | k in pending && pending[k].fillPrice.Some? :: pending[k]
  }

  ghost predicate AllFinite(pending: map<JobId, Job>) {
    forall k :: k in pending ==> pending[k].fillPrice.Some?
  }

  // ---------------------------------------------------------------- specification of the steps

  datatype State = State(
    started: bool, pending: map<JobId, Job>, timers: map<JobId, int>, events: seq<Lifecycle>, trades: seq<Trade>,
    disk: seq<RawJob>)

  function NewJob(input: ScheduleInput, h: int, nowMs: int, canon: string -> string): Job {
    var due := input.fillTsMs + h * 1000;
    Job(JobId(input.tradeId, h), input.tradeId, input.txHash, canon(input.pairKey), input.side, input.fillPrice,
        input.fillTsMs,
        h, due, 0, nowMs, due + MaxInt(120000, h * 500))
  }

  /** A timer fires at the due time, or at once when that has passed. */
  function FireTime(j: Job, nowMs: int): int {
    MaxInt(nowMs, j.dueTsMs)
  }

  function AddHorizon(s: State, input: ScheduleInput, horizon: real, nowMs: int, canon: string -> string): State {
    var h := FloorAtLeastOne(horizon);
    var id := JobId(input.tradeId, h);
    if id in s.pending then s
    else
      var job := NewJob(input, h, nowMs, canon);
      s.(pending := s.pending[id := job], events := s.events + [MarkoutScheduled(id)],
         timers := if s.started then s.timers[id := FireTime(job, nowMs)] else s.timers)
  }

  function AddHorizons(s: State, input: ScheduleInput, horizons: seq<real>, nowMs: int,
                       canon: string -> string): State {
    if horizons == [] then s
    else
      var n := |horizons| - 1;
      AddHorizon(AddHorizons(s, input, horizons[..n], nowMs, canon), input, horizons[n], nowMs, canon)
  }

  function Horizons(input: ScheduleInput, defaults: seq<real>): seq<real> {
    if input.horizons != [] then input.horizons else defaults
  }

  function TriedJob(j: Job): Job {
    j.(attempts := j.attempts + 1)
  }

  /** The usable mid price: present and positive. */
  function MarkPrice(env: Env): Option<real> {
    if env.lookupError.None? && env.snapshotMid.Some? && env.snapshotMid.value > 0.0 then env.snapshotMid else None
  }

  predicate TimedOut(tried: Job, env: Env) {
    env.nowMs >= tried.expiresTsMs || tried.attempts >= MAX_ATTEMPTS
  }

  /** Profit of the fill at the mark price in bps, to two decimals; 0 for prices that are not usable. */
  function ComputeMarkoutBps(side: Side, fillPrice: Option<real>, markPrice: real): real {
    if fillPrice.None? || fillPrice.value <= 0.0 || markPrice <= 0.0 then 0.0
    else
      var fill := fillPrice.value;
      var raw := if side.Buy? then ((markPrice - fill) / fill) * 10000.0 else ((fill - markPrice) / fill) * 10000.0;
      Round(raw * 100.0) as real / 100.0
  }

  /** A buy and a sell at the same prices have opposite markouts, up to the rounding of halves. */
  lemma MarkoutSides(fillPrice: real, markPrice: real)
    requires fillPrice > 0.0 && markPrice > 0.0
    ensures var buy := ComputeMarkoutBps(Buy, Some(fillPrice), markPrice);
            var sell := ComputeMarkoutBps(Sell, Some(fillPrice), markPrice);
            && 0.0 <= buy + sell <= 0.01
            && (markPrice >= fillPrice ==> sell <= 0.0 <= buy)
            && (markPrice <= fillPrice ==> buy <= 0.0 <= sell)
  {
    var q, p := (markPrice - fillPrice) / fillPrice, (fillPrice - markPrice) / fillPrice;
    QuotientSign(markPrice - fillPrice, fillPrice);
    QuotientTimes(markPrice - fillPrice, fillPrice);
    QuotientTimes(fillPrice - markPrice, fillPrice);
    assert p == -q by { OppositeQuotients(q, p, fillPrice); }
    OppositeRounds(q * 10000.0 * 100.0);
  }

  /** The recorded markout is the move in the fill's favour, in bps of the fill price, to within half a hundredth. */
  lemma MarkoutIsFavourableMove(side: Side, fillPrice: real, markPrice: real)
    requires fillPrice > 0.0 && markPrice > 0.0
    ensures var favourable := if side == Buy then markPrice - fillPrice else fillPrice - markPrice;
            var bps := ComputeMarkoutBps(side, Some(fillPrice), markPrice);
            -0.005 * fillPrice <= bps * fillPrice - 10000.0 * favourable <= 0.005 * fillPrice
  {
    hide ComputeMarkoutBps;
    var favourable := if side == Buy then markPrice - fillPrice else fillPrice - markPrice;
    var q, bps := favourable / fillPrice, ComputeMarkoutBps(side, Some(fillPrice), markPrice);
    QuotientTimes(favourable, fillPrice);
    RoundedToHundredths(side, fillPrice, markPrice, q);
    ScaledError(q, bps, fillPrice, favourable, bps * fillPrice);
  }

  /** Without a usable price on either end it is 0. */
  lemma NoMarkoutWithoutPrices(side: Side, fillPrice: Option<real>, markPrice: real)
    requires fillPrice.None? || fillPrice.value <= 0.0 || markPrice <= 0.0
    ensures ComputeMarkoutBps(side, fillPrice, markPrice) == 0.0
  {
  }

  lemma RoundedToHundredths(side: Side, fillPrice: real, markPrice: real, q: real)
    requires fillPrice > 0.0 && markPrice > 0.0
    requires q == (if side == Buy then markPrice - fillPrice else fillPrice - markPrice) / fillPrice
    ensures -0.005 <= ComputeMarkoutBps(side, Some(fillPrice), markPrice) - 10000.0 * q <= 0.005
  {
    hide Round;
    RoundIsNearest(q * 10000.0 * 100.0);
  }

  lemma ScaledError(q: real, bps: real, fill: real, favourable: real, product: real)
    requires fill > 0.0 && q * fill == favourable && product == bps * fill
    requires -0.005 <= bps - 10000.0 * q <= 0.005
    ensures -0.005 * fill <= product - 10000.0 * favourable <= 0.005 * fill
  {
    NonNegativeProduct(0.005 - bps + 10000.0 * q, fill, 0.005 * fill - product + 10000.0 * favourable);
    NonNegativeProduct(0.005 + bps - 10000.0 * q, fill, 0.005 * fill + product - 10000.0 * favourable);
  }

  lemma OppositeQuotients(q: real, p: real, f: real)
    requires f > 0.0 && q * f + p * f == 0.0
    ensures p == -q
  {
    assert (q + p) * f == 0.0;
  }

  lemma OppositeRounds(x: real)
    ensures 0 <= Round(x) + Round(-x) <= 1
    ensures x >= 0.0 ==> Round(-x) <= 0 <= Round(x)
    ensures x <= 0.0 ==> Round(x) <= 0 <= Round(-x)
  {
  }

  /** Why a markout is missing. `timedOut` is what `processJob` has found out by then. */
  function MissingReasonOf(trades: seq<Trade>, txHash: string, lookupError: Option<LookupError>,
                           timedOut: bool): MissingReason {
    var i := if txHash != "" then IndexOfHash(trades, txHash) else -1;
    if i == -1 then UnknownTrade
    else if !trades[i].core.status.Filled? && !trades[i].core.status.Partial? then TradeNotFilled
    else
      var validated := if trades[i].core.trace.Some? then trades[i].core.trace.value.validatedTsMs else None;
      if validated.None? || validated.value <= 0 then TxUnvalidated
      else if lookupError.Some? && lookupError.value.namesSource then PriceSourceDown
      else if timedOut then Timeout
      else NoLiquidity
  }

  predicate IsValidated(t: Trade) {
    match t.core.trace
    case None => false
    case Some(trace) => trace.validatedTsMs.Some? && trace.validatedTsMs.value > 0
  }

  /** The one reason that fits a trade: each excludes the ones before it. */
  predicate FitsReason(t: Trade, reason: MissingReason, lookupError: Option<LookupError>, timedOut: bool) {
    var executed := t.core.status == Filled || t.core.status == Partial;
    var down := lookupError.Some? && lookupError.value.namesSource;
    match reason
    case UnknownTrade => false
    case TradeNotFilled => !executed
    case TxUnvalidated => executed && !IsValidated(t)
    case PriceSourceDown => executed && IsValidated(t) && down
    case Timeout => executed && IsValidated(t) && !down && timedOut
    case NoLiquidity => executed && IsValidated(t) && !down && !timedOut
  }

  /** The reason is that of the trade with the job's hash, and `unknown_trade` exactly when there is none. */
  lemma MissingReasonMeaning(trades: seq<Trade>, txHash: string, lookupError: Option<LookupError>, timedOut: bool)
    ensures var reason := MissingReasonOf(trades, txHash, lookupError, timedOut);
            var known := txHash != "" && exists t :: t in trades && t.core.hash == Some(txHash);
            && (reason == UnknownTrade <==> !known)
            && (known ==> exists t :: t in trades && t.core.hash == Some(txHash)
                                      && FitsReason(t, reason, lookupError, timedOut))
  {
    var i := if txHash != "" then IndexOfHash(trades, txHash) else -1;
    if i != -1 {
      assert trades[i] in trades;
      assert FitsReason(trades[i], MissingReasonOf(trades, txHash, lookupError, timedOut), lookupError, timedOut);
    }
  }

  function MarkoutOf(tried: Job, env: Env, trades: seq<Trade>): Markout {
    var price := MarkPrice(env);
    if price.Some? then
      Markout(tried.horizonS, tried.dueTsMs, env.nowMs, price,
              Some(ComputeMarkoutBps(tried.side, tried.fillPrice, price.value)),
              MarkoutStatus.Recorded, None, tried.attempts, None)
    else
      Markout(tried.horizonS, tried.dueTsMs, env.nowMs, None, None, MarkoutStatus.Missing,
              Some(MissingReasonOf(trades, tried.txHash, env.lookupError, TimedOut(tried, env))), tried.attempts,
              if env.lookupError.Some? then Some(env.lookupError.value.message) else None)
  }

  /**
   An outcome is recorded with a price and its markout, or missing with a reason, never both. A job only
   leaves without a price once it has timed out, so the reason `no_liquidity` is never given.
   */
  lemma OutcomeIsComplete(tried: Job, env: Env, trades: seq<Trade>)
    requires MarkPrice(env).Some? || TimedOut(tried, env)
    ensures var m := MarkoutOf(tried, env, trades);
            && (m.status.Recorded? <==> m.markPrice.Some?) && (m.status.Recorded? <==> m.markoutBps.Some?)
            && (m.status.Recorded? <==> m.missingReason.None?)
            && m.missingReason != Some(NoLiquidity)
  {
  }

  /** `processJob` up to the disk write. The job is retried, or leaves with its outcome stored and announced. */
  function Processed(s: State, id: JobId, env: Env): State {
    var s1 := s.(timers := s.timers - {id});
    if id !in s.pending then s1
    else
      var tried := TriedJob(s.pending[id]);
      if MarkPrice(env).None? && !TimedOut(tried, env) then
        s1.(pending := s.pending[id := tried], timers := s1.timers[id := env.nowMs + RETRY_INTERVAL_MS])
      else
        var left := s1.(pending := s.pending - {id});
        if env.appendThrows then left
        else left.(trades := AfterMarkout(s.trades, tried.txHash, tried.tradeId, MarkoutOf(tried, env, s.trades)),
                   events := s.events + [if MarkPrice(env).Some? then MarkoutRecorded(id) else MarkoutMissing(id)])
  }

  function ArmAll(pending: map<JobId, Job>, timers: map<JobId, int>, nowMs: int): map<JobId, int> {
    timers + map k | k in pending :: FireTime(pending[k], nowMs)
  }

  datatype Event =
    | Start(nowMs: int)
    | Stop
    | Schedule(input: ScheduleInput, nowMs: int)
    | Fire(id: JobId, env: Env)
    | Restart  // the process ends and a new one begins with only the file

  /** One step of the scheduler with successful writes. A timer can only fire while it is armed. */
  ghost predicate Step(s: State, e: Event, s': State, defaults: seq<real>, canon: string -> string) {
    match e
    case Start(nowMs) =>
      if s.started then s' == s
      else
        var pending := Load(s.pending, s.disk, nowMs, canon);
        s' == s.(started := true, pending := pending, timers := ArmAll(pending, s.timers, nowMs))
    case Stop => s' == s.(started := false, timers := map[])
    case Schedule(input, nowMs) =>
      s' == AddHorizons(s, input, Horizons(input, defaults), nowMs, canon).(disk := s'.disk)
        && Mirrors(s'.disk, s'.pending)
    case Fire(id, env) =>
      id in s.timers && s' == Processed(s, id, env).(disk := s'.disk)
      && if id in s.pending then Mirrors(s'.disk, s'.pending) else s'.disk == s.disk
    case Restart => s' == s.(started := false, pending := map[], timers := map[])
  }

  // ---------------------------------------------------------------- the scheduler

  class TradeMarkoutScheduler {
    var started: bool
    var pendingJobs: map<JobId, Job>
    var timers: map<JobId, int>
    var events: seq<Lifecycle>
    var disk: seq<RawJob>
    const history: TradeHistoryService
    const defaults: seq<real>
    const canon: string -> string

    /** Every job is filed under its own id. */
    ghost predicate Valid()
      reads this
    {
      KeyedById(pendingJobs)
    }

    ghost function View(): State
      reads this, history
    {
      State(started, pendingJobs, timers, events, history.trades, disk)
    }

    /** A new process: nothing in memory, the file as it was left. */
    constructor (history: TradeHistoryService, disk: seq<RawJob>, defaults: seq<real>, canon: string -> string)
      ensures Valid() && View() == State(false, map[], map[], [], history.trades, disk)
      ensures this.history == history && this.defaults == defaults && this.canon == canon
    {
      started := false;
      pendingJobs := map[];
      timers := map[];
      events := [];
      this.disk := disk;
      this.history := history;
      this.defaults := defaults;
      this.canon := canon;
    }

    method Start(nowMs: int)
      requires Valid()
      modifies this
      ensures Valid()
      ensures Step(old(View()), Event.Start(nowMs), View(), defaults, canon)
    {
      hide Load, FireTime, Mirrors;
      if started {
        return;
      }
      started := true;
      LoadPendingFromDisk(nowMs);
      var todo := pendingJobs.Keys;
      while todo != {}
        invariant Valid() && todo <= pendingJobs.Keys
        invariant started && pendingJobs == Load(old(pendingJobs), disk, nowMs, canon)
        invariant disk == old(disk) && events == old(events)
        invariant timers.Keys == old(timers).Keys + (pendingJobs.Keys - todo)
        invariant forall k :: k in timers ==>
                    timers[k] == if k in pendingJobs && k !in todo then FireTime(pendingJobs[k], nowMs)
                      else old(timers)[k]
        decreases todo
      {
        var k :| k in todo;
        ScheduleTimer(pendingJobs[k], k, nowMs);
        todo := todo - {k};
      }
    }

    method Stop()
      requires Valid()
      modifies this
      ensures Valid()
      ensures Step(old(View()), Event.Stop, View(), defaults, canon)
    {
      timers := map[];
      started := false;
    }

    method Schedule(input: ScheduleInput, nowMs: int)
      requires Valid()
      modifies this
      ensures Valid()
      ensures Step(old(View()), Event.Schedule(input, nowMs), View(), defaults, canon)
    {
      var horizons := Horizons(input, defaults);
      for i := 0 to |horizons|
        invariant View() == AddHorizons(old(View()), input, horizons[..i], nowMs, canon)
        invariant Valid()
      {
        assert horizons[..i + 1][..i] == horizons[..i];
        var h := FloorAtLeastOne(horizons[i]);
        var jobId := JobId(input.tradeId, h);
        if jobId !in pendingJobs {
          var job := NewJob(input, h, nowMs, canon);
          pendingJobs := pendingJobs[jobId := job];
          events := events + [MarkoutScheduled(jobId)];
          if started {
            ScheduleTimer(job, jobId, nowMs);
          }
        }
      }
      assert horizons[..|horizons|] == horizons;
      SavePendingToDisk();
    }

    method ScheduleTimer(job: Job, id: JobId, nowMs: int)
      modifies this`timers
      ensures timers == old(timers)[id := FireTime(job, nowMs)]
    {
      timers := timers - {id};
      var delayMs := MaxInt(0, job.dueTsMs - nowMs);
      timers := timers[id := nowMs + delayMs];
    }

    method ProcessJob(id: JobId, env: Env)
      requires Valid() && id in timers
      modifies this, history
      ensures Valid()
      ensures Step(old(View()), Event.Fire(id, env), View(), defaults, canon)
    {
      hide TimedOut, MarkPrice, MarkoutOf, AfterMarkout, Mirrors, FindTrade;
      timers := timers - {id};
      if id !in pendingJobs {
        return;
      }
      var job := TriedJob(pendingJobs[id]);
      pendingJobs := pendingJobs[id := job];
      var markPrice := MarkPrice(env);
      if markPrice.None? && !TimedOut(job, env) {
        timers := timers[id := env.nowMs + RETRY_INTERVAL_MS];
        SavePendingToDisk();
        return;
      }
      if !env.appendThrows {
        var stored := history.AppendTradeMarkout(job.txHash, job.tradeId, MarkoutOf(job, env, history.trades));
        events := events + [if markPrice.Some? then MarkoutRecorded(id) else MarkoutMissing(id)];
      }
      assert pendingJobs - {id} == old(pendingJobs) - {id};
      pendingJobs := pendingJobs - {id};
      SavePendingToDisk();
    }

    method LoadPendingFromDisk(nowMs: int)
      requires Valid()
      modifies this`pendingJobs
      ensures Valid()
      ensures pendingJobs == Load(old(pendingJobs), disk, nowMs, canon)
    {
      for i := 0 to |disk|
        invariant Valid() && pendingJobs == Load(old(pendingJobs), disk[..i], nowMs, canon)
      {
        assert disk[..i + 1][..i] == disk[..i];
        var job := NormalizePendingJob(disk[i], nowMs, canon);
        if job.Some? {
          pendingJobs := pendingJobs[job.value.id := job.value];
        }
      }
      assert disk[..|disk|] == disk;
    }

    method SavePendingToDisk()
      requires Valid()
      modifies this`disk
      ensures Mirrors(disk, pendingJobs)
    {
      var todo := pendingJobs.Keys;
      var jobs: seq<RawJob> := [];
      while todo != {}
        invariant todo <= pendingJobs.Keys
        invariant forall i, j :: 0 <= i < j < |jobs| ==> jobs[i].id != jobs[j].id
        invariant forall r :: r in jobs ==>
                    r.id.Some? && r.id.value in pendingJobs && r.id.value !in todo
                      && r == ToDisk(pendingJobs[r.id.value])
        invariant forall k :: k in pendingJobs && k !in todo ==> ToDisk(pendingJobs[k]) in jobs
        decreases todo
      {
        var k :| k in todo;
        assert forall i :: 0 <= i < |jobs| ==> jobs[i] in jobs;
        jobs := jobs + [ToDisk(pendingJobs[k])];
        todo := todo - {k};
      }
      disk := StableSort(jobs, DueKey);
      SortedJobsMirror(jobs, pendingJobs);
    }
  }

  // ---------------------------------------------------------------- sorting the file

  ghost predicate IdsUnique(rs: seq<RawJob>) {
    forall i, j :: 0 <= i < j < |rs| ==> rs[i].id != rs[j].id
  }

  lemma {:induction false} InsertKeepsIdsUnique(r: RawJob, rs: seq<RawJob>)
    requires IdsUnique(rs) && forall x :: x in rs ==> x.id != r.id
    ensures IdsUnique(Insert(r, rs, DueKey))
  {
    if |rs| > 0 && DueKey(r) > DueKey(rs[0]) {
      var rest := Insert(r, rs[1..], DueKey);
      InsertKeepsIdsUnique(r, rs[1..]);
      forall x | x in rest
        ensures x.id != rs[0].id
      {
        assert x in multiset(rest);
        assert x == r || x in rs[1..];
      }
    }
  }

  lemma {:induction false} SortKeepsIdsUnique(rs: seq<RawJob>)
    requires IdsUnique(rs)
    ensures IdsUnique(StableSort(rs, DueKey))
  {
    if |rs| == 0 {
    } else {
      SortKeepsIdsUnique(rs[1..]);
      SortKeepsMembers(rs[1..], DueKey);
      InsertKeepsIdsUnique(rs[0], StableSort(rs[1..], DueKey));
    }
  }

  lemma SortedJobsMirror(jobs: seq<RawJob>, pending: map<JobId, Job>)
    requires IdsUnique(jobs)
    requires forall r :: r in jobs ==> r.id.Some? && r.id.value in pending && r == ToDisk(pending[r.id.value])
    requires forall k :: k in pending ==> ToDisk(pending[k]) in jobs
    ensures Mirrors(StableSort(jobs, DueKey), pending)
  {
    StableSortSorted(jobs, DueKey);
    SortKeepsIdsUnique(jobs);
    SortKeepsMembers(jobs, DueKey);
  }
}
