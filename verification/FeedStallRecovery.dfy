/**
 Staged recovery of stalled market-data feeds (src/market/feedStallRecovery.ts). A recovery is
 asynchronous, so it is split into the step that begins it and the step in which it completes.
 */
module FeedStallRecovery {
  import opened Basics

  datatype Stage = Healthy | Stage1 | Stage2 | Stage3

  datatype Config = Config(stage1ThresholdMs: int, stage2ThresholdMs: int, stage3ThresholdMs: int, cooldownMs: int)

  const DEFAULT_STALL_CONFIG := Config(30000, 60000, 120000, 15000)

  datatype State = State(stage: Stage, recovering: bool, lastTapeEventMs: int, lastBookEventMs: int,
                         lastRecoveryAttemptMs: int, recoveryAttempts: nat)

  const INITIAL := State(Healthy, false, 0, 0, 0, 0)

  // ---------------------------------------------------------------- classification

  /** Time since the last event; `None` is an infinite silence, before the first event. */
  function Silence(lastEventMs: int, nowMs: int): Option<int> {
    if lastEventMs > 0 then Some(nowMs - lastEventMs) else None
  }

  function Larger(a: Option<int>, b: Option<int>): Option<int> {
    if a.None? || b.None? then None else Some(MaxInt(a.value, b.value))
  }

  function Smaller(a: Option<int>, b: Option<int>): Option<int> {
    if a.None? then b else if b.None? then a else Some(if a.value <= b.value then a.value else b.value)
  }

  function MaxSilence(s: State, nowMs: int): Option<int> {
    var tapeSilence, bookSilence := Silence(s.lastTapeEventMs, nowMs), Silence(s.lastBookEventMs, nowMs);
    if Smaller(tapeSilence, bookSilence).None? then None else Larger(tapeSilence, bookSilence)
  }

  predicate Reaches(silence: Option<int>, thresholdMs: int) {
    silence.None? || silence.value >= thresholdMs
  }

  function ClassifyStage(silence: Option<int>, c: Config): Stage {
    if Reaches(silence, c.stage3ThresholdMs) then Stage3
    else if Reaches(silence, c.stage2ThresholdMs) then Stage2
    else if Reaches(silence, c.stage1ThresholdMs) then Stage1
    else Healthy
  }

  function StageOrdinal(stage: Stage): nat {
    match stage
    case Healthy => 0
    case Stage1 => 1
    case Stage2 => 2
    case Stage3 => 3
  }

  // ---------------------------------------------------------------- steps

  /** After an event: one live feed is enough to return to healthy. */
  function ResetIfAlive(s: State, nowMs: int, c: Config): State {
    if s.stage.Healthy? then s
    else if !Reaches(Silence(s.lastTapeEventMs, nowMs), c.stage1ThresholdMs)
         || !Reaches(Silence(s.lastBookEventMs, nowMs), c.stage1ThresholdMs)
    then s.(stage := Healthy, recoveryAttempts := 0)
    else s
  }

  function Escalated(s: State, nowMs: int, c: Config): State {
    var target := ClassifyStage(MaxSilence(s, nowMs), c);
    if StageOrdinal(target) > StageOrdinal(s.stage) then s.(stage := target) else s
  }

  predicate Begins(s: State, nowMs: int, c: Config) {
    !s.stage.Healthy? && !s.recovering && nowMs - s.lastRecoveryAttemptMs >= c.cooldownMs
  }

  function Begun(s: State, nowMs: int): State {
    s.(recovering := true, lastRecoveryAttemptMs := nowMs, recoveryAttempts := s.recoveryAttempts + 1)
  }

  function Evaluated(s: State, nowMs: int, c: Config): State {
    var e := Escalated(s, nowMs, c);
    if Begins(e, nowMs, c) then Begun(e, nowMs) else e
  }

  class FeedStallRecovery {
    var stage: Stage
    var recovering: bool
    var lastTapeEventMs: int
    var lastBookEventMs: int
    var lastRecoveryAttemptMs: int
    var recoveryAttempts: nat
    const config: Config

    function GetState(): State
      reads this
    {
      State(stage, recovering, lastTapeEventMs, lastBookEventMs, lastRecoveryAttemptMs, recoveryAttempts)
    }

    constructor (config: Config)
      ensures GetState() == INITIAL && this.config == config
    {
      stage, recovering := Healthy, false;
      lastTapeEventMs, lastBookEventMs, lastRecoveryAttemptMs := 0, 0, 0;
      recoveryAttempts := 0;
      this.config := config;
    }

    method RecordTapeEvent(nowMs: int)
      modifies this
      ensures GetState() == ResetIfAlive(old(GetState()).(lastTapeEventMs := nowMs), nowMs, config)
    {
      lastTapeEventMs := nowMs;
      TryResetToHealthy(nowMs);
    }

    method RecordBookEvent(nowMs: int)
      modifies this
      ensures GetState() == ResetIfAlive(old(GetState()).(lastBookEventMs := nowMs), nowMs, config)
    {
      lastBookEventMs := nowMs;
      TryResetToHealthy(nowMs);
    }

    method TryResetToHealthy(nowMs: int)
      modifies this
      ensures GetState() == ResetIfAlive(old(GetState()), nowMs, config)
    {
      if stage.Healthy? {
        return;
      }
      var tapeSilence := Silence(lastTapeEventMs, nowMs);
      var bookSilence := Silence(lastBookEventMs, nowMs);
      var eitherAlive :=
        !Reaches(tapeSilence, config.stage1ThresholdMs) || !Reaches(bookSilence, config.stage1ThresholdMs);
      if eitherAlive {
        stage := Healthy;
        recoveryAttempts := 0;
      }
    }

    /** `evaluate` up to the point where it waits for the recovery action. */
    method Evaluate(nowMs: int) returns (began: bool)
      modifies this
      ensures GetState() == Evaluated(old(GetState()), nowMs, config)
      ensures began <==> Begins(Escalated(old(GetState()), nowMs, config), nowMs, config)
    {
      var targetStage := ClassifyStage(MaxSilence(GetState(), nowMs), config);
      if StageOrdinal(targetStage) > StageOrdinal(stage) {
        stage := targetStage;
      }
      began := false;
      if !stage.Healthy? && !recovering {
        var sinceLastAttempt := nowMs - lastRecoveryAttemptMs;
        if sinceLastAttempt >= config.cooldownMs {
          BeginRecovery(nowMs);
          began := true;
        }
      }
    }

    method BeginRecovery(nowMs: int)
      modifies this
      ensures GetState() == Begun(old(GetState()), nowMs)
    {
      recovering := true;
      lastRecoveryAttemptMs := nowMs;
      recoveryAttempts := recoveryAttempts + 1;
    }

    /** The recovery action has succeeded or failed. */
    method FinishRecovery()
      modifies this
      ensures GetState() == old(GetState()).(recovering := false)
    {
      recovering := false;
    }

    method Reset()
      modifies this
      ensures GetState() == INITIAL
    {
      stage, recovering := Healthy, false;
      lastTapeEventMs, lastBookEventMs, lastRecoveryAttemptMs := 0, 0, 0;
      recoveryAttempts := 0;
    }
  }

  // ---------------------------------------------------------------- one evaluation

  /** The ternary that chooses the silence always yields the larger of the two. */
  lemma MaxSilenceIsLarger(s: State, nowMs: int)
    ensures MaxSilence(s, nowMs) == Larger(Silence(s.lastTapeEventMs, nowMs), Silence(s.lastBookEventMs, nowMs))
  {
  }

  /** An evaluation sets the stage to the higher of its old value and the class of the larger silence. */
  lemma EvaluateTakesMaximum(s: State, nowMs: int, c: Config)
    ensures var silence := Larger(Silence(s.lastTapeEventMs, nowMs), Silence(s.lastBookEventMs, nowMs));
            StageOrdinal(Evaluated(s, nowMs, c).stage)
              == MaxInt(StageOrdinal(s.stage), StageOrdinal(ClassifyStage(silence, c)))
  {
    MaxSilenceIsLarger(s, nowMs);
  }

  /** One of the two feeds has been silent for so long, or has never spoken. */
  predicate IsSilentFor(s: State, nowMs: int, lengthMs: int) {
    || s.lastTapeEventMs <= 0 || s.lastBookEventMs <= 0
    || nowMs - s.lastTapeEventMs >= lengthMs || nowMs - s.lastBookEventMs >= lengthMs
  }

  /**
   The stages in milliseconds: the third from the third threshold on, else the second from the second on, else the
   first from the first on, and no evaluation ever goes back.
   */
  lemma StageMeaning(s: State, nowMs: int, c: Config)
    ensures var stage := Evaluated(s, nowMs, c).stage;
            var silent1, silent2, silent3 := IsSilentFor(s, nowMs, c.stage1ThresholdMs),
                                             IsSilentFor(s, nowMs, c.stage2ThresholdMs),
                                             IsSilentFor(s, nowMs, c.stage3ThresholdMs);
            && (stage == Stage3 <==> s.stage == Stage3 || silent3)
            && (stage == Stage2 <==> !silent3 && s.stage != Stage3 && (s.stage == Stage2 || silent2))
            && (stage == Stage1 <==> !silent3 && !silent2 && (s.stage == Stage1 || (s.stage == Healthy && silent1)))
            && (stage == Healthy <==> !silent3 && !silent2 && !silent1 && s.stage == Healthy)
  {
    MaxSilenceIsLarger(s, nowMs);
  }

  /** It stays healthy exactly when it was and both feeds are live against every threshold. */
  lemma HealthyNeedsBothFeeds(s: State, nowMs: int, c: Config)
    ensures Evaluated(s, nowMs, c).stage.Healthy? <==>
              && s.stage.Healthy?
              && s.lastTapeEventMs > 0 && s.lastBookEventMs > 0
              && (forall t :: t in [c.stage1ThresholdMs, c.stage2ThresholdMs, c.stage3ThresholdMs] ==>
                    nowMs - s.lastTapeEventMs < t && nowMs - s.lastBookEventMs < t)
  {
    var ts := [c.stage1ThresholdMs, c.stage2ThresholdMs, c.stage3ThresholdMs];
    assert ts[0] in ts && ts[1] in ts && ts[2] in ts;
    MaxSilenceIsLarger(s, nowMs);
  }

  /** While one feed has never spoken, every evaluation goes to the last stage, however live the other is. */
  lemma OneSilentFeedEscalates(s: State, nowMs: int, c: Config)
    requires s.lastTapeEventMs <= 0 || s.lastBookEventMs <= 0
    ensures Evaluated(s, nowMs, c).stage == Stage3
  {
  }

  /** Yet any event, of either feed, returns to healthy. */
  lemma AnyEventResets(s: State, nowMs: int, c: Config)
    requires nowMs > 0 && c.stage1ThresholdMs > 0
    ensures ResetIfAlive(s.(lastTapeEventMs := nowMs), nowMs, c).stage.Healthy?
    ensures ResetIfAlive(s.(lastBookEventMs := nowMs), nowMs, c).stage.Healthy?
  {
  }

  // ---------------------------------------------------------------- runs

  datatype Event = Tape(nowMs: int) | Book(nowMs: int) | Evaluate(nowMs: int) | Finish | Reset

  /** The machine with what an observer sees: recoveries not yet completed, and when each one began. */
  datatype Run = Run(state: State, inFlight: nat, attempts: seq<int>)

  const START := Run(INITIAL, 0, [])

  function Step(r: Run, e: Event, c: Config): Run {
    match e
    case Tape(nowMs) => r.(state := ResetIfAlive(r.state.(lastTapeEventMs := nowMs), nowMs, c))
    case Book(nowMs) => r.(state := ResetIfAlive(r.state.(lastBookEventMs := nowMs), nowMs, c))
    case Evaluate(nowMs) =>
      var began := Begins(Escalated(r.state, nowMs, c), nowMs, c);
      Run(Evaluated(r.state, nowMs, c), if began then r.inFlight + 1 else r.inFlight,
          if began then r.attempts + [nowMs] else r.attempts)
    case Finish => if r.inFlight == 0 then r else r.(state := r.state.(recovering := false), inFlight := r.inFlight - 1)
    case Reset => r.(state := INITIAL)
  }

  function After(es: seq<Event>, c: Config): Run {
    if es == [] then START else Step(After(es[..|es| - 1], c), es[|es| - 1], c)
  }

  /** Over every interleaving, resets included: a healthy machine has no recovery attempts on its count. */
  lemma {:induction false} HealthyMeansNoAttempts(es: seq<Event>, c: Config)
    ensures After(es, c).state.stage.Healthy? ==> After(es, c).state.recoveryAttempts == 0
  {
    if es == [] {
    } else {
      HealthyMeansNoAttempts(es[..|es| - 1], c);
    }
  }

  ghost predicate NoReset(es: seq<Event>) {
    forall e :: e in es ==> !e.Reset?
  }

  /** The flag tells whether a recovery is in flight, and there is at most one. */
  ghost predicate OneRecovery(r: Run) {
    r.inFlight <= 1 && (r.state.recovering <==> r.inFlight == 1)
  }

  ghost predicate Spaced(attempts: seq<int>, cooldownMs: int) {
    forall i :: 0 < i < |attempts| ==> attempts[i] - attempts[i - 1] >= cooldownMs
  }

  /**
   Without `reset()`, at most one recovery is in flight and successive attempts are at least the
   cooldown apart, for every interleaving of events, ticks and completions.
   */
  lemma {:induction false} RecoveriesAreSingleAndSpaced(es: seq<Event>, c: Config)
    requires NoReset(es)
    ensures OneRecovery(After(es, c))
    ensures Spaced(After(es, c).attempts, c.cooldownMs)
    ensures var r := After(es, c);
            r.attempts != [] ==> r.state.lastRecoveryAttemptMs == r.attempts[|r.attempts| - 1]
  {
    hide Spaced;
    SingleIsSpaced(c.cooldownMs);
    if es == [] {
    } else {
      var n := |es| - 1;
      assert es[n] in es;
      RecoveriesAreSingleAndSpaced(es[..n], c);
      var before := After(es[..n], c).attempts;
      if After(es, c).attempts != before {
        SpacedJoin(before, [es[n].nowMs], c.cooldownMs);
      }
    }
  }

  lemma SingleIsSpaced(cooldownMs: int)
    ensures Spaced([], cooldownMs) && forall x :: Spaced([x], cooldownMs)
  {
  }

  lemma {:induction false} SpacingAddsUp(attempts: seq<int>, cooldownMs: int, i: nat, j: nat)
    requires Spaced(attempts, cooldownMs) && i <= j < |attempts|
    ensures attempts[j] - attempts[i] >= (j - i) * cooldownMs
  {
    if i < j {
      SpacingAddsUp(attempts, cooldownMs, i, j - 1);
      assert (j - i) * cooldownMs == (j - 1 - i) * cooldownMs + cooldownMs;
    }
  }

  /** So in any window of length L there are fewer than L / cooldown + 1 attempts. */
  lemma AttemptsPerWindow(es: seq<Event>, c: Config, fromMs: int, lengthMs: int, i: nat, j: nat)
    requires NoReset(es) && i <= j < |After(es, c).attempts|
    requires fromMs <= After(es, c).attempts[i] && After(es, c).attempts[j] < fromMs + lengthMs
    ensures (j - i) * c.cooldownMs < lengthMs
  {
    RecoveriesAreSingleAndSpaced(es, c);
    SpacingAddsUp(After(es, c).attempts, c.cooldownMs, i, j);
  }

  /** Every reset comes while no recovery is in flight. */
  ghost predicate IdleResets(es: seq<Event>, c: Config) {
    forall i :: 0 <= i < |es| && es[i].Reset? ==> After(es[..i], c).inFlight == 0
  }

  /** Resets of an idle machine, however many and wherever, never lead to two recoveries at once. */
  lemma {:induction false} IdleResetsAreSafe(es: seq<Event>, c: Config)
    requires IdleResets(es, c)
    ensures OneRecovery(After(es, c))
  {
    if es == [] {
    } else {
      var n := |es| - 1;
      forall i | 0 <= i < n
        ensures es[..n][i] == es[i] && es[..n][..i] == es[..i]
      {
      }
      IdleResetsAreSafe(es[..n], c);
    }
  }

  lemma AfterAppended(es: seq<Event>, e: Event, c: Config)
    ensures After(es + [e], c) == Step(After(es, c), e, c)
  {
    assert (es + [e])[..|es|] == es;
  }

  /** After a reset, busy or idle, the next evaluation past the cooldown begins a recovery. */
  lemma ResetAllowsAttempt(es: seq<Event>, nowMs: int, c: Config)
    requires nowMs >= c.cooldownMs
    ensures var before, after := After(es, c), After(es + [Reset] + [Evaluate(nowMs)], c);
            after.inFlight == before.inFlight + 1 && after.attempts == before.attempts + [nowMs]
  {
    hide After, Evaluated, Escalated, Begins;
    AfterAppended(es, Reset, c);
    AfterAppended(es + [Reset], Evaluate(nowMs), c);
    InitialBegins(nowMs, c);
  }

  lemma InitialBegins(nowMs: int, c: Config)
    requires nowMs >= c.cooldownMs
    ensures Begins(Escalated(INITIAL, nowMs, c), nowMs, c)
  {
  }

  /** Events after a run in which one recovery at most is in flight keep it so, unless they reset. */
  lemma {:induction false} StaysSingle(es: seq<Event>, more: seq<Event>, c: Config)
    requires OneRecovery(After(es, c)) && NoReset(more)
    ensures OneRecovery(After(es + more, c))
  {
    if more == [] {
      assert es + more == es;
    } else {
      var n := |more| - 1;
      assert more[n] in more;
      StaysSingle(es, more[..n], c);
      assert es + more == es + more[..n] + [more[n]];
      AfterAppended(es + more[..n], more[n], c);
    }
  }

  /**
   Over every run: after a reset no continuation ever has two recoveries in flight if and only if
   nothing was in flight when the reset came.
   */
  lemma ResetIsSafeIff(es: seq<Event>, c: Config)
    requires OneRecovery(After(es, c))
    ensures (forall more :: NoReset(more) ==> After(es + [Reset] + more, c).inFlight <= 1)
       <==> After(es, c).inFlight == 0
  {
    if After(es, c).inFlight == 0 {
      AfterAppended(es, Reset, c);
      forall more | NoReset(more)
        ensures After(es + [Reset] + more, c).inFlight <= 1
      {
        StaysSingle(es + [Reset], more, c);
      }
    } else {
      ResetAllowsAttempt(es, c.cooldownMs, c);
      assert NoReset([Evaluate(c.cooldownMs)]);
    }
  }

  ghost predicate From(es: seq<Event>, nowMs: int) {
    forall e :: e in es && e.Evaluate? ==> e.nowMs >= nowMs
  }

  lemma ResetKeepsAttempts(es: seq<Event>, c: Config)
    ensures After(es + [Reset], c).attempts == After(es, c).attempts + []
  {
    AfterAppended(es, Reset, c);
  }

  /** The attempts of a continuation after a reset. */
  lemma {:induction false} AttemptsAfterReset(es: seq<Event>, more: seq<Event>, nowMs: int, c: Config)
    returns (later: seq<int>)
    requires NoReset(more) && From(more, nowMs)
    ensures var after := After(es + [Reset] + more, c);
            && after.attempts == After(es, c).attempts + later && Spaced(later, c.cooldownMs)
            && (later != [] ==> later[0] >= nowMs && after.state.lastRecoveryAttemptMs == later[|later| - 1])
  {
    hide After, Step, Spaced;
    SingleIsSpaced(c.cooldownMs);
    if more == [] {
      assert es + [Reset] + more == es + [Reset];
      ResetKeepsAttempts(es, c);
      later := [];
    } else {
      var n := |more| - 1;
      assert more[n] in more;
      var before := AttemptsAfterReset(es, more[..n], nowMs, c);
      assert es + [Reset] + more == es + [Reset] + more[..n] + [more[n]];
      AfterAppended(es + [Reset] + more[..n], more[n], c);
      later := NextAttempts(After(es + [Reset] + more[..n], c), After(es, c).attempts, before, more[n], c);
    }
  }

  lemma NextAttempts(r: Run, earlier: seq<int>, later: seq<int>, e: Event, c: Config) returns (next: seq<int>)
    requires !e.Reset? && r.attempts == earlier + later && Spaced(later, c.cooldownMs)
    requires later != [] ==> r.state.lastRecoveryAttemptMs == later[|later| - 1]
    ensures Step(r, e, c).attempts == earlier + next && Spaced(next, c.cooldownMs) && later <= next
    ensures next != [] ==> Step(r, e, c).state.lastRecoveryAttemptMs == next[|next| - 1]
    ensures next == later || (e.Evaluate? && next == later + [e.nowMs])
  {
    next := later;
    if e.Evaluate? && Begins(Escalated(r.state, e.nowMs, c), e.nowMs, c) {
      next := later + [e.nowMs];
      assert r.attempts + [e.nowMs] == earlier + next;
    }
  }

  /**
   A reset also forgets the cooldown: with the clock at `nowMs`, attempts stay a cooldown apart on every
   continuation if and only if there was none yet or the last one is a cooldown ago.
   */
  lemma ResetKeepsSpacingIff(es: seq<Event>, nowMs: int, c: Config)
    requires NoReset(es) && c.cooldownMs > 0
    requires var before := After(es, c).attempts; before != [] ==> before[|before| - 1] <= nowMs
    ensures var before := After(es, c).attempts;
            (forall more :: NoReset(more) && From(more, nowMs) ==>
                Spaced(After(es + [Reset] + more, c).attempts, c.cooldownMs))
            <==> before == [] || nowMs - before[|before| - 1] >= c.cooldownMs
  {
    hide Step, Spaced;
    var before := After(es, c).attempts;
    RecoveriesAreSingleAndSpaced(es, c);
    if before == [] || nowMs - before[|before| - 1] >= c.cooldownMs {
      forall more | NoReset(more) && From(more, nowMs)
        ensures Spaced(After(es + [Reset] + more, c).attempts, c.cooldownMs)
      {
        var later := AttemptsAfterReset(es, more, nowMs, c);
        SpacedJoin(before, later, c.cooldownMs);
      }
    } else {
      FirstAttemptWaits(es, c);
      SingleIsSpaced(c.cooldownMs);
      ResetAllowsAttempt(es, nowMs, c);
      SpacedJoin(before, [nowMs], c.cooldownMs);
      assert NoReset([Evaluate(nowMs)]) && From([Evaluate(nowMs)], nowMs);
    }
  }

  lemma SpacedJoin(a: seq<int>, b: seq<int>, cooldownMs: int)
    requires Spaced(a, cooldownMs) && Spaced(b, cooldownMs)
    ensures Spaced(a + b, cooldownMs) <==> a == [] || b == [] || b[0] - a[|a| - 1] >= cooldownMs
  {
    if a != [] && b != [] {
      assert (a + b)[|a|] == b[0] && (a + b)[|a| - 1] == a[|a| - 1];
    }
  }

  /** Even the first attempt comes a cooldown after time 0. */
  lemma {:induction false} FirstAttemptWaits(es: seq<Event>, c: Config)
    requires NoReset(es) && c.cooldownMs > 0
    ensures var r := After(es, c);
            if r.attempts == [] then r.state.lastRecoveryAttemptMs == 0
            else c.cooldownMs <= r.state.lastRecoveryAttemptMs == r.attempts[|r.attempts| - 1]
  {
    if es == [] {
    } else {
      var n := |es| - 1;
      assert es[n] in es;
      FirstAttemptWaits(es[..n], c);
    }
  }

  /** A reset during a recovery lets a second one begin at once beside it. */
  lemma ResetDuringRecovery()
    ensures var es := [Evaluate(15000), Reset, Evaluate(15001)];
            var r := After(es, DEFAULT_STALL_CONFIG);
            r.inFlight == 2 && r.attempts == [15000, 15001]
  {
    var c := DEFAULT_STALL_CONFIG;
    var e1, e2, e3 := [Evaluate(15000)], [Evaluate(15000), Reset], [Evaluate(15000), Reset, Evaluate(15001)];
    assert e1[..0] == [] && e2[..1] == e1 && e3[..2] == e2;
    assert After(e1, c) == Run(State(Stage3, true, 0, 0, 15000, 1), 1, [15000]);
    assert After(e2, c) == Run(INITIAL, 1, [15000]);
  }
}
