/** Every run whose environment reads a clock that never runs backwards is a real one. */
module RefreshReal {
  import opened Common
  import opened Lifetime
  import opened Alerts
  import opened RefreshModel
  import opened RefreshSpec
  import opened RefreshLawful

  // ----- The clock, from the events alone -----

  function ClockAfter(clock: Time, e: Event): Time {
    match e
    case Sampled(at, _, _) => at
    case RecoveryBegan(at) => at
    case AttemptBegan(at) => at
    case AttemptFailed(at, _, sleep) => at + Max(0, sleep)
    case RecoveryApplied(_, at) => at
    case Armed(at, _, _) => at
    case _ => clock
  }

  function ClockOf(clock: Time, log: seq<Event>): Time {
    if log == [] then clock else ClockAfter(ClockOf(clock, log[..|log| - 1]), log[|log| - 1])
  }

  predicate InTime(cfg: Config, clock: Time, e: Event) {
    match e
    case Sampled(at, _, _) => clock <= at && 0 < at
    case RecoveryBegan(at) => clock <= at
    case AttemptBegan(at) => clock <= at && 0 < at
    case AttemptFailed(at, _, _) => clock <= at
    case RecoveryApplied(_, at) => clock <= at && 0 < at
    case Armed(at, _, draw) => clock <= at && DrawOk(cfg.jitterMax, draw)
    case _ => true
  }

  predicate InOrder(cfg: Config, clock: Time, log: seq<Event>) {
    log == [] ||
    (InOrder(cfg, clock, log[..|log| - 1]) && InTime(cfg, ClockOf(clock, log[..|log| - 1]), log[|log| - 1]))
  }

  lemma StepInTime(cfg: Config, s: State, e: Event)
    ensures Apply(cfg, s, e).clock == ClockAfter(s.clock, e)
    ensures Timely(cfg, s, e) <==> InTime(cfg, s.clock, e)
  {
  }

  lemma {:induction false} TimelyIsInOrder(cfg: Config, s: State, trace: seq<Event>)
    ensures Replay(cfg, s, trace).clock == ClockOf(s.clock, trace)
    ensures AllTimely(cfg, s, trace) <==> InOrder(cfg, s.clock, trace)
  {
    if trace != [] {
      var init := trace[..|trace| - 1];
      TimelyIsInOrder(cfg, s, init);
      StepInTime(cfg, Replay(cfg, s, init), trace[|trace| - 1]);
    }
  }

  lemma {:induction false} InOrderConcat(cfg: Config, clock: Time, a: seq<Event>, b: seq<Event>)
    ensures ClockOf(clock, a + b) == ClockOf(ClockOf(clock, a), b)
    ensures InOrder(cfg, clock, a + b) <==> InOrder(cfg, clock, a) && InOrder(cfg, ClockOf(clock, a), b)
    decreases |b|
  {
    if b == [] {
      assert a + b == a;
    } else {
      InOrderConcat(cfg, clock, a, b[..|b| - 1]);
      assert (a + b)[..|a + b| - 1] == a + b[..|b| - 1];
    }
  }

  lemma {:induction false} InOrderFew(cfg: Config, clock: Time, a: Event, b: Event, c: Event)
    ensures ClockOf(clock, [a]) == ClockAfter(clock, a)
    ensures ClockOf(clock, [a, b]) == ClockAfter(ClockAfter(clock, a), b)
    ensures ClockOf(clock, [a, b, c]) == ClockAfter(ClockAfter(ClockAfter(clock, a), b), c)
    ensures InOrder(cfg, clock, [a]) <==> InTime(cfg, clock, a)
    ensures InOrder(cfg, clock, [a, b]) <==> InTime(cfg, clock, a) && InTime(cfg, ClockAfter(clock, a), b)
    ensures InOrder(cfg, clock, [a, b, c]) <==>
              && InTime(cfg, clock, a) && InTime(cfg, ClockAfter(clock, a), b)
              && InTime(cfg, ClockAfter(ClockAfter(clock, a), b), c)
  {
    assert [a][..0] == [] && [a, b][..1] == [a] && [a, b, c][..2] == [a, b];
  }

  /** A lawful run that extends a real one is real when the new events are in order. */
  lemma {:induction false} ExtensionIsReal(cfg: Config, m: Machine, longer: Machine, log: seq<Event>)
    requires Real(cfg, m) && Lawful(cfg, longer) && longer.init == m.init && longer.trace == m.trace + log
    requires InOrder(cfg, m.s.clock, log)
    ensures Real(cfg, longer)
    ensures longer.s.clock == ClockOf(m.s.clock, log)
  {
    TimelyIsInOrder(cfg, m.init, m.trace);
    TimelyIsInOrder(cfg, m.init, longer.trace);
    InOrderConcat(cfg, m.init.clock, m.trace, log);
  }

  // ----- What the environment owes -----

  predicate ArmInTime(cfg: Config, clock: Time, env: ArmEnv) {
    clock <= env.at && DrawOk(cfg.jitterMax, env.draw)
  }

  predicate AttemptInTime(cfg: Config, clock: Time, env: AttemptEnv) {
    clock <= env.start && 0 < env.start && (Succeeds(cfg, env) ==> ArmInTime(cfg, env.start, env.arm))
  }

  predicate FailureInTime(env: AttemptEnv) {
    env.start <= env.failedAt
  }

  /** When failed attempt i has paused. */
  function Paused(cfg: Config, env: RegenEnv, i: nat): Time
    requires i < |env.attempts|
  {
    env.attempts[i].failedAt + Max(0, Backoff(cfg, i))
  }

  /** When attempt i may begin. */
  function Earlier(cfg: Config, clock: Time, env: RegenEnv, i: nat): Time
    requires i <= |env.attempts|
  {
    if i == 0 then clock else Paused(cfg, env, i - 1)
  }

  /** The attempts that are reached follow each other, each after the pause before it. */
  predicate RegenInTime(cfg: Config, clock: Time, reactive: bool, env: RegenEnv)
    requires Enough(env)
  {
    var k := FirstSuccess(cfg, env, 0);
    && (forall i | 0 <= i <= k && i < MAX_ATTEMPTS ::
          AttemptInTime(cfg, Earlier(cfg, clock, env, i), env.attempts[i]))
    && (forall i | 0 <= i < k :: FailureInTime(env.attempts[i]))
    && (k < MAX_ATTEMPTS && reactive ==> env.attempts[k].arm.at <= env.endAt && 0 < env.endAt)
  }

  predicate TickInTime(cfg: Config, m: Machine, env: TickEnv)
    requires Enough(env.regen)
  {
    var m1, m2 := Observe(cfg, m, env.healthy, env.now), HealthTick(cfg, m, env);
    && m.s.clock <= env.now && 0 < env.now
    && (!env.healthy && Recovers(cfg, m1.s, env.checkAt) ==>
          env.now <= env.checkAt && RegenInTime(cfg, env.checkAt, true, env.regen))
    && (Rearms(cfg, m2.s, env.rearm) ==> ArmInTime(cfg, m2.s.clock, env.rearm.arm))
  }

  predicate IterationInTime(cfg: Config, m: Machine, it: Iteration)
    requires IterationOk(it)
  {
    match it
    case Tick(tick) => TickInTime(cfg, m, tick)
    case Proactive(regen, arm) =>
      RegenInTime(cfg, m.s.clock, false, regen) && ArmInTime(cfg, Regenerate(cfg, m, false, regen).s.clock, arm)
  }

  predicate StartInTime(cfg: Config, m: Machine, env: StartEnv)
    requires Enough(env.regen)
  {
    if env.adoptHealthy && Adopts(cfg, m.s, env.adopt)
    then m.s.clock <= env.adopt.now && 0 < env.adopt.now && ArmInTime(cfg, env.adopt.now, env.arm)
    else RegenInTime(cfg, m.s.clock, false, env.regen) &&
         ArmInTime(cfg, Regenerate(cfg, m, false, env.regen).s.clock, env.arm)
  }

  predicate RunInTime(cfg: Config, init: State, start: StartEnv, its: seq<Iteration>)
    requires Enough(start.regen) && AllOk(its)
  {
    if its == [] then StartInTime(cfg, Machine(init, init, []), start)
    else
      RunInTime(cfg, init, start, its[..|its| - 1]) &&
      IterationInTime(cfg, Run(cfg, init, start, its[..|its| - 1]), its[|its| - 1])
  }

  // ----- Every such run is real -----

  lemma ObserveReal(cfg: Config, m: Machine, healthy: bool, now: Time)
    requires Real(cfg, m) && AtRest(m) && m.s.clock <= now && 0 < now
    ensures Real(cfg, Observe(cfg, m, healthy, now)) && Observe(cfg, m, healthy, now).s.clock == now
  {
    EmitKeepsLawful(cfg, m, Sampled(now, healthy, if healthy then RecoveredNotice(m.s.policy, now) else None));
  }

  lemma SetTimerReal(cfg: Config, m: Machine, env: ArmEnv)
    requires Real(cfg, m) && AtRest(m) && ArmInTime(cfg, m.s.clock, env)
    ensures Real(cfg, SetTimer(cfg, m, env)) && SetTimer(cfg, m, env).s.clock == env.at
  {
    EmitKeepsLawful(cfg, m, Armed(env.at, env.readable, env.draw));
    EmitKeepsLawful(cfg, Arm(cfg, m, env), TimerReset);
  }

  lemma LoadLogShape(cfg: Config, env: AttemptEnv)
    ensures var armed := Armed(env.arm.at, env.arm.readable, env.arm.draw);
            LoadLog(cfg, env) == if cfg.restarts
                                 then (if env.restart.RestartOk? then [Restarted, Applied, armed]
                                       else if env.restart.RestartRefused? then [] else [Restarted])
                                 else [Applied, armed]
  {
  }

  lemma {:induction false} ObtainInOrder(cfg: Config, clock: Time, env: AttemptEnv)
    requires AttemptInTime(cfg, clock, env)
    ensures InOrder(cfg, clock, ObtainLog(env)) && ClockOf(clock, ObtainLog(env)) == env.start
  {
    InOrderFew(cfg, clock, AttemptBegan(env.start), Minted(env.start), ConfigWritten);
  }

  lemma {:induction false} HandOverInOrder(cfg: Config, clock: Time, env: AttemptEnv)
    ensures InOrder(cfg, clock, HandOverLog(cfg, env)) && ClockOf(clock, HandOverLog(cfg, env)) == clock
  {
    var birth := if env.birthIO.StoreOk? then BirthRecorded(env.start) else BirthLost;
    InOrderFew(cfg, clock, birth, PendingWritten, Restarted);
  }

  lemma {:induction false} LoadInOrder(cfg: Config, clock: Time, env: AttemptEnv)
    requires Loads(cfg, env) ==> ArmInTime(cfg, clock, env.arm)
    ensures InOrder(cfg, clock, LoadLog(cfg, env))
    ensures ClockOf(clock, LoadLog(cfg, env)) == if Loads(cfg, env) then env.arm.at else clock
  {
    var armed := Armed(env.arm.at, env.arm.readable, env.arm.draw);
    LoadLogShape(cfg, env);
    InOrderFew(cfg, clock, Restarted, Applied, armed);
    InOrderFew(cfg, clock, Applied, armed, armed);
  }

  lemma {:induction false} AttemptLogInOrder(cfg: Config, clock: Time, env: AttemptEnv)
    requires AttemptInTime(cfg, clock, env)
    ensures InOrder(cfg, clock, AttemptLog(cfg, env))
    ensures ClockOf(clock, AttemptLog(cfg, env)) == if Succeeds(cfg, env) then env.arm.at else env.start
  {
    ObtainInOrder(cfg, clock, env);
    if Obtains(env) {
      HandOverInOrder(cfg, env.start, env);
      InOrderConcat(cfg, clock, ObtainLog(env), HandOverLog(cfg, env));
      if HandsOver(cfg, env) {
        LoadInOrder(cfg, env.start, env);
        InOrderConcat(cfg, clock, ObtainLog(env) + HandOverLog(cfg, env), LoadLog(cfg, env));
      }
    }
  }

  lemma OnceReal(cfg: Config, m: Machine, env: AttemptEnv)
    requires Real(cfg, m) && m.s.stage.Resting? && !m.s.phase.Began? && AttemptInTime(cfg, m.s.clock, env)
    ensures Real(cfg, RegenerateOnce(cfg, m, env))
    ensures RegenerateOnce(cfg, m, env).s.clock == if Succeeds(cfg, env) then env.arm.at else env.start
  {
    OnceLawful(cfg, m, env);
    AttemptLogInOrder(cfg, m.s.clock, env);
    ExtensionIsReal(cfg, m, RegenerateOnce(cfg, m, env), AttemptLog(cfg, env));
  }

  lemma FailureEventReal(cfg: Config, m: Machine, longer: Machine, e: Event)
    requires Real(cfg, m) && Lawful(cfg, longer) && longer.init == m.init && longer.trace == m.trace + [e]
    requires e.AttemptFailed? && m.s.clock <= e.at
    ensures Real(cfg, longer) && longer.s.clock == e.at + Max(0, e.sleep)
  {
    InOrderFew(cfg, m.s.clock, e, e, e);
    ExtensionIsReal(cfg, m, longer, [e]);
  }

  lemma {:induction false} NoteFailureReal(cfg: Config, m: Machine, at: Time, i: nat)
    requires Real(cfg, m) && Lawful(cfg, NoteFailure(cfg, m, at, i)) && m.s.clock <= at
    ensures Real(cfg, NoteFailure(cfg, m, at, i))
    ensures NoteFailure(cfg, m, at, i).s.clock == at + Max(0, Backoff(cfg, i))
  {
    FailureEventReal(cfg, m, NoteFailure(cfg, m, at, i), AttemptFailed(at, FailureAlert(m.s.policy), Backoff(cfg, i)));
  }

  lemma {:induction false} FailedAttemptReal(cfg: Config, m: Machine, env: AttemptEnv, i: nat)
    requires Real(cfg, m) && m.s.stage.Resting? && !m.s.phase.Began? && !Succeeds(cfg, env)
    requires AttemptInTime(cfg, m.s.clock, env) && FailureInTime(env)
    ensures Real(cfg, FailedAttempt(cfg, m, env, i))
    ensures FailedAttempt(cfg, m, env, i).s.clock == env.failedAt + Max(0, Backoff(cfg, i))
  {
    OnceReal(cfg, m, env);
    FailedAttemptLawful(cfg, m, env, i);
    NoteFailureReal(cfg, RegenerateOnce(cfg, m, env), env.failedAt, i);
  }

  lemma {:induction false} ReachedInTime(cfg: Config, clock: Time, reactive: bool, env: RegenEnv, i: nat)
    requires Enough(env) && RegenInTime(cfg, clock, reactive, env) && i <= FirstSuccess(cfg, env, 0)
    ensures i < MAX_ATTEMPTS ==> AttemptInTime(cfg, Earlier(cfg, clock, env, i), env.attempts[i])
    ensures i < FirstSuccess(cfg, env, 0) ==> FailureInTime(env.attempts[i]) && !Succeeds(cfg, env.attempts[i])
  {
  }

  /** A real run in which an attempt may begin, at the given clock reading. */
  ghost predicate PoisedAt(cfg: Config, m: Machine, reactive: bool, clock: Time) {
    Real(cfg, m) && ReadyToTry(m, reactive) && m.s.clock == clock
  }

  lemma {:induction false} NextFailureReal(cfg: Config, m: Machine, reactive: bool, env: RegenEnv, i: nat, k: nat,
                                           before: Machine)
    returns (after: Machine)
    requires Enough(env) && k == FirstSuccess(cfg, env, 0) && i < k && RegenInTime(cfg, m.s.clock, reactive, env)
    requires before == AfterFailures(cfg, m, env, i)
    requires PoisedAt(cfg, before, reactive, Earlier(cfg, m.s.clock, env, i))
    ensures after == AfterFailures(cfg, m, env, i + 1)
    ensures PoisedAt(cfg, after, reactive, Earlier(cfg, m.s.clock, env, i + 1))
  {
    after := FailedAttempt(cfg, before, env.attempts[i], i);
    ReachedInTime(cfg, m.s.clock, reactive, env, i);
    FailedAttemptLawful(cfg, before, env.attempts[i], i);
    FailedAttemptReal(cfg, before, env.attempts[i], i);
    OneMoreFailure(cfg, m, env, i, before, after);
  }

  lemma {:induction false} FailuresReal(cfg: Config, m: Machine, reactive: bool, env: RegenEnv, n: nat, k: nat)
    returns (after: Machine)
    requires Enough(env) && k == FirstSuccess(cfg, env, 0) && n <= k
    requires PoisedAt(cfg, m, reactive, m.s.clock) && RegenInTime(cfg, m.s.clock, reactive, env)
    ensures after == AfterFailures(cfg, m, env, n)
    ensures PoisedAt(cfg, after, reactive, Earlier(cfg, m.s.clock, env, n))
  {
    after := m;
    for i := 0 to n
      invariant after == AfterFailures(cfg, m, env, i)
      invariant PoisedAt(cfg, after, reactive, Earlier(cfg, m.s.clock, env, i))
    {
      after := NextFailureReal(cfg, m, reactive, env, i, k, after);
    }
  }

  lemma GiveUpReal(cfg: Config, m: Machine, reactive: bool)
    requires Real(cfg, m) && ReadyToTry(m, reactive)
    ensures Real(cfg, GiveUp(cfg, m, reactive))
  {
    if reactive {
      EmitKeepsLawful(cfg, m, RecoveryAbandoned);
    }
  }

  lemma NoteSuccessReal(cfg: Config, m: Machine, reactive: bool, at: Time)
    requires Real(cfg, m) && ReadyToTry(m, reactive) && (reactive ==> m.s.clock <= at && 0 < at)
    ensures Real(cfg, NoteSuccess(cfg, m, reactive, at))
  {
    if reactive {
      EmitKeepsLawful(cfg, m, RecoveryApplied(Since(m.s), at));
    }
  }

  lemma RegenerateReal(cfg: Config, m: Machine, reactive: bool, env: RegenEnv)
    requires Enough(env) && Real(cfg, m) && ReadyToTry(m, reactive) && RegenInTime(cfg, m.s.clock, reactive, env)
    ensures Real(cfg, Regenerate(cfg, m, reactive, env))
  {
    var k := FirstSuccess(cfg, env, 0);
    var before := FailuresReal(cfg, m, reactive, env, k, k);
    ReachedInTime(cfg, m.s.clock, reactive, env, k);
    if k == MAX_ATTEMPTS {
      GiveUpReal(cfg, before, reactive);
    } else {
      OnceReal(cfg, before, env.attempts[k]);
      NoteSuccessReal(cfg, RegenerateOnce(cfg, before, env.attempts[k]), reactive, env.endAt);
    }
  }

  lemma BeginRecoveryReal(cfg: Config, m: Machine, env: TickEnv)
    requires Real(cfg, m) && AtRest(m) && !m.s.health.tunnelHealthy
    requires Recovers(cfg, m.s, env.checkAt) && m.s.health.lastCheck == env.now && m.s.clock <= env.checkAt
    ensures Real(cfg, BeginRecovery(cfg, m, env)) && BeginRecovery(cfg, m, env).s.clock == env.checkAt
  {
    BeginRecoveryLawful(cfg, m, env);
    var longer := BeginRecovery(cfg, m, env);
    var log := longer.trace[|m.trace|..];
    var began, loss := RecoveryBegan(env.checkAt), LossRecorded(0);
    assert log == [began, log[1]] || log == [began, log[1], log[2]];
    InOrderFew(cfg, m.s.clock, began, log[1], if |log| == 3 then log[2] else loss);
    ExtensionIsReal(cfg, m, longer, log);
  }

  lemma TickReal(cfg: Config, m: Machine, env: TickEnv)
    requires Real(cfg, m) && AtRest(m) && Enough(env.regen) && TickInTime(cfg, m, env)
    ensures Real(cfg, HealthTick(cfg, m, env))
  {
    ObserveReal(cfg, m, env.healthy, env.now);
    var m1 := Observe(cfg, m, env.healthy, env.now);
    if !env.healthy && Recovers(cfg, m1.s, env.checkAt) {
      BeginRecoveryReal(cfg, m1, env);
      BeginRecoveryLawful(cfg, m1, env);
      RegenerateReal(cfg, BeginRecovery(cfg, m1, env), true, env.regen);
    }
  }

  lemma IterateReal(cfg: Config, m: Machine, it: Iteration)
    requires Real(cfg, m) && AtRest(m) && IterationOk(it) && IterationInTime(cfg, m, it)
    ensures Real(cfg, Iterate(cfg, m, it))
  {
    match it
    case Tick(tick) =>
      TickReal(cfg, m, tick);
      HealthTickLawful(cfg, m, tick);
      if Rearms(cfg, HealthTick(cfg, m, tick).s, tick.rearm) {
        SetTimerReal(cfg, HealthTick(cfg, m, tick), tick.rearm.arm);
      }
    case Proactive(regen, arm) =>
      RegenerateReal(cfg, m, false, regen);
      RegenerateLawful(cfg, m, false, regen);
      SetTimerReal(cfg, Regenerate(cfg, m, false, regen), arm);
  }

  lemma StartUpReal(cfg: Config, init: State, env: StartEnv)
    requires Initial(cfg, init) && Enough(env.regen)
    requires StartInTime(cfg, Machine(init, init, []), env)
    ensures Real(cfg, StartUp(cfg, Machine(init, init, []), env))
  {
    var m := Machine(init, init, []);
    if env.adoptHealthy && Adopts(cfg, m.s, env.adopt) {
      EmitKeepsLawful(cfg, m, Adopted);
      ObserveReal(cfg, Emit(cfg, m, Adopted), true, env.adopt.now);
      SetTimerReal(cfg, Observe(cfg, Emit(cfg, m, Adopted), true, env.adopt.now), env.arm);
    } else {
      RegenerateReal(cfg, m, false, env.regen);
      RegenerateLawful(cfg, m, false, env.regen);
      SetTimerReal(cfg, Regenerate(cfg, m, false, env.regen), env.arm);
    }
  }

  /** The theorems about real runs hold of every life of the daemon whose clock
      readings come in order. */
  lemma {:induction false} RunsAreReal(cfg: Config, init: State, start: StartEnv, its: seq<Iteration>)
    requires Initial(cfg, init) && Enough(start.regen) && AllOk(its) && RunInTime(cfg, init, start, its)
    ensures Real(cfg, Run(cfg, init, start, its))
  {
    if its == [] {
      StartUpReal(cfg, init, start);
    } else {
      var before := its[..|its| - 1];
      RunsAreReal(cfg, init, start, before);
      RunsAreLawful(cfg, init, start, before);
      IterateReal(cfg, Run(cfg, init, start, before), its[|its| - 1]);
    }
  }
}
