/** Every run that RefreshSpec describes obeys the control flow of the event machine. */
module RefreshLawful {
  import opened Common
  import opened Lifetime
  import opened Alerts
  import opened RefreshModel
  import opened RefreshSpec

  lemma ObserveLawful(cfg: Config, m: Machine, healthy: bool, now: Time)
    requires Lawful(cfg, m) && AtRest(m)
    ensures Lawful(cfg, Observe(cfg, m, healthy, now)) && AtRest(Observe(cfg, m, healthy, now))
  {
    EmitKeepsLawful(cfg, m, Sampled(now, healthy, if healthy then RecoveredNotice(m.s.policy, now) else None));
  }

  lemma ArmLawful(cfg: Config, m: Machine, env: ArmEnv)
    requires Lawful(cfg, m) && m.s.stage.Resting?
    ensures Lawful(cfg, Arm(cfg, m, env))
  {
    EmitKeepsLawful(cfg, m, Armed(env.at, env.readable, env.draw));
  }

  lemma SetTimerLawful(cfg: Config, m: Machine, env: ArmEnv)
    requires Lawful(cfg, m) && AtRest(m)
    ensures Lawful(cfg, SetTimer(cfg, m, env)) && AtRest(SetTimer(cfg, m, env))
  {
    ArmLawful(cfg, m, env);
    EmitKeepsLawful(cfg, Arm(cfg, m, env), TimerReset);
  }

  lemma {:induction false} ObtainLawful(cfg: Config, m: Machine, env: AttemptEnv)
    requires Lawful(cfg, m) && m.s.stage.Resting? && !m.s.phase.Began?
    ensures var m' := EmitAll(cfg, m, ObtainLog(env));
            && Lawful(cfg, m') && m'.s.phase == m.s.phase
            && if Obtains(env) then m'.s.stage == Written(env.start) else !m'.s.stage.Resting?
  {
    var m1 := Emit(cfg, m, AttemptBegan(env.start));
    EmitKeepsLawful(cfg, m, AttemptBegan(env.start));
    EmitKeepsLawful(cfg, m1, Minted(env.start));
    EmitKeepsLawful(cfg, Emit(cfg, m1, Minted(env.start)), ConfigWritten);
    EmitAllFew(cfg, m, AttemptBegan(env.start), Minted(env.start), ConfigWritten);
  }

  lemma {:induction false} HandOverLawful(cfg: Config, m: Machine, env: AttemptEnv)
    requires Lawful(cfg, m) && m.s.stage == Written(env.start)
    ensures var m' := EmitAll(cfg, m, HandOverLog(cfg, env));
            && Lawful(cfg, m') && m'.s.phase == m.s.phase
            && if HandsOver(cfg, env) then ReadyToLoad(cfg, m'.s.stage) else !m'.s.stage.Resting?
  {
    var birth := if env.birthIO.StoreOk? then BirthRecorded(env.start) else BirthLost;
    EmitKeepsLawful(cfg, m, birth);
    if cfg.portForwarding {
      EmitKeepsLawful(cfg, Emit(cfg, m, birth), PendingWritten);
    }
    EmitAllFew(cfg, m, birth, PendingWritten, Restarted);
  }

  lemma SettleLawful(cfg: Config, m: Machine, env: ArmEnv)
    requires Lawful(cfg, m) && Enabled(cfg, m.s, Applied)
    ensures var m' := Arm(cfg, Emit(cfg, m, Applied), env);
            Lawful(cfg, m') && m'.s.phase == m.s.phase && m'.s.stage.Resting?
  {
    EmitKeepsLawful(cfg, m, Applied);
    ArmLawful(cfg, Emit(cfg, m, Applied), env);
  }

  lemma {:induction false} ReloadLawful(cfg: Config, m: Machine, env: AttemptEnv)
    requires Lawful(cfg, m) && ReadyToLoad(cfg, m.s.stage) && cfg.restarts
    ensures var m' := EmitAll(cfg, m, LoadLog(cfg, env));
            && Lawful(cfg, m') && m'.s.phase == m.s.phase
            && (m'.s.stage.Resting? <==> Loads(cfg, env))
  {
    var armed := Armed(env.arm.at, env.arm.readable, env.arm.draw);
    EmitKeepsLawful(cfg, m, Restarted);
    EmitAllFew(cfg, m, Restarted, Applied, armed);
    if env.restart.RestartOk? {
      SettleLawful(cfg, Emit(cfg, m, Restarted), env.arm);
      assert LoadLog(cfg, env) == [Restarted, Applied, armed];
    }
  }

  lemma {:induction false} LoadLawful(cfg: Config, m: Machine, env: AttemptEnv)
    requires Lawful(cfg, m) && ReadyToLoad(cfg, m.s.stage)
    ensures var m' := EmitAll(cfg, m, LoadLog(cfg, env));
            && Lawful(cfg, m') && m'.s.phase == m.s.phase
            && (m'.s.stage.Resting? <==> Loads(cfg, env))
  {
    if cfg.restarts {
      ReloadLawful(cfg, m, env);
    } else {
      var armed := Armed(env.arm.at, env.arm.readable, env.arm.draw);
      SettleLawful(cfg, m, env.arm);
      EmitAllFew(cfg, m, Applied, armed, armed);
    }
  }

  lemma {:induction false} PreparedByItsEvents(cfg: Config, m: Machine, env: AttemptEnv)
    ensures !Obtains(env) ==> EmitAll(cfg, m, ObtainLog(env)).s == Prepared(cfg, m.s, env)
    ensures Obtains(env) ==>
              EmitAll(cfg, EmitAll(cfg, m, ObtainLog(env)), HandOverLog(cfg, env)).s == Prepared(cfg, m.s, env)
  {
    EmitAllFew(cfg, m, AttemptBegan(env.start), Minted(env.start), ConfigWritten);
    var birth := if env.birthIO.StoreOk? then BirthRecorded(env.start) else BirthLost;
    EmitAllFew(cfg, EmitAll(cfg, m, ObtainLog(env)), birth, PendingWritten, Restarted);
  }

  lemma {:induction false} LoadedByItsEvents(cfg: Config, m: Machine, env: AttemptEnv)
    requires !m.s.stage.Resting? && m.s.stage.start == env.start
    ensures EmitAll(cfg, m, LoadLog(cfg, env)).s == Loaded(cfg, m.s, env)
  {
    var armed := Armed(env.arm.at, env.arm.readable, env.arm.draw);
    EmitAllFew(cfg, m, Restarted, Applied, armed);
    EmitAllFew(cfg, m, Applied, armed, armed);
    if cfg.restarts && env.restart.RestartOk? {
      assert LoadLog(cfg, env) == [Restarted, Applied, armed];
    }
  }

  /** What AfterAttempt says an attempt leaves behind is what its events do, one by one. */
  lemma {:induction false} AttemptIsItsEvents(cfg: Config, m: Machine, env: AttemptEnv)
    ensures RegenerateOnce(cfg, m, env) == EmitAll(cfg, m, AttemptLog(cfg, env))
  {
    EmitAllTrace(cfg, m, AttemptLog(cfg, env));
    PreparedByItsEvents(cfg, m, env);
    var m1 := EmitAll(cfg, m, ObtainLog(env));
    if Obtains(env) {
      EmitAllConcat(cfg, m, ObtainLog(env), HandOverLog(cfg, env));
      if HandsOver(cfg, env) {
        LoadedByItsEvents(cfg, EmitAll(cfg, m1, HandOverLog(cfg, env)), env);
        EmitAllConcat(cfg, m, ObtainLog(env) + HandOverLog(cfg, env), LoadLog(cfg, env));
      }
    }
  }

  /** An attempt obeys the control flow, and is closed exactly when it succeeds. */
  lemma OnceLawful(cfg: Config, m: Machine, env: AttemptEnv)
    requires Lawful(cfg, m) && m.s.stage.Resting? && !m.s.phase.Began?
    ensures Lawful(cfg, RegenerateOnce(cfg, m, env))
  {
    AttemptIsItsEvents(cfg, m, env);
    ObtainLawful(cfg, m, env);
    var m1 := EmitAll(cfg, m, ObtainLog(env));
    if Obtains(env) {
      HandOverLawful(cfg, m1, env);
      EmitAllConcat(cfg, m, ObtainLog(env), HandOverLog(cfg, env));
      if HandsOver(cfg, env) {
        LoadLawful(cfg, EmitAll(cfg, m1, HandOverLog(cfg, env)), env);
        EmitAllConcat(cfg, m, ObtainLog(env) + HandOverLog(cfg, env), LoadLog(cfg, env));
      }
    }
  }

  predicate ReadyToTry(m: Machine, reactive: bool) {
    m.s.stage.Resting? && if reactive then m.s.phase.Recovering? else m.s.phase.Idle?
  }

  lemma NoteFailureLawful(cfg: Config, m: Machine, at: Time, i: nat)
    requires Lawful(cfg, m) && !m.s.stage.Resting?
    ensures var m' := NoteFailure(cfg, m, at, i);
            Lawful(cfg, m') && m'.s.stage.Resting? && m'.s.phase == m.s.phase
  {
    EmitKeepsLawful(cfg, m, AttemptFailed(at, FailureAlert(m.s.policy), Backoff(cfg, i)));
  }

  lemma NoteSuccessLawful(cfg: Config, m: Machine, reactive: bool, at: Time)
    requires Lawful(cfg, m) && ReadyToTry(m, reactive)
    ensures Lawful(cfg, NoteSuccess(cfg, m, reactive, at)) && AtRest(NoteSuccess(cfg, m, reactive, at))
  {
    if reactive {
      EmitKeepsLawful(cfg, m, RecoveryApplied(Since(m.s), at));
    }
  }

  lemma GiveUpLawful(cfg: Config, m: Machine, reactive: bool)
    requires Lawful(cfg, m) && ReadyToTry(m, reactive)
    ensures Lawful(cfg, GiveUp(cfg, m, reactive)) && AtRest(GiveUp(cfg, m, reactive))
  {
    if reactive {
      EmitKeepsLawful(cfg, m, RecoveryAbandoned);
    }
  }

  lemma FailedAttemptLawful(cfg: Config, m: Machine, env: AttemptEnv, i: nat)
    requires Lawful(cfg, m) && m.s.stage.Resting? && !m.s.phase.Began? && !Succeeds(cfg, env)
    ensures var m' := FailedAttempt(cfg, m, env, i);
            Lawful(cfg, m') && m'.s.stage.Resting? && m'.s.phase == m.s.phase
  {
    OnceLawful(cfg, m, env);
    NoteFailureLawful(cfg, RegenerateOnce(cfg, m, env), env.failedAt, i);
  }

  /** A lawful run in which an attempt may begin. */
  ghost predicate Poised(cfg: Config, m: Machine, reactive: bool) {
    Lawful(cfg, m) && ReadyToTry(m, reactive)
  }

  lemma {:induction false} NextFailureLawful(cfg: Config, m: Machine, reactive: bool, env: RegenEnv, i: nat,
                                             before: Machine)
    returns (after: Machine)
    requires i < |env.attempts| && !Succeeds(cfg, env.attempts[i])
    requires before == AfterFailures(cfg, m, env, i) && Poised(cfg, before, reactive)
    ensures after == AfterFailures(cfg, m, env, i + 1) && Poised(cfg, after, reactive)
  {
    after := FailedAttempt(cfg, before, env.attempts[i], i);
    FailedAttemptLawful(cfg, before, env.attempts[i], i);
    OneMoreFailure(cfg, m, env, i, before, after);
  }

  lemma {:induction false} FailuresLawful(cfg: Config, m: Machine, reactive: bool, env: RegenEnv, n: nat)
    returns (after: Machine)
    requires n <= |env.attempts| && (forall j | 0 <= j < n :: !Succeeds(cfg, env.attempts[j]))
    requires Poised(cfg, m, reactive)
    ensures after == AfterFailures(cfg, m, env, n) && Poised(cfg, after, reactive)
  {
    if n == 0 {
      after := m;
    } else {
      var before := FailuresLawful(cfg, m, reactive, env, n - 1);
      after := NextFailureLawful(cfg, m, reactive, env, n - 1, before);
    }
  }

  lemma RegenerateLawful(cfg: Config, m: Machine, reactive: bool, env: RegenEnv)
    requires Enough(env) && Lawful(cfg, m) && ReadyToTry(m, reactive)
    ensures Lawful(cfg, Regenerate(cfg, m, reactive, env)) && AtRest(Regenerate(cfg, m, reactive, env))
  {
    var k := FirstSuccess(cfg, env, 0);
    var before := FailuresLawful(cfg, m, reactive, env, k);
    if k == MAX_ATTEMPTS {
      GiveUpLawful(cfg, before, reactive);
    } else {
      OnceLawful(cfg, before, env.attempts[k]);
      NoteSuccessLawful(cfg, RegenerateOnce(cfg, before, env.attempts[k]), reactive, env.endAt);
    }
  }

  lemma AccountLawful(cfg: Config, m: Machine, now: Time)
    requires Lawful(cfg, m) && m.s.phase.Began? && m.s.stage.Resting? && now == m.s.health.lastCheck
    ensures Lawful(cfg, Account(cfg, m, now)) && ReadyToTry(Account(cfg, m, now), true)
  {
    var failed := PreviousIneffective(m.s);
    EmitKeepsLawful(cfg, m, Accounted(now, failed, if failed then FailureAlert(m.s.policy) else None));
  }

  lemma MeasureLossLawful(cfg: Config, m: Machine, io: StoreIO)
    requires Lawful(cfg, m) && m.s.phase.Recovering? && m.s.stage.Resting?
    ensures Lawful(cfg, MeasureLoss(cfg, m, io)) && ReadyToTry(MeasureLoss(cfg, m, io), true)
  {
    if LossMeasurable(m.s) && io.StoreOk? {
      EmitKeepsLawful(cfg, m, LossRecorded(WholeSeconds(m.s.health.lastHealthy - m.s.rec.birth)));
    }
  }

  lemma BeginRecoveryLawful(cfg: Config, m: Machine, env: TickEnv)
    requires Lawful(cfg, m) && AtRest(m) && !m.s.health.tunnelHealthy
    requires Recovers(cfg, m.s, env.checkAt) && m.s.health.lastCheck == env.now
    ensures Lawful(cfg, BeginRecovery(cfg, m, env))
    ensures ReadyToTry(BeginRecovery(cfg, m, env), true)
  {
    EmitKeepsLawful(cfg, m, RecoveryBegan(env.checkAt));
    var m1 := Emit(cfg, m, RecoveryBegan(env.checkAt));
    AccountLawful(cfg, m1, env.now);
    MeasureLossLawful(cfg, Account(cfg, m1, env.now), env.lossIO);
  }

  lemma HealthTickLawful(cfg: Config, m: Machine, env: TickEnv)
    requires Lawful(cfg, m) && AtRest(m) && Enough(env.regen)
    ensures Lawful(cfg, HealthTick(cfg, m, env)) && AtRest(HealthTick(cfg, m, env))
  {
    ObserveLawful(cfg, m, env.healthy, env.now);
    var m1 := Observe(cfg, m, env.healthy, env.now);
    if !env.healthy && Recovers(cfg, m1.s, env.checkAt) {
      BeginRecoveryLawful(cfg, m1, env);
      RegenerateLawful(cfg, BeginRecovery(cfg, m1, env), true, env.regen);
    }
  }

  lemma IterateLawful(cfg: Config, m: Machine, it: Iteration)
    requires Lawful(cfg, m) && AtRest(m) && IterationOk(it)
    ensures Lawful(cfg, Iterate(cfg, m, it)) && AtRest(Iterate(cfg, m, it))
  {
    match it
    case Tick(tick) =>
      HealthTickLawful(cfg, m, tick);
      var m1 := HealthTick(cfg, m, tick);
      if Rearms(cfg, m1.s, tick.rearm) {
        SetTimerLawful(cfg, m1, tick.rearm.arm);
      }
    case Proactive(regen, arm) =>
      RegenerateLawful(cfg, m, false, regen);
      SetTimerLawful(cfg, Regenerate(cfg, m, false, regen), arm);
  }

  lemma StartUpLawful(cfg: Config, m: Machine, env: StartEnv)
    requires Lawful(cfg, m) && AtRest(m) && m.s.recoveries.count == 0 && Enough(env.regen)
    ensures Lawful(cfg, StartUp(cfg, m, env)) && AtRest(StartUp(cfg, m, env))
  {
    if env.adoptHealthy && Adopts(cfg, m.s, env.adopt) {
      EmitKeepsLawful(cfg, m, Adopted);
      var m1 := Emit(cfg, m, Adopted);
      ObserveLawful(cfg, m1, true, env.adopt.now);
      SetTimerLawful(cfg, Observe(cfg, m1, true, env.adopt.now), env.arm);
    } else {
      RegenerateLawful(cfg, m, false, env.regen);
      SetTimerLawful(cfg, Regenerate(cfg, m, false, env.regen), env.arm);
    }
  }

  /** Every run of the daemon is lawful, whatever the environment answers. */
  lemma {:induction false} RunsAreLawful(cfg: Config, init: State, start: StartEnv, its: seq<Iteration>)
    requires Initial(cfg, init) && Enough(start.regen) && AllOk(its)
    ensures Lawful(cfg, Run(cfg, init, start, its)) && AtRest(Run(cfg, init, start, its))
  {
    if its == [] {
      StartUpLawful(cfg, Machine(init, init, []), start);
    } else {
      RunsAreLawful(cfg, init, start, its[..|its| - 1]);
      IterateLawful(cfg, Run(cfg, init, start, its[..|its| - 1]), its[|its| - 1]);
    }
  }
}
