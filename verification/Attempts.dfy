/** What attempts and recoveries leave in the run, told from the environment's answers. */
module Attempts {
  import opened Common
  import opened Lifetime
  import opened RefreshModel
  import opened RefreshSpec

  // ----- One attempt -----

  /** Every step that must succeed for an attempt to be applied; saving the birth is none of them. */
  predicate AllStepsWork(cfg: Config, a: AttemptEnv) {
    && a.generates && a.writes && (cfg.portForwarding ==> a.handsOver)
    && (cfg.restarts ==> a.restart == RestartOk)
  }

  /** The events of an attempt, from what the environment answers. */
  ghost predicate AttemptFits(cfg: Config, a: AttemptEnv, log: seq<Event>) {
    var written := a.generates && a.writes;
    && log != [] && log[0] == AttemptBegan(a.start)
    && (Minted(a.start) in log <==> a.generates)
    && (ConfigWritten in log <==> written)
    && (BirthRecorded(a.start) in log <==> written && a.birthIO == StoreOk)
    && (BirthLost in log <==> written && a.birthIO != StoreOk)
    && (PendingWritten in log <==> written && cfg.portForwarding && a.handsOver)
    && (Restarted in log <==>
          written && (cfg.portForwarding ==> a.handsOver) && cfg.restarts && a.restart != RestartRefused)
    && (Applied in log <==> AllStepsWork(cfg, a))
  }

  lemma InAttempt(cfg: Config, env: AttemptEnv, e: Event)
    ensures e in AttemptLog(cfg, env) <==>
            || e in ObtainLog(env)
            || (Obtains(env) && e in HandOverLog(cfg, env))
            || (Obtains(env) && HandsOver(cfg, env) && e in LoadLog(cfg, env))
  {
  }

  lemma ObtainEvents(cfg: Config, env: AttemptEnv)
    ensures AttemptLog(cfg, env)[0] == AttemptBegan(env.start)
    ensures Minted(env.start) in AttemptLog(cfg, env) <==> env.generates
    ensures ConfigWritten in AttemptLog(cfg, env) <==> env.generates && env.writes
  {
    InAttempt(cfg, env, Minted(env.start));
    InAttempt(cfg, env, ConfigWritten);
  }

  lemma HandOverEvents(cfg: Config, env: AttemptEnv)
    ensures BirthRecorded(env.start) in AttemptLog(cfg, env) <==> env.generates && env.writes && env.birthIO == StoreOk
    ensures BirthLost in AttemptLog(cfg, env) <==> env.generates && env.writes && env.birthIO != StoreOk
    ensures PendingWritten in AttemptLog(cfg, env) <==>
            env.generates && env.writes && cfg.portForwarding && env.handsOver
  {
    InAttempt(cfg, env, BirthRecorded(env.start));
    InAttempt(cfg, env, BirthLost);
    InAttempt(cfg, env, PendingWritten);
  }

  lemma LoadEvents(cfg: Config, env: AttemptEnv)
    ensures Restarted in AttemptLog(cfg, env) <==>
            env.generates && env.writes && (cfg.portForwarding ==> env.handsOver) &&
            cfg.restarts && env.restart != RestartRefused
    ensures Applied in AttemptLog(cfg, env) <==> AllStepsWork(cfg, env)
  {
    InAttempt(cfg, env, Restarted);
    InAttempt(cfg, env, Applied);
  }

  /** An attempt extends the run by exactly the events its answers call for; it is
      applied exactly when every step works, whether or not its birth is saved. */
  lemma AttemptExactly(cfg: Config, m: Machine, env: AttemptEnv)
    ensures var trace := RegenerateOnce(cfg, m, env).trace;
            m.trace <= trace && AttemptFits(cfg, env, trace[|m.trace|..])
  {
    ObtainEvents(cfg, env);
    HandOverEvents(cfg, env);
    LoadEvents(cfg, env);
    var log := AttemptLog(cfg, env);
    assert AttemptFits(cfg, env, log);
    assert (m.trace + log)[|m.trace|..] == log;
  }

  lemma SucceedsExactly(cfg: Config, env: AttemptEnv)
    ensures Succeeds(cfg, env) <==> AllStepsWork(cfg, env)
  {
  }

  // ----- A regeneration -----

  lemma AttemptExtends(cfg: Config, m: Machine, env: AttemptEnv)
    ensures var trace := RegenerateOnce(cfg, m, env).trace;
            |trace| > |m.trace| && m.trace <= trace && trace[|m.trace|] == AttemptBegan(env.start)
    ensures RegenerateOnce(cfg, m, env).s.phase == m.s.phase
  {
    assert AttemptLog(cfg, env)[0] == AttemptBegan(env.start);
  }

  /** The run after some attempts: longer, unless there were none, and begun by the first. */
  ghost predicate Extends(m: Machine, after: Machine, env: RegenEnv, n: nat)
    requires n <= |env.attempts|
  {
    && m.trace <= after.trace && after.s.phase == m.s.phase && (n == 0 ==> after.trace == m.trace)
    && (n > 0 ==> |after.trace| > |m.trace| && after.trace[|m.trace|] == AttemptBegan(env.attempts[0].start))
  }

  lemma {:induction false} NextExtends(cfg: Config, m: Machine, env: RegenEnv, i: nat, before: Machine)
    returns (after: Machine)
    requires i < |env.attempts| && before == AfterFailures(cfg, m, env, i) && Extends(m, before, env, i)
    ensures after == AfterFailures(cfg, m, env, i + 1) && Extends(m, after, env, i + 1)
  {
    after := FailedAttempt(cfg, before, env.attempts[i], i);
    AttemptExtends(cfg, before, env.attempts[i]);
    OneMoreFailure(cfg, m, env, i, before, after);
  }

  lemma {:induction false} FailuresExtend(cfg: Config, m: Machine, env: RegenEnv, n: nat) returns (after: Machine)
    requires n <= |env.attempts|
    ensures after == AfterFailures(cfg, m, env, n) && Extends(m, after, env, n)
  {
    after := m;
    for i := 0 to n
      invariant after == AfterFailures(cfg, m, env, i) && Extends(m, after, env, i)
    {
      after := NextExtends(cfg, m, env, i, after);
    }
  }

  /** One of the first six attempts works. */
  ghost predicate SomeAttemptWorks(cfg: Config, env: RegenEnv)
    requires Enough(env)
  {
    exists i :: 0 <= i < MAX_ATTEMPTS && AllStepsWork(cfg, env.attempts[i])
  }

  lemma {:induction false} WorksExactly(cfg: Config, env: RegenEnv, k: nat)
    requires Enough(env) && k == FirstSuccess(cfg, env, 0)
    ensures k < MAX_ATTEMPTS <==> SomeAttemptWorks(cfg, env)
  {
    forall i | 0 <= i < MAX_ATTEMPTS
      ensures Succeeds(cfg, env.attempts[i]) <==> AllStepsWork(cfg, env.attempts[i])
    {
      SucceedsExactly(cfg, env.attempts[i]);
    }
  }

  /** The run begins with the first attempt, and ends with the given event when reactive. */
  ghost predicate Frames(m: Machine, trace: seq<Event>, first: Event, reactive: bool, last: Event) {
    && |trace| > |m.trace| && m.trace <= trace && trace[|m.trace|] == first
    && (reactive ==> trace[|trace| - 1] == last)
  }

  lemma SuccessFrames(cfg: Config, m: Machine, before: Machine, reactive: bool, env: RegenEnv, k: nat)
    requires k < |env.attempts| && Extends(m, before, env, k)
    ensures Frames(m, NoteSuccess(cfg, RegenerateOnce(cfg, before, env.attempts[k]), reactive, env.endAt).trace,
                   AttemptBegan(env.attempts[0].start), reactive, RecoveryApplied(Since(m.s), env.endAt))
  {
    AttemptExtends(cfg, before, env.attempts[k]);
  }

  lemma GiveUpFrames(cfg: Config, m: Machine, before: Machine, reactive: bool, env: RegenEnv, k: nat)
    requires 0 < k <= |env.attempts| && Extends(m, before, env, k)
    ensures Frames(m, GiveUp(cfg, before, reactive).trace,
                   AttemptBegan(env.attempts[0].start), reactive, RecoveryAbandoned)
  {
  }

  /** A regeneration begins with its first attempt; a reactive one ends as applied exactly
      when one of six attempts works, and as abandoned otherwise. */
  lemma {:induction false} RegenerationExactly(cfg: Config, m: Machine, reactive: bool, env: RegenEnv, k: nat)
    requires Enough(env) && k == FirstSuccess(cfg, env, 0)
    ensures Frames(m, Regenerate(cfg, m, reactive, env).trace, AttemptBegan(env.attempts[0].start), reactive,
                   if SomeAttemptWorks(cfg, env) then RecoveryApplied(Since(m.s), env.endAt) else RecoveryAbandoned)
  {
    WorksExactly(cfg, env, k);
    var before := FailuresExtend(cfg, m, env, k);
    if k < MAX_ATTEMPTS {
      AttemptDecides(cfg, m, reactive, env, k);
      SuccessFrames(cfg, m, before, reactive, env, k);
    } else {
      RetriesEnd(cfg, m, reactive, env, k);
      GiveUpFrames(cfg, m, before, reactive, env, k);
    }
  }

  /** A tick that recovers counts its recovery as applied, from the decision to the end,
      exactly when one of six attempts works. */
  lemma RecoveryOutcome(cfg: Config, m: Machine, env: TickEnv)
    requires Enough(env.regen) && !env.healthy
    requires Recovers(cfg, Observe(cfg, m, false, env.now).s, env.checkAt)
    ensures var trace := HealthTick(cfg, m, env).trace;
            trace != [] && trace[|trace| - 1] ==
            if SomeAttemptWorks(cfg, env.regen) then RecoveryApplied(env.checkAt, env.regen.endAt)
            else RecoveryAbandoned
  {
    var m1 := BeginRecovery(cfg, Observe(cfg, m, false, env.now), env);
    assert Since(m1.s) == env.checkAt;
    RegenerationExactly(cfg, m1, true, env.regen, FirstSuccess(cfg, env.regen, 0));
  }

  // ----- A proactive refresh -----

  lemma OneFailureKeepsCooldown(cfg: Config, m: Machine, env: AttemptEnv, i: nat)
    ensures var s := FailedAttempt(cfg, m, env, i).s; s.recoveries == m.s.recoveries && s.health == m.s.health
  {
  }

  lemma {:induction false} NextKeepsCooldown(cfg: Config, m: Machine, env: RegenEnv, i: nat, before: Machine)
    returns (after: Machine)
    requires i < |env.attempts| && before == AfterFailures(cfg, m, env, i)
    ensures after == AfterFailures(cfg, m, env, i + 1)
    ensures after.s.recoveries == before.s.recoveries && after.s.health == before.s.health
  {
    after := FailedAttempt(cfg, before, env.attempts[i], i);
    OneFailureKeepsCooldown(cfg, before, env.attempts[i], i);
    OneMoreFailure(cfg, m, env, i, before, after);
  }

  /** What attempts that fail leave alone: when the last recovery was applied, and the samples. */
  lemma {:induction false} FailuresKeepCooldown(cfg: Config, m: Machine, env: RegenEnv, n: nat) returns (after: Machine)
    requires n <= |env.attempts|
    ensures after == AfterFailures(cfg, m, env, n)
    ensures after.s.recoveries == m.s.recoveries && after.s.health == m.s.health
  {
    after := m;
    for i := 0 to n
      invariant after == AfterFailures(cfg, m, env, i)
      invariant after.s.recoveries == m.s.recoveries && after.s.health == m.s.health
    {
      after := NextKeepsCooldown(cfg, m, env, i, after);
    }
  }

  lemma {:induction false} RegenerationExtends(cfg: Config, m: Machine, env: RegenEnv)
    requires Enough(env)
    ensures var trace := Regenerate(cfg, m, false, env).trace;
            |trace| > |m.trace| && m.trace <= trace && trace[|m.trace|] == AttemptBegan(env.attempts[0].start)
  {
    RegenerationExactly(cfg, m, false, env, FirstSuccess(cfg, env, 0));
  }

  lemma {:induction false} RegenerationKeepsCooldown(cfg: Config, m: Machine, env: RegenEnv, k: nat)
    requires Enough(env) && k == FirstSuccess(cfg, env, 0)
    ensures var s := Regenerate(cfg, m, false, env).s; s.recoveries == m.s.recoveries && s.health == m.s.health
  {
    var before := FailuresKeepCooldown(cfg, m, env, k);
    if k < MAX_ATTEMPTS {
      AttemptDecides(cfg, m, false, env, k);
    } else {
      RetriesEnd(cfg, m, false, env, k);
    }
  }

  lemma TimerEnds(cfg: Config, m: Machine, arm: ArmEnv)
    ensures var m' := SetTimer(cfg, m, arm);
            && m'.trace == m.trace + [Armed(arm.at, arm.readable, arm.draw), TimerReset]
            && m'.s.recoveries == m.s.recoveries && m'.s.health == m.s.health
  {
  }

  /** When the timer goes off the daemon regenerates, from its first attempt on, and ends by
      arming the timer anew; no recovery is counted, so the cooldown is left as it was. */
  lemma ProactiveTurn(cfg: Config, m: Machine, regen: RegenEnv, arm: ArmEnv)
    requires Enough(regen)
    ensures var m', n := Iterate(cfg, m, Proactive(regen, arm)), |m.trace|;
            && |m'.trace| > n + 2 && m.trace <= m'.trace
            && m'.trace[n] == AttemptBegan(regen.attempts[0].start)
            && m'.trace[|m'.trace| - 2] == Armed(arm.at, arm.readable, arm.draw)
            && m'.trace[|m'.trace| - 1] == TimerReset
            && m'.s.recoveries == m.s.recoveries && m'.s.health == m.s.health
  {
    RegenerationExtends(cfg, m, regen);
    RegenerationKeepsCooldown(cfg, m, regen, FirstSuccess(cfg, regen, 0));
    TimerEnds(cfg, Regenerate(cfg, m, false, regen), arm);
  }
}
