/** How fast registrations are minted while every recovery is abandoned. */
module MintRate {
  import opened Common
  import opened RefreshModel
  import opened RefreshSpec
  import opened RefreshLawful
  import opened RefreshReal
  import opened ProactiveTimer
  import opened Mints
  import opened Attempts

  /** A tick that recovers, and gives up after six failed attempts. */
  predicate Abandons(cfg: Config, m: Machine, env: TickEnv)
    requires Enough(env.regen)
  {
    && !env.healthy && Recovers(cfg, Observe(cfg, m, env.healthy, env.now).s, env.checkAt)
    && FirstSuccess(cfg, env.regen, 0) == MAX_ATTEMPTS
  }

  lemma {:induction false} AllPauses(cfg: Config, clock: Time, reactive: bool, env: RegenEnv, k: nat)
    requires Enough(env) && RegenInTime(cfg, clock, reactive, env)
    requires k == FirstSuccess(cfg, env, 0) == MAX_ATTEMPTS
    ensures Paused(cfg, env, k - 1) >= clock + Pauses(cfg, 0, k)
  {
    ReachedInTime(cfg, clock, reactive, env, 0);
    ReachedInTime(cfg, clock, reactive, env, k - 1);
    MintsAreSpaced(cfg, clock, reactive, env, 0, k - 1);
  }

  lemma GiveUpKeeps(cfg: Config, m: Machine)
    ensures var s := GiveUp(cfg, m, true).s;
            s.clock == m.s.clock && s.disk == m.s.disk && s.recoveries == m.s.recoveries && s.health == m.s.health
  {
  }

  /** Giving up: the pauses have passed, each attempt that obtained a key minted a
      registration, and the cooldown has not begun. */
  lemma {:induction false} AbandonedRegeneration(cfg: Config, m: Machine, env: RegenEnv, k: nat)
    returns (after: Machine)
    requires Enough(env) && k == FirstSuccess(cfg, env, 0) == MAX_ATTEMPTS
    requires PoisedAt(cfg, m, true, m.s.clock) && RegenInTime(cfg, m.s.clock, true, env)
    ensures after == Regenerate(cfg, m, true, env)
    ensures after.s.clock == Paused(cfg, env, k - 1) >= m.s.clock + Pauses(cfg, 0, k)
    ensures after.s.disk.births == m.s.disk.births + NewBirths(env, k)
    ensures after.s.recoveries == m.s.recoveries && after.s.health == m.s.health
  {
    var before := FailuresReal(cfg, m, true, env, k, k);
    var same := FailuresKeepCooldown(cfg, m, env, k);
    var minted := FailuresMint(cfg, m, env, k);
    AllPauses(cfg, m.s.clock, true, env, k);
    after := GiveUp(cfg, before, true);
    GiveUpKeeps(cfg, before);
  }

  lemma {:induction false} AbandonedTick(cfg: Config, m: Machine, env: TickEnv, k: nat) returns (after: Machine)
    requires Real(cfg, m) && AtRest(m) && Enough(env.regen) && TickInTime(cfg, m, env) && Abandons(cfg, m, env)
    requires k == FirstSuccess(cfg, env.regen, 0)
    ensures after == HealthTick(cfg, m, env)
    ensures after.s.clock == Paused(cfg, env.regen, k - 1) >= m.s.clock + Pauses(cfg, 0, k)
    ensures after.s.disk.births == m.s.disk.births + NewBirths(env.regen, k)
    ensures after.s.recoveries.last == m.s.recoveries.last
    ensures after.s.health.consecutive == m.s.health.consecutive + 1
  {
    var m1 := Observe(cfg, m, env.healthy, env.now);
    ObserveReal(cfg, m, env.healthy, env.now);
    BeginRecoveryReal(cfg, m1, env);
    BeginRecoveryLawful(cfg, m1, env);
    after := AbandonedRegeneration(cfg, BeginRecovery(cfg, m1, env), env.regen, k);
  }

  /** A recovery that is given up starts no cooldown: with none applied before, the very
      next unhealthy tick recovers again. */
  lemma AbandonedRecoversAgain(cfg: Config, m: Machine, env: TickEnv, next: TickEnv)
    requires Real(cfg, m) && AtRest(m) && Enough(env.regen) && TickInTime(cfg, m, env) && Abandons(cfg, m, env)
    requires m.s.recoveries.last == ZERO_TIME && !next.healthy
    ensures Recovers(cfg, Observe(cfg, Iterate(cfg, m, Tick(env)), false, next.now).s, next.checkAt)
  {
    var after := AbandonedTick(cfg, m, env, FirstSuccess(cfg, env.regen, 0));
  }

  /** Each of the ticks abandons its recovery, with its clock readings in order. */
  predicate AllAbandon(cfg: Config, m: Machine, envs: seq<TickEnv>)
    requires AllEnough(envs)
  {
    envs == [] ||
    (AllAbandon(cfg, m, envs[..|envs| - 1]) &&
     var before := Ticks(cfg, m, envs[..|envs| - 1]);
     TickInTime(cfg, before, envs[|envs| - 1]) && Abandons(cfg, before, envs[|envs| - 1]))
  }

  lemma RearmKeeps(cfg: Config, m: Machine, env: RearmEnv)
    requires Rearms(cfg, m.s, env) ==> ArmInTime(cfg, m.s.clock, env.arm)
    ensures var s := Rearm(cfg, m, env).s;
            && s.clock >= m.s.clock && s.disk == m.s.disk && s.recoveries == m.s.recoveries
            && s.health == m.s.health
  {
  }

  lemma {:induction false} AbandonedTurn(cfg: Config, m: Machine, env: TickEnv, k: nat) returns (after: Machine)
    requires Real(cfg, m) && AtRest(m) && Enough(env.regen) && TickInTime(cfg, m, env) && Abandons(cfg, m, env)
    requires k == FirstSuccess(cfg, env.regen, 0)
    ensures after == Iterate(cfg, m, Tick(env))
    ensures after.s.clock >= m.s.clock + Pauses(cfg, 0, k)
    ensures |after.s.disk.births| <= |m.s.disk.births| + MAX_ATTEMPTS
    ensures after.s.recoveries.last == m.s.recoveries.last
  {
    var mid := AbandonedTick(cfg, m, env, k);
    MintedExactly(env.regen, k);
    RearmKeeps(cfg, mid, env.rearm);
    after := Rearm(cfg, mid, env.rearm);
  }

  lemma OneMoreTime(n: nat, d: int)
    ensures n * d + d == (n + 1) * d
  {
  }

  /** n abandoned recoveries mint at most six registrations each and take at least the six
      pauses each. That is the only bound while restarts keep failing: no cooldown begins. */
  lemma {:induction false} AbandonedRate(cfg: Config, m: Machine, envs: seq<TickEnv>) returns (after: Machine)
    requires Real(cfg, m) && AtRest(m) && AllEnough(envs) && AllAbandon(cfg, m, envs)
    ensures after == Ticks(cfg, m, envs) && Real(cfg, after) && AtRest(after)
    ensures |after.s.disk.births| <= |m.s.disk.births| + MAX_ATTEMPTS * |envs|
    ensures after.s.clock >= m.s.clock + |envs| * Pauses(cfg, 0, MAX_ATTEMPTS)
    ensures after.s.recoveries.last == m.s.recoveries.last
  {
    if envs == [] {
      after := m;
    } else {
      var before := AbandonedRate(cfg, m, envs[..|envs| - 1]);
      var last := envs[|envs| - 1];
      after := AbandonedTurn(cfg, before, last, MAX_ATTEMPTS);
      IterateReal(cfg, before, Tick(last));
      IterateLawful(cfg, before, Tick(last));
      OneMoreTime(|envs| - 1, Pauses(cfg, 0, MAX_ATTEMPTS));
    }
  }
}
