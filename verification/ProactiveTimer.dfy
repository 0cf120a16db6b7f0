/** The proactive schedule: the timer against the next refresh that status.json reports. */
module ProactiveTimer {
  import opened Common
  import opened Lifetime
  import opened RefreshModel
  import opened RefreshSpec

  predicate InStep(s: State) {
    s.schedule.timer == s.schedule.nextRefresh
  }

  /** Whether a tick applies a new registration. */
  predicate Applies(cfg: Config, m: Machine, env: TickEnv)
    requires Enough(env.regen)
  {
    && !env.healthy && Recovers(cfg, Observe(cfg, m, env.healthy, env.now).s, env.checkAt)
    && FirstSuccess(cfg, env.regen, 0) < MAX_ATTEMPTS
  }

  /** What one attempt does to the disk and the schedule. */
  lemma AttemptSchedule(cfg: Config, s: State, env: AttemptEnv)
    ensures var s' := AfterAttempt(cfg, s, env);
            && s'.schedule.timer == s.schedule.timer
            && s.disk.births <= s'.disk.births
            && (s'.disk.births == s.disk.births ==> !Succeeds(cfg, env) && s'.rec == s.rec)
            && (!Succeeds(cfg, env) ==> s'.schedule == s.schedule)
            && (Succeeds(cfg, env) && env.birthIO.StoreOk? ==> s'.rec.birth == s'.schedule.lastGenerate == env.start)
  {
  }

  lemma FailureKeepsSchedule(cfg: Config, m: Machine, env: AttemptEnv, i: nat)
    ensures var s, s' := AfterAttempt(cfg, m.s, env), FailedAttempt(cfg, m, env, i).s;
            s'.schedule == s.schedule && s'.disk == s.disk && s'.rec == s.rec
  {
  }

  lemma {:induction false} FailuresKeepSchedule(cfg: Config, m: Machine, env: RegenEnv, n: nat)
    requires Enough(env) && n <= FirstSuccess(cfg, env, 0)
    ensures AfterFailures(cfg, m, env, n).s.schedule == m.s.schedule
    ensures m.s.disk.births <= AfterFailures(cfg, m, env, n).s.disk.births
    ensures AfterFailures(cfg, m, env, n).s.disk.births == m.s.disk.births ==>
              AfterFailures(cfg, m, env, n).s.rec == m.s.rec
  {
    if n > 0 {
      FailuresKeepSchedule(cfg, m, env, n - 1);
      var before := AfterFailures(cfg, m, env, n - 1);
      AttemptSchedule(cfg, before.s, env.attempts[n - 1]);
      FailureKeepsSchedule(cfg, before, env.attempts[n - 1], n - 1);
    }
  }

  lemma EndKeepsSchedule(cfg: Config, m: Machine, reactive: bool, at: Time)
    ensures var s := NoteSuccess(cfg, m, reactive, at).s;
            s.schedule == m.s.schedule && s.disk == m.s.disk && s.rec == m.s.rec
    ensures var s := GiveUp(cfg, m, reactive).s;
            s.schedule == m.s.schedule && s.disk == m.s.disk && s.rec == m.s.rec
  {
  }

  lemma {:induction false} RegenerateSchedule(cfg: Config, m: Machine, reactive: bool, env: RegenEnv)
    requires Enough(env)
    ensures var m', k := Regenerate(cfg, m, reactive, env), FirstSuccess(cfg, env, 0);
            && m'.s.schedule.timer == m.s.schedule.timer
            && m.s.disk.births <= m'.s.disk.births
            && (k == MAX_ATTEMPTS ==> m'.s.schedule == m.s.schedule)
            && (m'.s.disk.births == m.s.disk.births ==> k == MAX_ATTEMPTS && m'.s.rec == m.s.rec)
            && (k < MAX_ATTEMPTS && env.attempts[k].birthIO.StoreOk? ==>
                  m'.s.rec.birth == m'.s.schedule.lastGenerate == env.attempts[k].start)
  {
    var k := FirstSuccess(cfg, env, 0);
    FailuresKeepSchedule(cfg, m, env, k);
    var before := AfterFailures(cfg, m, env, k);
    if k < MAX_ATTEMPTS {
      AttemptSchedule(cfg, before.s, env.attempts[k]);
      EndKeepsSchedule(cfg, RegenerateOnce(cfg, before, env.attempts[k]), reactive, env.endAt);
    } else {
      EndKeepsSchedule(cfg, before, reactive, env.endAt);
    }
  }

  /** A tick never moves the timer before it reaches rearm, and only an applied
      registration moves the reported time. */
  lemma {:induction false} TickSchedule(cfg: Config, m: Machine, env: TickEnv)
    requires Enough(env.regen)
    ensures var s, s' := m.s, HealthTick(cfg, m, env).s;
            && s'.schedule.timer == s.schedule.timer
            && (!Applies(cfg, m, env) ==> s'.schedule == s.schedule)
            && (s'.disk.births == s.disk.births ==>
                  s'.schedule == s.schedule && s'.rec.birth == s.rec.birth)
            && (Applies(cfg, m, env) && env.regen.attempts[FirstSuccess(cfg, env.regen, 0)].birthIO.StoreOk? ==>
                  s'.rec.birth == s'.schedule.lastGenerate)
  {
    var m1 := Observe(cfg, m, env.healthy, env.now);
    if !env.healthy && Recovers(cfg, m1.s, env.checkAt) {
      RegenerateSchedule(cfg, BeginRecovery(cfg, m1, env), true, env.regen);
    }
  }

  // ----- What a tick reports, from the environment alone -----

  /** The lifetime record once a recovery has stored the loss, if it can. */
  function AfterLoss(s: State, io: StoreIO): LifetimeRecord {
    if LossMeasurable(s) && io.StoreOk? then WithLoss(s.rec, s.health.lastHealthy) else s.rec
  }

  /** The record after the first n attempts: the last birth they saved replaces the old one. */
  function AfterBirths(rec: LifetimeRecord, env: RegenEnv, n: nat): LifetimeRecord
    requires n <= |env.attempts|
  {
    if n == 0 then rec
    else
      var a := env.attempts[n - 1];
      if Obtains(a) && a.birthIO.StoreOk? then WithBirth(AfterBirths(rec, env, n - 1), a.start)
      else AfterBirths(rec, env, n - 1)
  }

  /** The next refresh that an applied attempt reports. */
  function ReportedDue(cfg: Config, rec: LifetimeRecord, a: AttemptEnv): Time {
    NextDue(cfg, rec, a.arm.at, a.arm.readable, a.arm.draw)
  }

  lemma AttemptReports(cfg: Config, s: State, env: AttemptEnv)
    ensures var s' := AfterAttempt(cfg, s, env);
            && s'.rec == (if Obtains(env) && env.birthIO.StoreOk? then WithBirth(s.rec, env.start) else s.rec)
            && (Succeeds(cfg, env) ==> s'.schedule.nextRefresh == ReportedDue(cfg, s'.rec, env))
  {
  }

  lemma NextRecord(cfg: Config, before: Machine, after: Machine, env: RegenEnv, i: nat, rec: LifetimeRecord)
    requires i < |env.attempts| && after == FailedAttempt(cfg, before, env.attempts[i], i)
    requires before.s.rec == AfterBirths(rec, env, i)
    ensures after.s.rec == AfterBirths(rec, env, i + 1)
  {
    AttemptReports(cfg, before.s, env.attempts[i]);
    FailureKeepsSchedule(cfg, before, env.attempts[i], i);
  }

  lemma {:induction false} FailuresRecord(cfg: Config, m: Machine, env: RegenEnv, n: nat)
    requires n <= |env.attempts|
    ensures AfterFailures(cfg, m, env, n).s.rec == AfterBirths(m.s.rec, env, n)
  {
    if n > 0 {
      FailuresRecord(cfg, m, env, n - 1);
      NextRecord(cfg, AfterFailures(cfg, m, env, n - 1), AfterFailures(cfg, m, env, n), env, n - 1, m.s.rec);
    }
  }

  lemma {:induction false} RegenerateReports(cfg: Config, m: Machine, reactive: bool, env: RegenEnv, k: nat)
    requires Enough(env) && k == FirstSuccess(cfg, env, 0) && k < MAX_ATTEMPTS
    ensures var s, rec := Regenerate(cfg, m, reactive, env).s, AfterBirths(m.s.rec, env, k + 1);
            s.rec == rec && s.schedule.nextRefresh == ReportedDue(cfg, rec, env.attempts[k])
  {
    var before := AfterFailures(cfg, m, env, k);
    FailuresRecord(cfg, m, env, k);
    AttemptDecides(cfg, m, reactive, env, k);
    AttemptReports(cfg, before.s, env.attempts[k]);
    EndKeepsSchedule(cfg, RegenerateOnce(cfg, before, env.attempts[k]), reactive, env.endAt);
  }

  lemma RecoveryRecord(cfg: Config, m: Machine, env: TickEnv)
    ensures BeginRecovery(cfg, Observe(cfg, m, false, env.now), env).s.rec == AfterLoss(m.s, env.lossIO)
  {
  }

  lemma {:induction false} TickReports(cfg: Config, m: Machine, env: TickEnv, k: nat)
    requires Enough(env.regen) && k == FirstSuccess(cfg, env.regen, 0) && Applies(cfg, m, env)
    ensures var s, rec := HealthTick(cfg, m, env).s, AfterBirths(AfterLoss(m.s, env.lossIO), env.regen, k + 1);
            s.rec == rec && s.schedule.nextRefresh == ReportedDue(cfg, rec, env.regen.attempts[k])
  {
    RecoveryRecord(cfg, m, env);
    RegenerateReports(cfg, BeginRecovery(cfg, Observe(cfg, m, false, env.now), env), true, env.regen, k);
  }

  /** The guard of rearm, on the record and the due time it reads. */
  predicate ResetsFor(cfg: Config, rec: LifetimeRecord, due: Time, env: RearmEnv) {
    env.readable && rec.birth != ZERO_TIME &&
    (due <= rec.birth + MINUTE || env.at - rec.birth <= cfg.healthInterval * 2)
  }

  lemma RearmInStep(cfg: Config, mid: Machine, env: RearmEnv)
    ensures InStep(Rearm(cfg, mid, env).s) <==>
            InStep(mid.s) || ResetsFor(cfg, mid.s.rec, mid.s.schedule.nextRefresh, env)
  {
  }

  /** A tick leaves the timer in step exactly when it applies nothing, or the attempt it
      applies reports the very time the timer is set for, or rearm comes within two health
      intervals of the last birth saved, or the reported time is within a minute of it. */
  lemma {:induction false} InStepExactly(cfg: Config, m: Machine, env: TickEnv, k: nat)
    requires Enough(env.regen) && InStep(m.s) && k == FirstSuccess(cfg, env.regen, 0)
    ensures !Applies(cfg, m, env) ==> InStep(Iterate(cfg, m, Tick(env)).s)
    ensures Applies(cfg, m, env) ==>
              var rec := AfterBirths(AfterLoss(m.s, env.lossIO), env.regen, k + 1);
              var due := ReportedDue(cfg, rec, env.regen.attempts[k]);
              InStep(Iterate(cfg, m, Tick(env)).s) <==> due == m.s.schedule.timer || ResetsFor(cfg, rec, due, env.rearm)
  {
    var mid := HealthTick(cfg, m, env);
    TickSchedule(cfg, m, env);
    RearmInStep(cfg, mid, env.rearm);
    if Applies(cfg, m, env) {
      TickReports(cfg, m, env, k);
    }
  }

  lemma {:induction false} OnlyBirthChanges(rec: LifetimeRecord, env: RegenEnv, n: nat)
    requires n <= |env.attempts|
    ensures AfterBirths(rec, env, n) == rec.(birth := AfterBirths(rec, env, n).birth)
  {
    if n > 0 {
      OnlyBirthChanges(rec, env, n - 1);
    }
  }

  /** In particular, when the birth of the applied attempt is saved and rearm can read it. */
  lemma {:induction false} InStepAfterSavedBirth(cfg: Config, m: Machine, env: TickEnv, k: nat)
    requires Enough(env.regen) && InStep(m.s) && Applies(cfg, m, env) && env.rearm.readable
    requires k == FirstSuccess(cfg, env.regen, 0)
    requires env.regen.attempts[k].birthIO.StoreOk? && env.regen.attempts[k].start > 0
    ensures var a := env.regen.attempts[k];
            var due := ReportedDue(cfg, AfterLoss(m.s, env.lossIO).(birth := a.start), a);
            InStep(Iterate(cfg, m, Tick(env)).s) <==>
            env.rearm.at - a.start <= 2 * cfg.healthInterval || due <= a.start + MINUTE || due == m.s.schedule.timer
  {
    var rec := AfterLoss(m.s, env.lossIO);
    InStepExactly(cfg, m, env, k);
    OnlyBirthChanges(rec, env.regen, k);
    assert AfterBirths(rec, env.regen, k + 1) == rec.(birth := env.regen.attempts[k].start);
  }

  /** An applied registration whose birth was saved reaches rearm within two health
      intervals of that birth, with the record readable. */
  predicate Prompt(cfg: Config, m: Machine, it: Iteration)
    requires IterationOk(it)
  {
    it.Tick? && Applies(cfg, m, it.tick) ==>
      var k, s := FirstSuccess(cfg, it.tick.regen, 0), HealthTick(cfg, m, it.tick).s;
      && it.tick.regen.attempts[k].birthIO.StoreOk? && it.tick.rearm.readable
      && s.schedule.lastGenerate != ZERO_TIME
      && it.tick.rearm.at - s.schedule.lastGenerate <= cfg.healthInterval * 2
  }

  predicate AllPrompt(cfg: Config, init: State, start: StartEnv, its: seq<Iteration>)
    requires Enough(start.regen) && AllOk(its)
  {
    its == [] ||
    (AllPrompt(cfg, init, start, its[..|its| - 1]) &&
     Prompt(cfg, Run(cfg, init, start, its[..|its| - 1]), its[|its| - 1]))
  }

  lemma PromptKeepsInStep(cfg: Config, m: Machine, it: Iteration)
    requires IterationOk(it) && InStep(m.s) && Prompt(cfg, m, it)
    ensures InStep(Iterate(cfg, m, it).s)
  {
    if it.Tick? {
      TickSchedule(cfg, m, it.tick);
    }
  }

  /** At every turn of the loop the timer is due exactly when status.json says. */
  lemma {:induction false} TimerAlwaysInStep(cfg: Config, init: State, start: StartEnv, its: seq<Iteration>)
    requires Enough(start.regen) && AllOk(its) && AllPrompt(cfg, init, start, its)
    ensures InStep(Run(cfg, init, start, its).s)
  {
    if its != [] {
      TimerAlwaysInStep(cfg, init, start, its[..|its| - 1]);
      PromptKeepsInStep(cfg, Run(cfg, init, start, its[..|its| - 1]), its[|its| - 1]);
    }
  }

  // ----- Health ticks cannot starve the refresh -----

  /** A tick that mints nothing, long after the registration's birth, with the
      record readable whenever it is read again. */
  predicate Quiet(cfg: Config, m: Machine, env: TickEnv)
    requires Enough(env.regen)
  {
    && HealthTick(cfg, m, env).s.disk.births == m.s.disk.births
    && env.rearm.at - m.s.rec.birth > cfg.healthInterval * 2
    && env.rearm.arm.readable && env.rearm.arm.at >= env.rearm.at
  }

  predicate AllEnough(envs: seq<TickEnv>) {
    forall env | env in envs :: Enough(env.regen)
  }

  function Ticks(cfg: Config, m: Machine, envs: seq<TickEnv>): Machine
    requires AllEnough(envs)
  {
    if envs == [] then m
    else Iterate(cfg, Ticks(cfg, m, envs[..|envs| - 1]), Tick(envs[|envs| - 1]))
  }

  predicate AllQuiet(cfg: Config, m: Machine, envs: seq<TickEnv>)
    requires AllEnough(envs)
  {
    envs == [] ||
    (AllQuiet(cfg, m, envs[..|envs| - 1]) &&
     Quiet(cfg, Ticks(cfg, m, envs[..|envs| - 1]), envs[|envs| - 1]))
  }

  /** The schedule looks further than a minute past the birth, so rearm leaves it alone. */
  predicate Settled(s: State) {
    s.schedule.nextRefresh > s.rec.birth + MINUTE
  }

  /** A quiet tick that moves the schedule settles it, and a settled schedule stays. */
  lemma QuietTick(cfg: Config, m: Machine, env: TickEnv)
    requires Enough(env.regen) && Quiet(cfg, m, env) && cfg.healthInterval >= 0
    ensures var s := Iterate(cfg, m, Tick(env)).s;
            && (s.schedule != m.s.schedule ==> Settled(s))
            && (Settled(m.s) ==> s.schedule == m.s.schedule && Settled(s))
  {
    TickSchedule(cfg, m, env);
  }

  lemma {:induction false} SettledTicks(cfg: Config, m: Machine, envs: seq<TickEnv>)
    requires AllEnough(envs) && AllQuiet(cfg, m, envs) && cfg.healthInterval >= 0
    requires Settled(m.s)
    ensures var s := Ticks(cfg, m, envs).s; s.schedule == m.s.schedule && Settled(s)
  {
    if envs != [] {
      SettledTicks(cfg, m, envs[..|envs| - 1]);
      QuietTick(cfg, Ticks(cfg, m, envs[..|envs| - 1]), envs[|envs| - 1]);
    }
  }

  /** Quiet ticks move the timer at most once: after the first that moves it, no
      number of further quiet ticks does, so the deadline is reached. */
  lemma {:induction false} TicksMoveTimerAtMostOnce(cfg: Config, m: Machine, first: TickEnv, rest: seq<TickEnv>)
    requires cfg.healthInterval >= 0 && Enough(first.regen) && AllEnough(rest)
    requires Quiet(cfg, m, first) && AllQuiet(cfg, Iterate(cfg, m, Tick(first)), rest)
    requires Iterate(cfg, m, Tick(first)).s.schedule != m.s.schedule
    ensures Ticks(cfg, Iterate(cfg, m, Tick(first)), rest).s.schedule == Iterate(cfg, m, Tick(first)).s.schedule
  {
    QuietTick(cfg, m, first);
    SettledTicks(cfg, Iterate(cfg, m, Tick(first)), rest);
  }

  // ----- The deadline against the expiry -----

  /** A timer set from a readable record more than a minute before the measured
      expiry goes off before it, when the lifetime is at least an hour and covers
      the jitter. */
  lemma TimerBeatsMeasuredExpiry(cfg: Config, m: Machine, env: ArmEnv)
    requires env.readable && DrawOk(cfg.jitterMax, env.draw)
    requires Sound(m.s.rec) && m.s.rec.birth != ZERO_TIME && MeasuredLifetime(m.s.rec).Some?
    requires MeasuredLifetime(m.s.rec).value >= HOUR && cfg.jitterMax <= MeasuredLifetime(m.s.rec).value
    requires env.at + MINUTE < m.s.rec.birth + MeasuredLifetime(m.s.rec).value
    ensures SetTimer(cfg, m, env).s.schedule.timer < m.s.rec.birth + MeasuredLifetime(m.s.rec).value
  {
    DueBeforeMeasuredExpiry(m.s.rec, cfg.fallback, cfg.maxAge, cfg.jitterMax, env.at, env.draw);
  }
}
