/** What the daemon really arms: the deadline of its timer from the settings, the record
    and the draw, and the documented promises carried over to it. */
module ArmedTimer {
  import opened Common
  import opened Lifetime
  import opened RefreshModel
  import opened RefreshSpec
  import opened Cadence

  function SettingsOf(cfg: Config): Settings {
    Settings(cfg.fallback, cfg.maxAge, cfg.jitterMax)
  }

  /** How far a draw moves a refresh; none when there is no jitter or no randomness. */
  function Offset(jitterMax: Duration, draw: Option<nat>): Duration {
    if jitterMax > 0 && draw.Some? then draw.value - jitterMax / 2 else 0
  }

  /** The interval wanted, with its floor. */
  function Cadenced(cfg: Config, rec: LifetimeRecord): Duration {
    Max(30 * MINUTE, Wanted(rec, SettingsOf(cfg)))
  }

  /** The deadline: from the birth, but at least a minute ahead; from now while no birth is
      known; and from now by the configured interval when the record cannot be read. */
  lemma DeadlineExactly(cfg: Config, rec: LifetimeRecord, env: ArmEnv)
    requires Sound(rec)
    ensures NextDue(cfg, rec, env.at, env.readable, env.draw) ==
            if !env.readable then env.at + cfg.fallback + Offset(cfg.jitterMax, env.draw)
            else if rec.birth == ZERO_TIME then env.at + Cadenced(cfg, rec) + Offset(cfg.jitterMax, env.draw)
            else Max(env.at + MINUTE, rec.birth + Cadenced(cfg, rec) + Offset(cfg.jitterMax, env.draw))
  {
    IntervalIsWanted(rec, SettingsOf(cfg));
  }

  /** Setting the timer sets it, and the time that is reported, to that deadline. */
  lemma TimerExactly(cfg: Config, m: Machine, env: ArmEnv)
    requires Sound(m.s.rec)
    ensures var s, rec := SetTimer(cfg, m, env).s, m.s.rec;
            && s.schedule.timer == s.schedule.nextRefresh
            && s.schedule.timer ==
               (if !env.readable then env.at + cfg.fallback + Offset(cfg.jitterMax, env.draw)
                else if rec.birth == ZERO_TIME then env.at + Cadenced(cfg, rec) + Offset(cfg.jitterMax, env.draw)
                else Max(env.at + MINUTE, rec.birth + Cadenced(cfg, rec) + Offset(cfg.jitterMax, env.draw)))
  {
    DeadlineExactly(cfg, m.s.rec, env);
  }

  /** The time that an applied attempt reports is that deadline, for the record as it is then. */
  lemma ReportedExactly(cfg: Config, m: Machine, env: AttemptEnv)
    requires Succeeds(cfg, env)
    ensures var s := RegenerateOnce(cfg, m, env).s;
            Sound(s.rec) ==>
              s.schedule.nextRefresh ==
              (if !env.arm.readable then env.arm.at + cfg.fallback + Offset(cfg.jitterMax, env.arm.draw)
               else if s.rec.birth == ZERO_TIME
               then env.arm.at + Cadenced(cfg, s.rec) + Offset(cfg.jitterMax, env.arm.draw)
               else Max(env.arm.at + MINUTE, s.rec.birth + Cadenced(cfg, s.rec) + Offset(cfg.jitterMax, env.arm.draw)))
  {
    var s := RegenerateOnce(cfg, m, env).s;
    if Sound(s.rec) {
      DeadlineExactly(cfg, s.rec, env.arm);
    }
  }

  // ----- Every draw -----

  /** The timer set at `at` from the stored record, whatever the draw. */
  ghost predicate TimerAlwaysBy(cfg: Config, m: Machine, at: Time, limit: Time) {
    forall draw | DrawOk(cfg.jitterMax, draw) :: SetTimer(cfg, m, ArmEnv(at, true, draw)).s.schedule.timer <= limit
  }

  ghost predicate TimerAlwaysFrom(cfg: Config, m: Machine, at: Time, limit: Time) {
    forall draw | DrawOk(cfg.jitterMax, draw) :: SetTimer(cfg, m, ArmEnv(at, true, draw)).s.schedule.timer >= limit
  }

  lemma TimerIsDue(cfg: Config, m: Machine, at: Time)
    ensures forall draw :: SetTimer(cfg, m, ArmEnv(at, true, draw)).s.schedule.timer ==
                           Due(m.s.rec, SettingsOf(cfg), at, draw)
    ensures forall limit :: TimerAlwaysBy(cfg, m, at, limit) <==> AlwaysBy(m.s.rec, SettingsOf(cfg), at, limit)
    ensures forall limit :: TimerAlwaysFrom(cfg, m, at, limit) <==> AlwaysFrom(m.s.rec, SettingsOf(cfg), at, limit)
  {
  }

  /** The three promises on the timer itself, set at the birth: at most half the measured
      lifetime, at most half the maximum age, at least half an hour. */
  lemma PromisesExactly(cfg: Config, m: Machine)
    requires Sound(m.s.rec) && m.s.rec.birth != ZERO_TIME
    ensures var rec := m.s.rec;
            MeasuredLifetime(rec).Some? ==>
              (TimerAlwaysBy(cfg, m, rec.birth, rec.birth + MeasuredLifetime(rec).value / 2) <==>
               Max(30 * MINUTE, Capped(MeasuredLifetime(rec).value, cfg.maxAge) / 2) + Latest(cfg.jitterMax) <=
               MeasuredLifetime(rec).value / 2)
    ensures var rec := m.s.rec;
            cfg.maxAge > 0 ==>
              (TimerAlwaysBy(cfg, m, rec.birth, rec.birth + cfg.maxAge / 2) <==>
               && 30 * MINUTE + Latest(cfg.jitterMax) <= cfg.maxAge / 2
               && Wanted(rec, SettingsOf(cfg)) + Latest(cfg.jitterMax) <= cfg.maxAge / 2)
    ensures var rec := m.s.rec;
            TimerAlwaysFrom(cfg, m, rec.birth, rec.birth + 30 * MINUTE) <==>
            cfg.jitterMax <= 1 || Wanted(rec, SettingsOf(cfg)) >= 30 * MINUTE + cfg.jitterMax / 2
  {
    var rec, c := m.s.rec, SettingsOf(cfg);
    TimerIsDue(cfg, m, rec.birth);
    HalfHourExactly(rec, c);
    if MeasuredLifetime(rec).Some? {
      assert Shortest(rec.observed) >= 0;
      HalfLifetimeExactly(rec, c);
    }
    if cfg.maxAge > 0 {
      HalfMaxAgeExactly(rec, c);
    }
  }
}
