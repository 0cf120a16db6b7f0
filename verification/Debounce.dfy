/** When a health tick starts a reactive recovery, told from the run alone. */
module Debounce {
  import opened Common
  import opened Lifetime
  import opened Alerts
  import opened RefreshModel
  import opened RefreshSpec
  import opened RefreshLawful
  import opened Cooldown
  import opened Attempts

  /** Unhealthy samples since the later of the last healthy sample and the last
      applied reactive recovery. */
  function UnhealthyRun(trace: seq<Event>): nat {
    if trace == [] then 0
    else match trace[|trace| - 1]
      case Sampled(_, healthy, _) => if healthy then 0 else UnhealthyRun(trace[..|trace| - 1]) + 1
      case RecoveryApplied(_, _) => 0
      case _ => UnhealthyRun(trace[..|trace| - 1])
  }

  /** When the last reactive recovery was applied; ZERO_TIME when there was none. */
  function LastApplied(trace: seq<Event>): Time {
    if trace == [] then ZERO_TIME
    else match trace[|trace| - 1]
      case RecoveryApplied(_, at) => at
      case _ => LastApplied(trace[..|trace| - 1])
  }

  /** Recoveries decided since the last healthy sample while an earlier one, applied
      since then too, had not helped. */
  function Fruitless(trace: seq<Event>): nat {
    if trace == [] then 0
    else
      var earlier := trace[..|trace| - 1];
      match trace[|trace| - 1]
      case Sampled(_, healthy, _) => if healthy then 0 else Fruitless(earlier)
      case Accounted(_, _, _) => if Streak(earlier) != [] then Fruitless(earlier) + 1 else Fruitless(earlier)
      case _ => Fruitless(earlier)
  }

  ghost predicate Inv(m: Machine) {
    && m.s.health.consecutive == UnhealthyRun(m.trace)
    && m.s.recoveries.last == LastApplied(m.trace)
    && m.s.recoveries.ineffective == Fruitless(m.trace)
  }

  /** The three counts after one more event. */
  lemma {:induction false} OneMore(trace: seq<Event>, e: Event)
    ensures UnhealthyRun(trace + [e]) ==
            if e.Sampled? then (if e.healthy then 0 else UnhealthyRun(trace) + 1)
            else if e.RecoveryApplied? then 0 else UnhealthyRun(trace)
    ensures LastApplied(trace + [e]) == if e.RecoveryApplied? then e.at else LastApplied(trace)
    ensures Fruitless(trace + [e]) ==
            if e.Sampled? && e.healthy then 0
            else if e.Accounted? && Streak(trace) != [] then Fruitless(trace) + 1 else Fruitless(trace)
  {
    assert (trace + [e])[..|trace|] == trace;
  }

  /** What one event does to the fields that hold the counts. */
  lemma OneMoreApplied(cfg: Config, s: State, e: Event)
    ensures var s' := Apply(cfg, s, e);
            && s'.health.consecutive == (
              if e.Sampled? then (if e.healthy then 0 else s.health.consecutive + 1)
              else if e.RecoveryApplied? then 0 else s.health.consecutive)
            && s'.recoveries.last == (if e.RecoveryApplied? then e.at else s.recoveries.last)
            && s'.recoveries.ineffective == (
              if e.Sampled? && e.healthy then 0
              else if e.Accounted? && e.ineffective then s.recoveries.ineffective + 1 else s.recoveries.ineffective)
  {
  }

  lemma StepKeepsInv(cfg: Config, b: Machine, m: Machine, e: Event)
    requires Inv(b) && StreakFits(b) && Enabled(cfg, b.s, e)
    requires m.s == Apply(cfg, b.s, e) && m.trace == b.trace + [e]
    ensures Inv(m)
  {
    OneMore(b.trace, e);
    OneMoreApplied(cfg, b.s, e);
  }

  lemma {:induction false} AlwaysInv(cfg: Config, m: Machine)
    requires Lawful(cfg, m)
    ensures Inv(m)
    decreases |m.trace|
  {
    if m.trace != [] {
      BeforeIsLawful(cfg, m);
      AlwaysInv(cfg, Before(cfg, m));
      StreakAlwaysFits(cfg, Before(cfg, m));
      StepKeepsInv(cfg, Before(cfg, m), m, m.trace[|m.trace| - 1]);
    }
  }

  /** The condition for a recovery, counted in the run. */
  ghost predicate Due(cfg: Config, trace: seq<Event>, checkAt: Time) {
    && UnhealthyRun(trace) >= Max(1, cfg.threshold)
    && (LastApplied(trace) == ZERO_TIME || checkAt - LastApplied(trace) >= CooldownAfter(cfg, Fruitless(trace)))
  }

  lemma DueIsRecovers(cfg: Config, m: Machine, checkAt: Time)
    requires Inv(m)
    ensures Due(cfg, m.trace, checkAt) <==> Recovers(cfg, m.s, checkAt)
  {
  }

  lemma ObservedInv(cfg: Config, m: Machine, healthy: bool, now: Time)
    requires Lawful(cfg, m) && AtRest(m)
    ensures Inv(Observe(cfg, m, healthy, now))
  {
    ObserveLawful(cfg, m, healthy, now);
    AlwaysInv(cfg, Observe(cfg, m, healthy, now));
  }

  /** The tick's own sample, and the recovery it starts or does not. */
  ghost predicate TickFits(cfg: Config, trace: seq<Event>, env: TickEnv, longer: seq<Event>) {
    var n := |trace|;
    && |longer| > n && trace <= longer
    && longer[n].Sampled? && longer[n].healthy == env.healthy && longer[n].at == env.now
    && (if !env.healthy && Due(cfg, longer[..n + 1], env.checkAt)
        then |longer| > n + 1 && longer[n + 1] == RecoveryBegan(env.checkAt)
        else |longer| == n + 1)
  }

  lemma RecoveryBeginsTheTrace(cfg: Config, m: Machine, env: TickEnv)
    requires Enough(env.regen)
    ensures var trace := Regenerate(cfg, BeginRecovery(cfg, m, env), true, env.regen).trace;
            m.trace + [RecoveryBegan(env.checkAt)] <= trace
  {
    var m1 := BeginRecovery(cfg, m, env);
    RegenerationExactly(cfg, m1, true, env.regen, FirstSuccess(cfg, env.regen, 0));
    assert m.trace + [RecoveryBegan(env.checkAt)] <= m1.trace;
  }

  lemma ObservedTickFits(cfg: Config, m: Machine, env: TickEnv)
    requires Inv(Observe(cfg, m, env.healthy, env.now)) && Enough(env.regen)
    ensures TickFits(cfg, m.trace, env, HealthTick(cfg, m, env).trace)
  {
    var m1 := Observe(cfg, m, env.healthy, env.now);
    DueIsRecovers(cfg, m1, env.checkAt);
    RecoveryBeginsTheTrace(cfg, m1, env);
    assert HealthTick(cfg, m, env).trace[..|m.trace| + 1] == m1.trace;
  }

  /** A tick records its sample, and then starts a recovery exactly when the sample
      is unhealthy, makes enough unhealthy samples in a row, and finds the cooldown
      elapsed; otherwise it does nothing else. */
  lemma TickRecoversExactlyWhenDue(cfg: Config, m: Machine, env: TickEnv)
    requires Lawful(cfg, m) && AtRest(m) && Enough(env.regen)
    ensures TickFits(cfg, m.trace, env, HealthTick(cfg, m, env).trace)
  {
    ObservedInv(cfg, m, env.healthy, env.now);
    ObservedTickFits(cfg, m, env);
  }

  /** A short blip never recovers: while the unhealthy samples, the tick's own
      included, stay below the threshold, a tick only records its sample. */
  lemma IsolatedBlipDoesNotRecover(cfg: Config, m: Machine, env: TickEnv)
    requires Lawful(cfg, m) && AtRest(m) && Enough(env.regen)
    requires UnhealthyRun(m.trace) + 1 < Threshold(cfg)
    ensures HealthTick(cfg, m, env) == Observe(cfg, m, env.healthy, env.now)
  {
    ObservedInv(cfg, m, env.healthy, env.now);
    var m1 := Observe(cfg, m, env.healthy, env.now);
    OneMore(m.trace, m1.trace[|m.trace|]);
    assert m1.trace == m.trace + [m1.trace[|m.trace|]];
    assert !Recovers(cfg, m1.s, env.checkAt) || env.healthy;
  }
}
