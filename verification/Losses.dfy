/** When the death of a registration is recorded, told from the run and the store alone. */
module Losses {
  import opened Common
  import opened Lifetime
  import opened RefreshModel
  import opened RefreshSpec
  import opened RefreshLawful
  import opened Attempts
  import opened Cooldown
  import opened Debounce
  import opened Measurement

  /** A healthy sample, or an adoption, came after the last applied reactive recovery. */
  predicate ConfirmedSince(trace: seq<Event>) {
    trace != [] &&
    var e := trace[|trace| - 1];
    HealthySample(e) || e.Adopted? || (!e.RecoveryApplied? && ConfirmedSince(trace[..|trace| - 1]))
  }

  lemma {:induction false} OneMoreConfirmed(trace: seq<Event>, e: Event)
    ensures ConfirmedSince(trace + [e]) <==>
            HealthySample(e) || e.Adopted? || (!e.RecoveryApplied? && ConfirmedSince(trace))
  {
    assert (trace + [e])[..|trace|] == trace;
  }

  lemma {:induction false} ConfirmedExactly(cfg: Config, m: Machine)
    requires Lawful(cfg, m)
    ensures m.s.health.confirmed <==> ConfirmedSince(m.trace)
    decreases |m.trace|
  {
    if m.trace != [] {
      BeforeIsLawful(cfg, m);
      ConfirmedExactly(cfg, Before(cfg, m));
      OneMoreConfirmed(Before(cfg, m).trace, m.trace[|m.trace| - 1]);
    }
  }

  /** The last healthy sample is later than a birth that is recorded. */
  predicate SeenAfterBirth(init: State, trace: seq<Event>) {
    var n, birth := SinceHealthy(trace), RecordedBirth(init, trace);
    n > 0 && birth != ZERO_TIME && trace[n - 1].at > birth
  }

  /** Whole seconds from the recorded birth to the last healthy sample. */
  function KnownAge(init: State, trace: seq<Event>): int
    requires SinceHealthy(trace) > 0
  {
    (trace[SinceHealthy(trace) - 1].at - RecordedBirth(init, trace)) / SECOND
  }

  /** Clock readings are positive. */
  lemma {:induction false} HealthyIsLater(cfg: Config, m: Machine)
    requires Real(cfg, m)
    ensures SinceHealthy(m.trace) > 0 ==> m.trace[SinceHealthy(m.trace) - 1].at > 0
    decreases |m.trace|
  {
    if m.trace != [] {
      BeforeIsReal(cfg, m);
      HealthyIsLater(cfg, Before(cfg, m));
    }
  }

  lemma MeasurableExactly(cfg: Config, m: Machine)
    requires Real(cfg, m)
    ensures LossMeasurable(m.s) <==> ConfirmedSince(m.trace) && SeenAfterBirth(m.init, m.trace)
    ensures LossMeasurable(m.s) ==> WholeSeconds(m.s.health.lastHealthy - m.s.rec.birth) == KnownAge(m.init, m.trace)
  {
    ConfirmedExactly(cfg, m);
    Measurement.AlwaysInv(cfg, m);
    HealthyIsLater(cfg, m);
  }

  /** A tick's own unhealthy sample changes none of that. */
  lemma UnhealthySampleKeeps(cfg: Config, m: Machine, now: Time)
    ensures var m1 := Observe(cfg, m, false, now);
            && (LossMeasurable(m1.s) <==> LossMeasurable(m.s))
            && m1.s.rec == m.s.rec && m1.s.health.lastHealthy == m.s.health.lastHealthy
  {
  }

  /** The events from the decision to recover up to the first attempt. */
  ghost predicate BeginsWith(trace: seq<Event>, n: nat, loss: bool, seconds: int) {
    && |trace| > n + 2 && trace[n].RecoveryBegan? && trace[n + 1].Accounted?
    && if loss then |trace| > n + 3 && trace[n + 2] == LossRecorded(seconds) && trace[n + 3].AttemptBegan?
       else trace[n + 2].AttemptBegan?
  }

  lemma RecoveryRecordsExactly(cfg: Config, m: Machine, env: TickEnv)
    requires Enough(env.regen)
    ensures var trace := Regenerate(cfg, BeginRecovery(cfg, m, env), true, env.regen).trace;
            var loss := LossMeasurable(m.s) && env.lossIO.StoreOk?;
            BeginsWith(trace, |m.trace|, loss,
                       if loss then WholeSeconds(m.s.health.lastHealthy - m.s.rec.birth) else 0)
  {
    var m1 := BeginRecovery(cfg, m, env);
    RegenerationExactly(cfg, m1, true, env.regen, FirstSuccess(cfg, env.regen, 0));
    var trace := Regenerate(cfg, m1, true, env.regen).trace;
    assert forall i | 0 <= i < |m1.trace| :: trace[i] == m1.trace[i];
  }

  /** A due unhealthy tick records a loss, right after the accounting and before the first
      attempt, exactly when the store works, the registration was seen healthy or adopted
      since the last applied recovery, and the last healthy sample is later than the
      recorded birth; and what it records is the whole seconds between those two. */
  lemma LossRecordedExactly(cfg: Config, m: Machine, env: TickEnv)
    requires Real(cfg, m) && AtRest(m) && Enough(env.regen) && !env.healthy
    requires Due(cfg, m.trace + [Sampled(env.now, false, None)], env.checkAt)
    ensures var loss := env.lossIO == StoreOk && ConfirmedSince(m.trace) && SeenAfterBirth(m.init, m.trace);
            BeginsWith(HealthTick(cfg, m, env).trace, |m.trace| + 1, loss,
                       if loss then KnownAge(m.init, m.trace) else 0)
  {
    var m1 := Observe(cfg, m, false, env.now);
    ObservedInv(cfg, m, false, env.now);
    DueIsRecovers(cfg, m1, env.checkAt);
    MeasurableExactly(cfg, m);
    UnhealthySampleKeeps(cfg, m, env.now);
    RecoveryRecordsExactly(cfg, m1, env);
  }
}
