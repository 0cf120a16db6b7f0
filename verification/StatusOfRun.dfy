/** The fields of the status as facts of the run. */
module StatusOfRun {
  import opened Common
  import opened Lifetime
  import opened Alerts
  import opened RefreshModel
  import opened Cooldown
  import opened Debounce
  import opened Measurement
  import Outages
  import opened LostBirths
  import opened Status

  /** When the last sample was taken; ZERO_TIME when there was none. */
  function LastSample(trace: seq<Event>): Time {
    if trace == [] then ZERO_TIME
    else
      var e := trace[|trace| - 1];
      if e.Sampled? then e.at else LastSample(trace[..|trace| - 1])
  }

  /** When the last healthy sample was taken. */
  function LastHealthySample(trace: seq<Event>): Time {
    if SinceHealthy(trace) == 0 then ZERO_TIME else trace[SinceHealthy(trace) - 1].at
  }

  /** When the attempt last applied began, or the birth of the registration last adopted. */
  function AppliedStart(init: State, trace: seq<Event>): Time {
    if trace == [] then ZERO_TIME
    else
      var before, e := trace[..|trace| - 1], trace[|trace| - 1];
      if e.Applied? then LastStart(init, before)
      else if e.Adopted? then RecordedBirth(init, before)
      else AppliedStart(init, before)
  }

  lemma {:induction false} OneMoreFact(init: State, trace: seq<Event>, e: Event)
    ensures LastSample(trace + [e]) == if e.Sampled? then e.at else LastSample(trace)
    ensures RecoveriesIn(trace + [e]) ==
            RecoveriesIn(trace) + (if e.RecoveryApplied? then [Recovery(e.since, e.at)] else [])
    ensures AppliedStart(init, trace + [e]) ==
            if e.Applied? then LastStart(init, trace)
            else if e.Adopted? then RecordedBirth(init, trace)
            else AppliedStart(init, trace)
    ensures LastStart(init, trace + [e]) == if e.AttemptBegan? then e.at else LastStart(init, trace)
  {
    assert (trace + [e])[..|trace|] == trace;
  }

  ghost predicate Facts(m: Machine) {
    && m.s.health.lastCheck == LastSample(m.trace)
    && m.s.recoveries.count == |RecoveriesIn(m.trace)|
    && m.s.schedule.lastGenerate == AppliedStart(m.init, m.trace)
    && (!m.s.stage.Resting? ==> m.s.stage.start == LastStart(m.init, m.trace))
  }

  lemma StepKeepsFacts(cfg: Config, b: Machine, m: Machine, e: Event)
    requires Facts(b) && Enabled(cfg, b.s, e) && b.s.rec.birth == RecordedBirth(b.init, b.trace)
    requires m.init == b.init && m.s == Apply(cfg, b.s, e) && m.trace == b.trace + [e]
    ensures Facts(m)
  {
    OneMoreFact(b.init, b.trace, e);
  }

  lemma {:induction false} AlwaysFacts(cfg: Config, m: Machine)
    requires Real(cfg, m)
    ensures Facts(m)
    decreases |m.trace|
  {
    if m.trace != [] {
      BeforeIsReal(cfg, m);
      AlwaysFacts(cfg, Before(cfg, m));
      Measurement.AlwaysInv(cfg, Before(cfg, m));
      StepKeepsFacts(cfg, Before(cfg, m), m, m.trace[|m.trace| - 1]);
    }
  }

  lemma FailuresCounted(cfg: Config, m: Machine)
    requires Real(cfg, m)
    ensures m.s.policy.failures == |Outages.FailedSinceHealthy(m.trace)|
  {
    Outages.AlwaysInv(cfg, m);
    PolicyCountsTheOutage(cfg.alertAfter, Outages.Reports(m.trace));
  }

  /** Whole seconds, rounded toward the birth. */
  predicate IsAge(seconds: int, age: Duration) {
    age >= 0 ==> seconds * SECOND <= age < (seconds + 1) * SECOND
  }

  /** The status written from a run tells the run: its last sample, its last healthy sample,
      the end and number of its applied recoveries, its failed attempts since the last
      healthy sample, when the running configuration was applied, and the recorded birth
      with its age in whole seconds. */
  lemma StatusTellsTheRun(cfg: Config, m: Machine, region: string, now: Time, shown: Shown)
    requires Real(cfg, m)
    ensures var st := BuiltStatus(cfg, m.s, m.s.rec, region, now, shown);
            && st.lastHealthCheck == LastSample(m.trace)
            && st.lastHealthy == LastHealthySample(m.trace)
            && st.lastRecovery == LastApplied(m.trace)
            && st.recoveryCount == |RecoveriesIn(m.trace)|
            && st.failedAttempts == |Outages.FailedSinceHealthy(m.trace)|
            && st.lastGenerate == AppliedStart(m.init, m.trace)
            && st.registration == RecordedBirth(m.init, m.trace)
            && (st.registration != ZERO_TIME ==> IsAge(st.registrationAge, now - st.registration))
            && (st.registration == ZERO_TIME ==> st.registrationAge == 0)
            && st.refreshMode && st.region == region && st.portForwarding == cfg.portForwarding
            && st.nextRefresh == m.s.schedule.nextRefresh
  {
    AlwaysFacts(cfg, m);
    FailuresCounted(cfg, m);
    Measurement.AlwaysInv(cfg, m);
    Debounce.AlwaysInv(cfg, m);
  }

  /** The error shown is that of the last regeneration, or when that left none, that of the
      last sample. */
  lemma StatusTellsTheError(cfg: Config, s: State, rec: LifetimeRecord, region: string, now: Time, shown: Shown)
    ensures var notes := BuiltStatus(cfg, s, rec, region, now, shown).notes;
            && (shown.regenError != "" ==> notes.lastError == shown.regenError)
            && (shown.regenError == "" ==> notes.lastError == shown.healthError)
            && notes.controlStatus == shown.controlStatus && notes.ipv6Mode == shown.ipv6Mode
            && notes.serverName == shown.serverName
  {
  }

  /** The expiry and its source, and the lifetime shown. */
  lemma StatusTellsTheExpiry(cfg: Config, s: State, rec: LifetimeRecord, region: string, now: Time, shown: Shown)
    requires Sound(rec)
    ensures var st := BuiltStatus(cfg, s, rec, region, now, shown);
            && (rec.observed != [] ==>
                  st.measuredLifetime in rec.observed && forall a | a in rec.observed :: st.measuredLifetime <= a)
            && (st.lifetimeSource == "measured" <==> rec.birth != ZERO_TIME && rec.observed != [])
            && (st.lifetimeSource == "" <==> ExpectedExpiry(rec, cfg.fallback, cfg.maxAge).Unknown?)
  {
    assert "measured" != "fallback" && "" != "fallback" by {
      assert |"fallback"| == 8 && "measured"[0] == 'm' && "fallback"[0] == 'f';
    }
  }
}
