/** What a recorded lifetime measures. */
module Measurement {
  import opened Common
  import opened Lifetime
  import opened RefreshModel
  import opened Cooldown

  /** How many events there are up to and including the last recorded birth. */
  function SinceBirth(trace: seq<Event>): (n: nat)
    ensures n <= |trace|
    ensures n > 0 ==> trace[n - 1].BirthRecorded?
    ensures forall i | n <= i < |trace| :: !trace[i].BirthRecorded?
  {
    if trace == [] then 0
    else if trace[|trace| - 1].BirthRecorded? then |trace|
    else SinceBirth(trace[..|trace| - 1])
  }

  function SinceHealthy(trace: seq<Event>): (n: nat)
    ensures n <= |trace|
    ensures n > 0 ==> HealthySample(trace[n - 1])
    ensures forall i | n <= i < |trace| :: !HealthySample(trace[i])
  {
    if trace == [] then 0
    else if HealthySample(trace[|trace| - 1]) then |trace|
    else SinceHealthy(trace[..|trace| - 1])
  }

  /** The birth that the record holds after a trace. */
  function RecordedBirth(init: State, trace: seq<Event>): Time {
    var n := SinceBirth(trace);
    if n == 0 then init.rec.birth else trace[n - 1].at
  }

  ghost predicate Inv(m: Machine) {
    var s, healthy := m.s, SinceHealthy(m.trace);
    && s.rec.birth == RecordedBirth(m.init, m.trace)
    && s.health.lastHealthy == (if healthy == 0 then ZERO_TIME else m.trace[healthy - 1].at)
    && s.health.lastHealthy <= s.clock
    && (!s.stage.Resting? ==> s.health.lastHealthy <= s.stage.start)
    && (s.health.lastHealthy > s.rec.birth ==> healthy > SinceBirth(m.trace))
  }

  lemma {:induction false} SinceOfAppend(trace: seq<Event>, e: Event)
    ensures SinceBirth(trace + [e]) == if e.BirthRecorded? then |trace| + 1 else SinceBirth(trace)
    ensures SinceHealthy(trace + [e]) == if HealthySample(e) then |trace| + 1 else SinceHealthy(trace)
  {
    assert (trace + [e])[..|trace|] == trace;
  }

  /** Other events change neither instant, and keep the clock's order. */
  lemma QuietStep(cfg: Config, s: State, e: Event)
    requires Enabled(cfg, s, e) && Timely(cfg, s, e) && !e.BirthRecorded? && !HealthySample(e)
    requires s.health.lastHealthy <= s.clock && (!s.stage.Resting? ==> s.health.lastHealthy <= s.stage.start)
    ensures var s' := Apply(cfg, s, e);
            && s'.rec.birth == s.rec.birth && s'.health.lastHealthy == s.health.lastHealthy
            && s'.health.lastHealthy <= s'.clock
            && (!s'.stage.Resting? ==> s'.health.lastHealthy <= s'.stage.start)
  {
  }

  lemma QuietKeepsInv(cfg: Config, b: Machine, m: Machine, e: Event)
    requires Inv(b) && Enabled(cfg, b.s, e) && Timely(cfg, b.s, e)
    requires m.init == b.init && m.s == Apply(cfg, b.s, e) && m.trace == b.trace + [e]
    requires !e.BirthRecorded? && !HealthySample(e)
    ensures Inv(m)
  {
    SinceOfAppend(b.trace, e);
    QuietStep(cfg, b.s, e);
    assert RecordedBirth(m.init, m.trace) == RecordedBirth(b.init, b.trace);
  }

  lemma BirthKeepsInv(cfg: Config, b: Machine, m: Machine, e: Event)
    requires Inv(b) && Enabled(cfg, b.s, e) && e.BirthRecorded?
    requires m.init == b.init && m.s == Apply(cfg, b.s, e) && m.trace == b.trace + [e]
    ensures Inv(m)
  {
    SinceOfAppend(b.trace, e);
    assert forall i | 0 <= i < |b.trace| :: m.trace[i] == b.trace[i];
  }

  lemma HealthyKeepsInv(cfg: Config, b: Machine, m: Machine, e: Event)
    requires Inv(b) && Enabled(cfg, b.s, e) && Timely(cfg, b.s, e) && HealthySample(e)
    requires m.init == b.init && m.s == Apply(cfg, b.s, e) && m.trace == b.trace + [e]
    ensures Inv(m)
  {
    SinceOfAppend(b.trace, e);
    assert forall i | 0 <= i < |b.trace| :: m.trace[i] == b.trace[i];
  }

  lemma StepKeepsInv(cfg: Config, b: Machine, m: Machine, e: Event)
    requires Inv(b) && Enabled(cfg, b.s, e) && Timely(cfg, b.s, e)
    requires m.init == b.init && m.s == Apply(cfg, b.s, e) && m.trace == b.trace + [e]
    ensures Inv(m)
  {
    if e.BirthRecorded? {
      BirthKeepsInv(cfg, b, m, e);
    } else if HealthySample(e) {
      HealthyKeepsInv(cfg, b, m, e);
    } else {
      QuietKeepsInv(cfg, b, m, e);
    }
  }

  lemma {:induction false} AlwaysInv(cfg: Config, m: Machine)
    requires Real(cfg, m)
    ensures Inv(m)
    decreases |m.trace|
  {
    if m.trace != [] {
      BeforeIsReal(cfg, m);
      AlwaysInv(cfg, Before(cfg, m));
      StepKeepsInv(cfg, Before(cfg, m), m, m.trace[|m.trace| - 1]);
    }
  }

  /** In every run, each lifetime appended is the whole seconds from the currently
      recorded birth to the last healthy sample, and that sample was taken after
      the birth was recorded. So a registration never seen healthy after its
      birth was recorded is never measured. */
  lemma LossMeasuresTheRecordedBirth(cfg: Config, m: Machine, k: nat)
    requires Real(cfg, m) && k < |m.trace| && m.trace[k].LossRecorded?
    ensures var before := m.trace[..k];
            var birth, i := RecordedBirth(m.init, before), SinceHealthy(before) - 1;
            && SinceBirth(before) <= i < k && HealthySample(before[i])
            && birth != ZERO_TIME && before[i].at > birth
            && m.trace[k].seconds == (before[i].at - birth) / SECOND
            && Upto(cfg, m, k + 1).s.rec.observed ==
               LastN(Upto(cfg, m, k).s.rec.observed + [m.trace[k].seconds], MAX_OBSERVED)
  {
    UptoIsReal(cfg, m, k);
    AlwaysInv(cfg, Upto(cfg, m, k));
  }

  /** Nothing else ever changes the observed lifetimes. */
  lemma OnlyLossesAppend(cfg: Config, m: Machine, k: nat)
    requires Real(cfg, m) && k < |m.trace| && !m.trace[k].LossRecorded?
    ensures Upto(cfg, m, k + 1).s.rec.observed == Upto(cfg, m, k).s.rec.observed
  {
    UptoIsReal(cfg, m, k);
  }
}
