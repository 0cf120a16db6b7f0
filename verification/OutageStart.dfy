/** The recorded start of the current outage. */
module OutageStart {
  import opened Common
  import opened RefreshModel
  import opened Cooldown
  import opened Measurement

  /** i is the first sample after the last healthy one. */
  ghost predicate Begins(trace: seq<Event>, i: int) {
    && SinceHealthy(trace) <= i < |trace| && trace[i].Sampled?
    && forall j | SinceHealthy(trace) <= j < i :: !trace[j].Sampled?
  }

  predicate AnySample(trace: seq<Event>) {
    exists i | 0 <= i < |trace| :: trace[i].Sampled?
  }

  ghost predicate Inv(m: Machine) {
    && (m.s.health.unhealthySince == ZERO_TIME ==>
          forall i | SinceHealthy(m.trace) <= i < |m.trace| :: !m.trace[i].Sampled?)
    && (m.s.health.unhealthySince != ZERO_TIME ==>
          exists i :: Begins(m.trace, i) && m.trace[i].at == m.s.health.unhealthySince)
    && (AnySample(m.trace) ==> (m.s.health.tunnelHealthy <==> m.s.health.unhealthySince == ZERO_TIME))
  }

  lemma StepKeepsInv(cfg: Config, b: Machine, m: Machine, e: Event)
    requires Inv(b) && Timely(cfg, b.s, e)
    requires m.s == Apply(cfg, b.s, e) && m.trace == b.trace + [e]
    ensures Inv(m)
  {
    var n := |b.trace|;
    assert m.trace[..n] == b.trace && m.trace[n] == e;
    if HealthySample(e) {
    } else {
      assert SinceHealthy(m.trace) == SinceHealthy(b.trace);
      if b.s.health.unhealthySince != ZERO_TIME {
        var i :| Begins(b.trace, i) && b.trace[i].at == b.s.health.unhealthySince;
        assert Begins(m.trace, i);
        assert AnySample(b.trace);
      } else if e.Sampled? {
        assert Begins(m.trace, n);
      } else if AnySample(m.trace) {
        var i :| 0 <= i < |m.trace| && m.trace[i].Sampled?;
        assert b.trace[i].Sampled?;
      }
    }
  }

  lemma {:induction false} AlwaysInv(cfg: Config, m: Machine)
    requires Real(cfg, m)
    ensures Inv(m)
    decreases |m.trace|
  {
    if m.trace != [] {
      BeforeIsReal(cfg, m);
      AlwaysInv(cfg, Before(cfg, m));
      StepKeepsInv(cfg, Before(cfg, m), m, m.trace[|m.trace| - 1]);
    }
  }

  /** In every run with a sample, the tunnel counts as healthy exactly when no outage
      start is recorded, and a recorded start is the first sample of the current
      unbroken run of unhealthy ones. */
  lemma UnhealthySinceIsFirstOfSuffix(cfg: Config, m: Machine)
    requires Real(cfg, m) && AnySample(m.trace)
    ensures m.s.health.tunnelHealthy <==> m.s.health.unhealthySince == ZERO_TIME
    ensures m.s.health.tunnelHealthy <==> forall i | SinceHealthy(m.trace) <= i < |m.trace| :: !m.trace[i].Sampled?
    ensures !m.s.health.tunnelHealthy ==>
              exists i :: Begins(m.trace, i) && !m.trace[i].healthy && m.trace[i].at == m.s.health.unhealthySince
  {
    AlwaysInv(cfg, m);
  }
}
