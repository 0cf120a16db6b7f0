/** The alerts of whole runs: the policy composed with the recovery machine. */
module Outages {
  import opened Common
  import opened Alerts
  import opened RefreshModel
  import opened Cooldown

  /** An event after a given run is a failed attempt: a regeneration that failed, or
      a recovery decided although one was applied since the last healthy sample. */
  predicate FailedAttempt(run: seq<Event>, e: Event) {
    e.AttemptFailed? || (e.Accounted? && Streak(run) != [])
  }

  /** What a run reports to the alert policy: failed attempts and
      healthy samples. */
  function Reports(trace: seq<Event>): seq<Report> {
    if trace == [] then []
    else
      var run, e := trace[..|trace| - 1], trace[|trace| - 1];
      if FailedAttempt(run, e) then Reports(run) + [Failing(e.at)]
      else if HealthySample(e) then Reports(run) + [Working(e.at)]
      else Reports(run)
  }

  function AlertOf(e: Event): Option<Alert> {
    match e
    case AttemptFailed(_, alert, _) => alert
    case Accounted(_, _, alert) => alert
    case Sampled(_, _, alert) => alert
    case _ => None
  }

  /** The failed attempts since the last healthy sample. */
  function FailedSinceHealthy(trace: seq<Event>): seq<Time> {
    CurrentOutage(Reports(trace))
  }

  ghost predicate Inv(cfg: Config, m: Machine) {
    var s, reports := m.s, Reports(m.trace);
    && s.policy == PolicyAfter(cfg.alertAfter, reports)
    && s.sent == Sent(cfg.alertAfter, reports)
    && RealInstants(reports)
    && (s.health.consecutive > 0 || s.phase.Began? ==> s.health.lastCheck > 0)
    && (!s.stage.Resting? ==> s.clock > 0)
  }

  lemma {:induction false} ReportsGrow(cfg: Config, reports: seq<Report>, r: Report)
    ensures PolicyAfter(cfg.alertAfter, reports + [r]) == Told(PolicyAfter(cfg.alertAfter, reports), r)
    ensures Sent(cfg.alertAfter, reports + [r]) ==
            Adding(Sent(cfg.alertAfter, reports), Sends(PolicyAfter(cfg.alertAfter, reports), r))
  {
    assert (reports + [r])[..|reports|] == reports;
  }

  lemma ReportKeepsInv(cfg: Config, b: Machine, m: Machine, e: Event, r: Report)
    requires Inv(cfg, b) && Enabled(cfg, b.s, e) && Timely(cfg, b.s, e)
    requires m.s == Apply(cfg, b.s, e) && m.trace == b.trace + [e]
    requires StreakFits(b)
    requires (FailedAttempt(b.trace, e) && r == Failing(e.at)) || (HealthySample(e) && r == Working(e.at))
    ensures Inv(cfg, m)
  {
    assert m.trace[..|m.trace| - 1] == b.trace;
    ReportsGrow(cfg, Reports(b.trace), r);
    assert forall x | x in Reports(m.trace) :: x in Reports(b.trace) || x == r;
  }

  lemma StepKeepsInv(cfg: Config, b: Machine, m: Machine, e: Event)
    requires Inv(cfg, b) && StreakFits(b) && Enabled(cfg, b.s, e) && Timely(cfg, b.s, e)
    requires m.s == Apply(cfg, b.s, e) && m.trace == b.trace + [e]
    ensures Inv(cfg, m)
  {
    if FailedAttempt(b.trace, e) {
      ReportKeepsInv(cfg, b, m, e, Failing(e.at));
    } else if HealthySample(e) {
      ReportKeepsInv(cfg, b, m, e, Working(e.at));
    } else {
      assert m.trace[..|m.trace| - 1] == b.trace;
      assert Reports(m.trace) == Reports(b.trace);
    }
  }

  lemma {:induction false} AlwaysInv(cfg: Config, m: Machine)
    requires Real(cfg, m)
    ensures Inv(cfg, m)
    decreases |m.trace|
  {
    if m.trace != [] {
      BeforeIsReal(cfg, m);
      AlwaysInv(cfg, Before(cfg, m));
      StreakAlwaysFits(cfg, Before(cfg, m));
      StepKeepsInv(cfg, Before(cfg, m), m, m.trace[|m.trace| - 1]);
    }
  }

  lemma AlertFits(cfg: Config, b: Machine, e: Event)
    requires Inv(cfg, b) && StreakFits(b) && Enabled(cfg, b.s, e)
    ensures var failed := FailedSinceHealthy(b.trace);
            AlertOf(e) ==
            if FailedAttempt(b.trace, e) then ExactFailure(cfg.alertAfter, failed)
            else if HealthySample(e) then ExactNotice(cfg.alertAfter, failed, e.at)
            else None
  {
    PolicyCountsTheOutage(cfg.alertAfter, Reports(b.trace));
  }

  /** Every event of every run sends exactly the alert it should: the failure alert
      with the alertAfter-th failed attempt since the last healthy sample, whatever
      triggered it and never when alerting is off; the recovered notice with the
      first healthy sample after such an outage, with the exact number of failed
      attempts and the time since the first of them. */
  lemma AlertsAreExact(cfg: Config, m: Machine, k: nat)
    requires Real(cfg, m) && k < |m.trace|
    ensures var failed := FailedSinceHealthy(m.trace[..k]);
            AlertOf(m.trace[k]) ==
            if FailedAttempt(m.trace[..k], m.trace[k]) then ExactFailure(cfg.alertAfter, failed)
            else if HealthySample(m.trace[k]) then ExactNotice(cfg.alertAfter, failed, m.trace[k].at)
            else None
  {
    UptoIsReal(cfg, m, k);
    AlwaysInv(cfg, Upto(cfg, m, k));
    StreakAlwaysFits(cfg, Upto(cfg, m, k));
    AlertFits(cfg, Upto(cfg, m, k), m.trace[k]);
  }

  /** Over every run the alerts alternate: failure, recovered, failure, ... */
  lemma RunAlertsAlternate(cfg: Config, m: Machine)
    requires Real(cfg, m)
    ensures Alternates(m.s.sent)
    ensures cfg.alertAfter <= 0 ==> m.s.sent == []
  {
    AlwaysInv(cfg, m);
    AlertsAlternate(cfg.alertAfter, Reports(m.trace));
  }
}
