/** The once-per-outage alert policy. */
module Alerts {
  import opened Common

  datatype Alert = Failure(attempts: int) | Recovered(outage: Duration, attempts: int)

  datatype Policy = Policy(threshold: int, failures: nat, alerted: bool, outageStart: Time)

  function NewPolicy(threshold: int): Policy {
    Policy(threshold, 0, false, ZERO_TIME)
  }

  predicate AlertDue(p: Policy) {
    p.threshold > 0 && !p.alerted && p.failures + 1 >= p.threshold
  }

  function FailureAlert(p: Policy): Option<Alert> {
    if AlertDue(p) then Some(Failure(p.failures + 1)) else None
  }

  function AfterFailure(p: Policy, now: Time): Policy {
    Policy(p.threshold, p.failures + 1, p.alerted || AlertDue(p),
           if p.outageStart == ZERO_TIME then now else p.outageStart)
  }

  function RecoveredNotice(p: Policy, now: Time): Option<Alert> {
    if p.alerted
    then Some(Recovered(if p.outageStart == ZERO_TIME then 0 else now - p.outageStart, p.failures))
    else None
  }

  function AfterHealthy(p: Policy): Policy {
    NewPolicy(p.threshold)
  }

  class OutagePolicy {
    const threshold: int
    var failures: nat
    var alerted: bool
    var outageStart: Time

    function View(): Policy
      reads this
    {
      Policy(threshold, failures, alerted, outageStart)
    }

    constructor (threshold: int)
      ensures View() == NewPolicy(threshold)
    {
      this.threshold := threshold;
      failures, alerted, outageStart := 0, false, ZERO_TIME;
    }

    method Failed(now: Time) returns (fire: bool, attempts: int)
      modifies this
      ensures View() == AfterFailure(old(View()), now)
      ensures (if fire then Some(Failure(attempts)) else None) == FailureAlert(old(View()))
      ensures attempts == failures
    {
      if outageStart == ZERO_TIME {
        outageStart := now;
      }
      failures := failures + 1;
      if threshold <= 0 || alerted || failures < threshold {
        return false, failures;
      }
      alerted := true;
      return true, failures;
    }

    method Healthy(now: Time) returns (recovered: bool, outage: Duration, attempts: int)
      modifies this
      ensures View() == AfterHealthy(old(View()))
      ensures (if recovered then Some(Recovered(outage, attempts)) else None) == RecoveredNotice(old(View()), now)
    {
      recovered := alerted;
      outage := 0;
      if outageStart != ZERO_TIME {
        outage := now - outageStart;
      }
      attempts := failures;
      failures := 0;
      alerted := false;
      outageStart := ZERO_TIME;
    }

    method Snapshot() returns (failures: int, alerted: bool)
      ensures failures == View().failures && alerted == View().alerted
    {
      failures, alerted := this.failures, this.alerted;
    }
  }

  // ----- Any history of failed attempts and healthy samples -----

  datatype Report = Failing(at: Time) | Working(at: Time)

  function Told(p: Policy, r: Report): Policy {
    match r
    case Failing(at) => AfterFailure(p, at)
    case Working(_) => AfterHealthy(p)
  }

  function PolicyAfter(threshold: int, reports: seq<Report>): Policy {
    if reports == [] then NewPolicy(threshold)
    else Told(PolicyAfter(threshold, reports[..|reports| - 1]), reports[|reports| - 1])
  }

  /** What one report sends, given the policy it meets. */
  function Sends(p: Policy, r: Report): Option<Alert> {
    match r
    case Failing(_) => FailureAlert(p)
    case Working(at) => RecoveredNotice(p, at)
  }

  /** Everything sent over a history, in order. */
  function Sent(threshold: int, reports: seq<Report>): seq<Alert> {
    if reports == [] then []
    else
      var before := reports[..|reports| - 1];
      var rest := Sent(threshold, before);
      match Sends(PolicyAfter(threshold, before), reports[|reports| - 1])
      case Some(a) => rest + [a]
      case None => rest
  }

  /** The instants of the failed attempts since the last healthy sample, oldest first. */
  function CurrentOutage(reports: seq<Report>): seq<Time> {
    if reports == [] then []
    else match reports[|reports| - 1]
      case Failing(at) => CurrentOutage(reports[..|reports| - 1]) + [at]
      case Working(_) => []
  }

  ghost predicate RealInstants(reports: seq<Report>) {
    forall r | r in reports :: r.at != ZERO_TIME
  }

  lemma {:induction false} PolicyCountsTheOutage(threshold: int, reports: seq<Report>)
    requires RealInstants(reports)
    ensures var p, outage := PolicyAfter(threshold, reports), CurrentOutage(reports);
            && p.threshold == threshold
            && p.failures == |outage|
            && p.outageStart == (if outage == [] then ZERO_TIME else outage[0])
            && p.alerted == (threshold > 0 && |outage| >= threshold)
            && ZERO_TIME !in outage
  {
    if reports != [] {
      PolicyCountsTheOutage(threshold, reports[..|reports| - 1]);
    }
  }

  function ExactFailure(threshold: int, outage: seq<Time>): Option<Alert> {
    if threshold > 0 && |outage| + 1 == threshold then Some(Failure(threshold)) else None
  }

  function ExactNotice(threshold: int, outage: seq<Time>, at: Time): Option<Alert> {
    if threshold > 0 && |outage| >= threshold then Some(Recovered(at - outage[0], |outage|)) else None
  }

  /** The failure alert goes out with exactly the threshold-th failed attempt of
      an outage; the recovered notice goes out with exactly the first healthy
      sample after such an outage, and carries its true size and length. */
  lemma {:induction false} ExactAlerts(threshold: int, reports: seq<Report>, next: Report)
    requires RealInstants(reports + [next])
    ensures var outage := CurrentOutage(reports);
            Sends(PolicyAfter(threshold, reports), next) ==
            if next.Failing? then ExactFailure(threshold, outage) else ExactNotice(threshold, outage, next.at)
  {
    assert forall r | r in reports :: r in reports + [next];
    PolicyCountsTheOutage(threshold, reports);
  }

  /** Alerts strictly alternate, starting with a failure. */
  ghost predicate Alternates(sent: seq<Alert>) {
    forall i | 0 <= i < |sent| :: sent[i].Failure? <==> i % 2 == 0
  }

  lemma {:induction false} AlertsAlternate(threshold: int, reports: seq<Report>)
    ensures Alternates(Sent(threshold, reports))
    ensures PolicyAfter(threshold, reports).alerted <==> |Sent(threshold, reports)| % 2 == 1
    ensures threshold <= 0 ==> Sent(threshold, reports) == []
    ensures PolicyAfter(threshold, reports).threshold == threshold
  {
    if reports != [] {
      AlertsAlternate(threshold, reports[..|reports| - 1]);
    }
  }
}
