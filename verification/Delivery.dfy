/** What the operator receives: the alert policy, the bounded queue and its worker together. */
module Delivery {
  import opened Common
  import opened Alerts
  import opened Dispatcher
  import RefreshModel
  import Outages

  /** How many of the offers were refused. */
  function Drops(offers: seq<Offer>): nat {
    if offers == [] then 0 else Drops(offers[..|offers| - 1]) + (if offers[|offers| - 1].fits then 0 else 1)
  }

  /** Before every event that was accepted an even number were refused. */
  ghost predicate EvenDrops(offers: seq<Offer>) {
    forall i | 0 <= i < |offers| && offers[i].fits :: Drops(offers[..i]) % 2 == 0
  }

  lemma {:induction false} OneMoreOffer(offers: seq<Offer>, o: Offer)
    ensures Offered(offers + [o]) == Offered(offers) + [o.alert]
    ensures Drops(offers + [o]) == Drops(offers) + (if o.fits then 0 else 1)
    ensures EvenDrops(offers + [o]) <==> EvenDrops(offers) && (o.fits ==> Drops(offers) % 2 == 0)
  {
    var longer := offers + [o];
    assert longer[..|offers|] == offers;
    forall i | 0 <= i < |offers|
      ensures longer[..i] == offers[..i] && longer[i] == offers[i]
    {
    }
  }

  lemma AlternatesAppend(xs: seq<Alert>, x: Alert)
    ensures Alternates(xs + [x]) <==> Alternates(xs) && (x.Failure? <==> |xs| % 2 == 0)
  {
    forall i | 0 <= i < |xs|
      ensures (xs + [x])[i] == xs[i]
    {
    }
    assert (xs + [x])[|xs|] == x;
  }

  lemma {:induction false} OffersSplit(offers: seq<Offer>)
    ensures |Offered(offers)| == |offers| && |Accepted(offers)| + Drops(offers) == |offers|
  {
    if offers != [] {
      OffersSplit(offers[..|offers| - 1]);
    }
  }

  /** What is accepted of alternating offers alternates too exactly when every accepted
      event comes after an even number of refused ones. */
  lemma {:induction false} AcceptedAlternatesExactly(offers: seq<Offer>)
    requires Alternates(Offered(offers))
    ensures Alternates(Accepted(offers)) <==> EvenDrops(offers)
  {
    if offers != [] {
      var init, last := offers[..|offers| - 1], offers[|offers| - 1];
      assert offers == init + [last];
      OneMoreOffer(init, last);
      AlternatesAppend(Offered(init), last.alert);
      AcceptedAlternatesExactly(init);
      AcceptedOfAppend(init, last);
      OffersSplit(init);
      if last.fits {
        AlternatesAppend(Accepted(init), last.alert);
      } else {
        assert Accepted(init) + [] == Accepted(init);
      }
    }
  }

  // ----- The failure alert before its recovered notice -----

  /** Which offers were accepted, in order. */
  function AcceptedAt(offers: seq<Offer>): seq<nat> {
    if offers == [] then []
    else AcceptedAt(offers[..|offers| - 1]) + (if offers[|offers| - 1].fits then [|offers| - 1] else [])
  }

  lemma {:induction false} AcceptedAtFits(offers: seq<Offer>)
    ensures |AcceptedAt(offers)| == |Accepted(offers)|
    ensures forall p | 0 <= p < |AcceptedAt(offers)| ::
              var i := AcceptedAt(offers)[p]; i < |offers| && offers[i].fits && Accepted(offers)[p] == offers[i].alert
    ensures forall i | 0 <= i < |offers| && offers[i].fits :: i in AcceptedAt(offers)
    ensures forall p, q | 0 <= p < q < |AcceptedAt(offers)| :: AcceptedAt(offers)[p] < AcceptedAt(offers)[q]
  {
    if offers != [] {
      var init := offers[..|offers| - 1];
      AcceptedAtFits(init);
    }
  }

  predicate IsNotice(offers: seq<Offer>, i: nat) {
    i < |offers| && offers[i].alert.Recovered?
  }

  predicate DirectlyAfter(at: seq<nat>, p: int) {
    0 < p < |at| && at[p - 1] + 1 == at[p]
  }

  /** Every recovered notice that is accepted comes directly after the failure alert of
      its own outage, the offer just before it. */
  ghost predicate NoticesFollow(offers: seq<Offer>) {
    var at := AcceptedAt(offers);
    forall p | 0 <= p < |at| && IsNotice(offers, at[p]) :: DirectlyAfter(at, p)
  }

  predicate IsOrphan(offers: seq<Offer>, i: nat) {
    IsNotice(offers, i) && offers[i].fits && (i == 0 || !offers[i - 1].fits)
  }

  /** No notice is accepted whose failure alert was refused. */
  ghost predicate NoOrphans(offers: seq<Offer>) {
    forall i | 0 <= i < |offers| :: !IsOrphan(offers, i)
  }

  lemma {:induction false} OfferedAt(offers: seq<Offer>)
    ensures |Offered(offers)| == |offers|
    ensures forall i | 0 <= i < |offers| :: Offered(offers)[i] == offers[i].alert
  {
    if offers != [] {
      OfferedAt(offers[..|offers| - 1]);
    }
  }

  lemma Neighbours(at: seq<nat>, q: int, p: int)
    requires 0 <= q < |at| && 0 <= p < |at| && at[q] + 1 == at[p]
    requires forall x, y | 0 <= x < y < |at| :: at[x] < at[y]
    ensures q == p - 1
  {
    forall x | 0 <= x < p - 1
      ensures at[x] + 1 < at[p]
    {
      assert at[x] < at[p - 1];
    }
  }

  /** An accepted offer's neighbour in the queue is the offer before it exactly when that was accepted. */
  lemma {:induction false} NeighbourExactly(offers: seq<Offer>, p: int)
    requires 0 <= p < |AcceptedAt(offers)| && 0 < AcceptedAt(offers)[p] < |offers|
    ensures DirectlyAfter(AcceptedAt(offers), p) <==> offers[AcceptedAt(offers)[p] - 1].fits
  {
    var at := AcceptedAt(offers);
    AcceptedAtFits(offers);
    if offers[at[p] - 1].fits {
      var i: nat := at[p] - 1;
      assert i in at;
      var q :| 0 <= q < |at| && at[q] == i;
      Neighbours(at, q, p);
    }
  }

  lemma {:induction false} NoticeIsNotFirst(offers: seq<Offer>, i: nat)
    requires Alternates(Offered(offers)) && IsNotice(offers, i)
    ensures i > 0
  {
    OfferedAt(offers);
  }

  /** Failure alerts precede their own notices exactly when no notice is accepted whose
      failure alert was refused. */
  lemma {:induction false} NoticesFollowExactly(offers: seq<Offer>)
    requires Alternates(Offered(offers))
    ensures NoticesFollow(offers) <==> NoOrphans(offers)
  {
    var at := AcceptedAt(offers);
    AcceptedAtFits(offers);
    if NoOrphans(offers) {
      forall p | 0 <= p < |at| && IsNotice(offers, at[p])
        ensures DirectlyAfter(at, p)
      {
        NoticeIsNotFirst(offers, at[p]);
        assert !IsOrphan(offers, at[p]);
        NeighbourExactly(offers, p);
      }
    } else {
      var i :| 0 <= i < |offers| && IsOrphan(offers, i);
      assert i in at;
      var p :| 0 <= p < |at| && at[p] == i;
      NoticeIsNotFirst(offers, i);
      NeighbourExactly(offers, p);
      assert IsNotice(offers, at[p]) && !DirectlyAfter(at, p);
    }
  }

  // ----- The alerts of a run -----

  /** When the alerts of a run have all been offered and the worker has stopped, what the
      operator got are the accepted ones; they alternate, and each notice comes directly
      after its own failure alert, exactly under these conditions on the refusals. At any
      earlier moment what was delivered is a first part of that. */
  lemma {:induction false} DeliveredExactly(cfg: RefreshModel.Config, m: RefreshModel.Machine, steps: seq<Step>)
    requires RefreshModel.Real(cfg, m) && SentBy(steps) == m.s.sent
    ensures After(steps).delivered <= Accepted(After(steps).offers)
    ensures After(steps).closed && !After(steps).exited ==>
              Drain(After(steps)).delivered == Accepted(After(steps).offers)
    ensures Alternates(Accepted(After(steps).offers)) <==> EvenDrops(After(steps).offers)
    ensures NoticesFollow(After(steps).offers) <==> NoOrphans(After(steps).offers)
  {
    var s := After(steps);
    NothingAcceptedIsLost(steps);
    Outages.RunAlertsAlternate(cfg, m);
    AcceptedAlternatesExactly(s.offers);
    NoticesFollowExactly(s.offers);
    if s.closed && !s.exited {
      StopDeliversEverything(steps);
    }
    assert s.delivered <= s.delivered + InFlight(s) + s.queue;
  }

  // ----- Dropped events -----

  /** Outages of one failed attempt each: report i comes at instant i + 1. */
  function Flapping(n: nat): seq<Report> {
    seq(n, i requires 0 <= i < n => if i % 2 == 0 then Failing(i + 1) else Working(i + 1))
  }

  function FlappingAlert(i: nat): Alert {
    if i % 2 == 0 then Failure(1) else Recovered(1, 1)
  }

  function FlappingAlerts(from: nat, n: nat): seq<Alert> {
    seq(n, i requires 0 <= i < n => FlappingAlert(from + i))
  }

  lemma {:induction false} FlappingSends(n: nat)
    ensures PolicyAfter(1, Flapping(n)) == if n % 2 == 0 then NewPolicy(1) else AfterFailure(NewPolicy(1), n)
    ensures Sent(1, Flapping(n)) == FlappingAlerts(0, n)
  {
    if n > 0 {
      FlappingSends(n - 1);
      assert Flapping(n)[..n - 1] == Flapping(n - 1);
      assert FlappingAlerts(0, n) == FlappingAlerts(0, n - 1) + [FlappingAlert(n - 1)];
    }
  }

  lemma OneMore(from: nat, n: nat)
    ensures FlappingAlerts(from, n + 1) == FlappingAlerts(from, n) + [FlappingAlert(from + n)]
  {
  }

  /** The schedule has sent the first n alerts, and the queue and the worker stand so. */
  ghost predicate Stands(steps: seq<Step>, n: nat, queue: seq<Alert>, flying: Option<Alert>, accepted: seq<Alert>) {
    var s := After(steps);
    && SentBy(steps) == FlappingAlerts(0, n) && s.queue == queue && s.inFlight == flying
    && Accepted(s.offers) == accepted && !s.closed && !s.exited
  }

  lemma OneStep(steps: seq<Step>, step: Step) returns (longer: seq<Step>)
    ensures longer == steps + [step] && After(longer) == Next(After(steps), step)
    ensures SentBy(longer) == SentBy(steps) + (if step.Send? then [step.alert] else [])
  {
    longer := steps + [step];
    assert longer[..|steps|] == steps;
  }

  lemma SendNext(steps: seq<Step>, n: nat, queue: seq<Alert>, flying: Option<Alert>, accepted: seq<Alert>)
    returns (longer: seq<Step>)
    requires Stands(steps, n, queue, flying, accepted)
    ensures |queue| < QUEUE_SIZE ==>
              Stands(longer, n + 1, queue + [FlappingAlert(n)], flying, accepted + [FlappingAlert(n)])
    ensures |queue| >= QUEUE_SIZE ==> Stands(longer, n + 1, queue, flying, accepted)
  {
    var alert := FlappingAlert(n);
    longer := OneStep(steps, Step.Send(alert));
    AcceptedOfAppend(After(steps).offers, Offer(alert, |queue| < QUEUE_SIZE));
    OneMore(0, n);
  }

  lemma {:induction false} SendSome(steps: seq<Step>, n: nat, k: nat, queue: seq<Alert>, flying: Option<Alert>,
                                    accepted: seq<Alert>)
    returns (longer: seq<Step>)
    requires Stands(steps, n, queue, flying, accepted) && |queue| + k <= QUEUE_SIZE
    ensures Stands(longer, n + k, queue + FlappingAlerts(n, k), flying, accepted + FlappingAlerts(n, k))
  {
    if k == 0 {
      longer := steps;
      assert FlappingAlerts(n, 0) == [];
    } else {
      longer := SendSome(steps, n, k - 1, queue, flying, accepted);
      var sent := FlappingAlerts(n, k - 1);
      longer := SendNext(longer, n + k - 1, queue + sent, flying, accepted + sent);
      OneMore(n, k - 1);
      assert queue + FlappingAlerts(n, k) == queue + FlappingAlerts(n, k - 1) + [FlappingAlert(n + k - 1)];
      assert accepted + FlappingAlerts(n, k) == accepted + FlappingAlerts(n, k - 1) + [FlappingAlert(n + k - 1)];
    }
  }

  lemma TakeNext(steps: seq<Step>, n: nat, queue: seq<Alert>, accepted: seq<Alert>) returns (longer: seq<Step>)
    requires queue != [] && Stands(steps, n, queue, None, accepted)
    ensures Stands(longer, n, queue[1..], Some(queue[0]), accepted)
  {
    longer := OneStep(steps, Take);
  }

  lemma FinishNext(steps: seq<Step>, n: nat, queue: seq<Alert>, flying: Alert, accepted: seq<Alert>)
    returns (longer: seq<Step>)
    requires Stands(steps, n, queue, Some(flying), accepted)
    ensures Stands(longer, n, queue, None, accepted)
  {
    longer := OneStep(steps, Finish);
  }

  lemma FlappingJoins(a: nat, b: nat)
    ensures FlappingAlerts(0, a) + FlappingAlerts(a, b) == FlappingAlerts(0, a + b)
  {
  }

  lemma FlappingOne()
    ensures FlappingAlerts(0, 0) == [] && FlappingAlerts(0, 1) == [FlappingAlert(0)]
  {
  }

  lemma Nothing()
    ensures Stands([], 0, [], None, [])
  {
    FlappingOne();
  }

  /** The worker has the first alert in hand, eight more are queued, and the tenth is dropped. */
  lemma DropTheTenth() returns (steps: seq<Step>)
    ensures Stands(steps, 10, FlappingAlerts(1, 8), Some(FlappingAlert(0)), FlappingAlerts(0, 9))
  {
    var first := FlappingAlert(0);
    Nothing();
    FlappingOne();
    FlappingJoins(1, 8);
    steps := SendNext([], 0, [], None, []);
    steps := TakeNext(steps, 1, [first], [first]);
    steps := SendSome(steps, 1, 8, [], Some(first), [first]);
    steps := SendNext(steps, 9, [] + FlappingAlerts(1, 8), Some(first), [first] + FlappingAlerts(1, 8));
  }

  /** When there is room again the eleventh follows the ninth. */
  lemma AcceptTheEleventh() returns (steps: seq<Step>)
    ensures SentBy(steps) == FlappingAlerts(0, 11) && After(steps).closed && !After(steps).exited
    ensures Accepted(After(steps).offers) == FlappingAlerts(0, 9) + [FlappingAlert(10)]
  {
    var queue, accepted := FlappingAlerts(1, 8), FlappingAlerts(0, 9);
    steps := DropTheTenth();
    steps := FinishNext(steps, 10, queue, FlappingAlert(0), accepted);
    steps := TakeNext(steps, 10, queue, accepted);
    steps := SendNext(steps, 10, queue[1..], Some(queue[0]), accepted);
    steps := OneStep(steps, Close);
  }

  /** Eight are queued before the worker takes any, the ninth is dropped, and the tenth,
      its notice, follows the eighth. */
  lemma AcceptTheTenth() returns (steps: seq<Step>)
    ensures SentBy(steps) == FlappingAlerts(0, 10) && After(steps).closed && !After(steps).exited
    ensures Accepted(After(steps).offers) == FlappingAlerts(0, 8) + [FlappingAlert(9)]
  {
    Nothing();
    var queue := FlappingAlerts(0, 8);
    steps := SendSome([], 0, 8, [], None, []);
    assert [] + queue == queue;
    steps := SendNext(steps, 8, queue, None, queue);
    steps := TakeNext(steps, 9, queue, queue);
    steps := SendNext(steps, 9, queue[1..], Some(queue[0]), queue);
    steps := OneStep(steps, Close);
  }

  /** When a recovered notice is dropped, two failure alerts can be delivered in a row. */
  lemma DroppedNoticeBreaksTheOrder() returns (reports: seq<Report>, steps: seq<Step>)
    ensures SentBy(steps) == Sent(1, reports) && Alternates(Sent(1, reports))
    ensures After(steps).closed && !After(steps).exited
    ensures var delivered := Drain(After(steps)).delivered;
            |delivered| == 10 && delivered[8] == Failure(1) && delivered[9] == Failure(1)
  {
    reports := Flapping(11);
    FlappingSends(11);
    AlertsAlternate(1, reports);
    steps := AcceptTheEleventh();
    StopDeliversEverything(steps);
    var delivered := Drain(After(steps)).delivered;
    assert delivered[8] == FlappingAlerts(0, 9)[8] == FlappingAlert(8) && delivered[9] == FlappingAlert(10);
  }

  /** The promise that a failure alert always precedes its recovered notice does not survive
      a full queue: when a failure alert is dropped, its notice can be delivered, directly
      after the notice of the outage before. */
  lemma DroppedFailureOrphansItsNotice() returns (reports: seq<Report>, steps: seq<Step>)
    ensures SentBy(steps) == Sent(1, reports) && Alternates(Sent(1, reports))
    ensures After(steps).closed && !After(steps).exited
    ensures var delivered := Drain(After(steps)).delivered;
            |delivered| == 9 && delivered[7] == Recovered(1, 1) && delivered[8] == Recovered(1, 1)
  {
    reports := Flapping(10);
    FlappingSends(10);
    AlertsAlternate(1, reports);
    steps := AcceptTheTenth();
    StopDeliversEverything(steps);
    var delivered := Drain(After(steps)).delivered;
    assert delivered[7] == FlappingAlerts(0, 8)[7] == FlappingAlert(7) && delivered[8] == FlappingAlert(9);
  }
}
