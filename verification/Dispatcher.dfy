/** The bounded alert queue and its single delivery worker. */
module Dispatcher {
  import opened Common
  import opened Alerts

  const QUEUE_SIZE := 8

  /** One call of Send: the event and whether the queue had room for it. */
  datatype Offer = Offer(alert: Alert, fits: bool)

  datatype State = State(offers: seq<Offer>, queue: seq<Alert>, inFlight: Option<Alert>,
                         delivered: seq<Alert>, closed: bool, exited: bool)

  const INITIAL := State([], [], None, [], false, false)

  datatype Step =
    | Send(alert: Alert)   // by any goroutine
    | Take                 // the worker receives from the queue
    | Finish               // the hook of the event in flight has returned
    | Close                // stop() closes the done channel
    | Exit                 // the worker finds done closed and the queue empty

  predicate Enabled(s: State, step: Step) {
    match step
    case Send(_) => true
    case Take => !s.exited && s.inFlight.None? && s.queue != []
    case Finish => s.inFlight.Some?
    case Close => !s.closed
    case Exit => s.closed && !s.exited && s.inFlight.None? && s.queue == []
  }

  /** A step that is not enabled leaves the state alone. */
  function Next(s: State, step: Step): State {
    if !Enabled(s, step) then s else
    match step
    case Send(a) =>
      if |s.queue| < QUEUE_SIZE
      then s.(offers := s.offers + [Offer(a, true)], queue := s.queue + [a])
      else s.(offers := s.offers + [Offer(a, false)])
    case Take => s.(inFlight := Some(s.queue[0]), queue := s.queue[1..])
    case Finish => s.(inFlight := None, delivered := s.delivered + [s.inFlight.value])
    case Close => s.(closed := true)
    case Exit => s.(exited := true)
  }

  class AlertDispatcher {
    ghost var offers: seq<Offer>
    ghost var delivered: seq<Alert>
    var queue: seq<Alert>
    var inFlight: Option<Alert>
    var closed: bool
    var exited: bool

    ghost function View(): State
      reads this
    {
      State(offers, queue, inFlight, delivered, closed, exited)
    }

    constructor ()
      ensures View() == INITIAL
    {
      offers, delivered, queue, inFlight, closed, exited := [], [], [], None, false, false;
    }

    method Send(alert: Alert) returns (queued: bool)
      modifies this
      ensures View() == Next(old(View()), Step.Send(alert))
      ensures queued == (old(|queue|) < QUEUE_SIZE)
    {
      queued := |queue| < QUEUE_SIZE;
      offers := offers + [Offer(alert, queued)];
      if queued {
        queue := queue + [alert];
      }
    }

    /** One turn of the worker's select loop. */
    method Work() returns (worked: bool)
      modifies this
      ensures worked ==>
                exists step | step in {Take, Finish, Exit} && Enabled(old(View()), step) ::
                  View() == Next(old(View()), step)
      ensures !worked ==> View() == old(View())
      ensures !worked ==> exited || (!closed && queue == [] && inFlight.None?)
    {
      if exited {
        return false;
      }
      if inFlight.Some? {
        assert Enabled(View(), Finish);
        delivered := delivered + [inFlight.value];
        inFlight := None;
        return true;
      }
      if queue != [] {
        assert Enabled(View(), Take);
        inFlight, queue := Some(queue[0]), queue[1..];
        return true;
      }
      if closed {
        assert Enabled(View(), Exit);
        exited := true;
        return true;
      }
      return false;
    }

    method Stop()
      requires !closed
      modifies this
      ensures View() == Next(old(View()), Close)
    {
      closed := true;
    }
  }

  // ----- Every interleaving -----

  /** The state after any schedule of senders, worker and stop. */
  function After(steps: seq<Step>): State {
    if steps == [] then INITIAL
    else Next(After(steps[..|steps| - 1]), steps[|steps| - 1])
  }

  function Accepted(offers: seq<Offer>): seq<Alert> {
    if offers == [] then []
    else
      var last := offers[|offers| - 1];
      Accepted(offers[..|offers| - 1]) + (if last.fits then [last.alert] else [])
  }

  function InFlight(s: State): seq<Alert> {
    if s.inFlight.Some? then [s.inFlight.value] else []
  }

  /** The alerts that the senders of a schedule offered, in order. */
  function SentBy(steps: seq<Step>): seq<Alert> {
    if steps == [] then []
    else
      var last := steps[|steps| - 1];
      SentBy(steps[..|steps| - 1]) + (if last.Send? then [last.alert] else [])
  }

  ghost predicate Conserved(s: State) {
    && s.delivered + InFlight(s) + s.queue == Accepted(s.offers)
    && |s.queue| <= QUEUE_SIZE
    && (s.exited ==> s.closed && s.inFlight.None?)
  }

  lemma {:induction false} AcceptedOfAppend(offers: seq<Offer>, offer: Offer)
    ensures Accepted(offers + [offer]) == Accepted(offers) + (if offer.fits then [offer.alert] else [])
  {
    assert (offers + [offer])[..|offers|] == offers;
  }

  lemma TakeConserves(s: State)
    requires Conserved(s) && Enabled(s, Take)
    ensures Conserved(Next(s, Take))
  {
    assert s.queue == [s.queue[0]] + s.queue[1..];
    assert s.delivered + s.queue == s.delivered + [s.queue[0]] + s.queue[1..];
  }

  lemma SendConserves(s: State, alert: Alert)
    requires Conserved(s)
    ensures Conserved(Next(s, Send(alert)))
  {
    AcceptedOfAppend(s.offers, Offer(alert, |s.queue| < QUEUE_SIZE));
    var kept := s.delivered + InFlight(s);
    assert kept + (s.queue + [alert]) == kept + s.queue + [alert];
  }

  lemma StepConserves(s: State, step: Step)
    requires Conserved(s)
    ensures Conserved(Next(s, step))
  {
    if Enabled(s, step) {
      match step
      case Send(a) => SendConserves(s, a);
      case Take => TakeConserves(s);
      case Finish => assert Next(s, Finish).delivered == s.delivered + InFlight(s);
      case Close =>
      case Exit =>
    }
  }

  function Offered(offers: seq<Offer>): seq<Alert> {
    if offers == [] then [] else Offered(offers[..|offers| - 1]) + [offers[|offers| - 1].alert]
  }

  /** In every interleaving nothing accepted is lost, duplicated or reordered,
      the queue stays within its bound, and the offers are the sends in order. */
  lemma {:induction false} NothingAcceptedIsLost(steps: seq<Step>)
    ensures Conserved(After(steps))
    ensures Offered(After(steps).offers) == SentBy(steps)
  {
    if steps != [] {
      var before, step := steps[..|steps| - 1], steps[|steps| - 1];
      NothingAcceptedIsLost(before);
      StepConserves(After(before), step);
      if step.Send? {
        var s, s' := After(before), After(steps);
        assert s'.offers[..|s.offers|] == s.offers;
      }
    }
  }

  /** A sender never waits, and its event is refused exactly when the queue holds
      eight events at that moment. */
  lemma {:induction false} OnlyFullQueueDrops(steps: seq<Step>, alert: Alert)
    ensures Enabled(After(steps), Send(alert))
    ensures var s := After(steps);
            Accepted(Next(s, Send(alert)).offers) ==
            if |s.queue| == QUEUE_SIZE then Accepted(s.offers) else Accepted(s.offers) + [alert]
  {
    NothingAcceptedIsLost(steps);
    var s := After(steps);
    AcceptedOfAppend(s.offers, Offer(alert, |s.queue| < QUEUE_SIZE));
  }

  /** The worker left alone from a state whose stop was requested. */
  function Drain(s: State): State
    decreases |s.queue|, if s.inFlight.Some? then 1 else 0
  {
    if s.exited || !s.closed then s
    else if s.inFlight.Some? then Drain(Next(s, Finish))
    else if s.queue != [] then Drain(Next(s, Take))
    else Next(s, Exit)
  }

  lemma {:induction false} DrainKeeps(s: State)
    requires Conserved(s) && s.closed
    ensures Conserved(Drain(s)) && Drain(s).exited
    ensures Drain(s).offers == s.offers
    ensures !s.exited ==> Drain(s).queue == []
    decreases |s.queue|, if s.inFlight.Some? then 1 else 0
  {
    if !s.exited {
      if s.inFlight.Some? {
        StepConserves(s, Finish);
        DrainKeeps(Next(s, Finish));
      } else if s.queue != [] {
        StepConserves(s, Take);
        DrainKeeps(Next(s, Take));
      } else {
        StepConserves(s, Exit);
      }
    }
  }

  /** After stop, with no later sends, the worker exits having delivered exactly
      what was accepted. */
  lemma {:induction false} StopDeliversEverything(steps: seq<Step>)
    requires After(steps).closed && !After(steps).exited
    ensures Drain(After(steps)).exited
    ensures Drain(After(steps)).delivered == Accepted(After(steps).offers)
  {
    NothingAcceptedIsLost(steps);
    DrainKeeps(After(steps));
  }

  /** Once the worker has exited, later events are accepted but never delivered. */
  lemma {:induction false} NothingDeliveredAfterExit(steps: seq<Step>, more: seq<Step>)
    requires After(steps).exited
    ensures After(steps + more).delivered == After(steps).delivered
    ensures After(steps + more).exited
  {
    if more == [] {
      assert steps + more == steps;
    } else {
      var before := more[..|more| - 1];
      NothingDeliveredAfterExit(steps, before);
      assert (steps + more)[..|steps + more| - 1] == steps + before;
      NothingAcceptedIsLost(steps + before);
    }
  }
}
