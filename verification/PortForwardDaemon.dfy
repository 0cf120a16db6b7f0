/** The hand-over from refresh to pf: two processes that share only files. */
module PortForwardDaemon {
  import opened Common

  /** A registration handed over in the pending file; the key is opaque. */
  datatype Pending = Pending(created: Time, key: nat)

  /** What one acquisition yields; the same signature serves every renewal. */
  datatype Triple = Triple(gateway: string, signature: nat, port: string)

  const NO_TRIPLE := Triple("", 0, "")

  datatype Lease = Lease(enabled: bool, triple: Triple)

  /** One successful acquisition, and whether the forwarded_port write succeeded. */
  datatype Acquisition = Acquisition(created: Time, triple: Triple, saved: bool)

  /** The files, the pf process, and what the process has done since it started.
      written lists everything refresh handed over, oldest first; busy is what the
      poll under way has read and is acquiring a port for. */
  datatype State = State(
    pending: Option<Pending>, forwardedPort: Option<string>, written: seq<Pending>,
    active: Time, lastPort: string, lease: Lease, busy: Option<Pending>,
    portAtStart: Option<string>, acquired: seq<Acquisition>, hooks: seq<string>)

  /** Whether the pending file and the client setup work when a poll looks. */
  datatype Look = Look(readable: bool, client: bool)

  /** How the acquisition ends, after however long a wait for the gateway. */
  datatype Outcome = Outcome(triple: Option<Triple>, saves: bool)

  datatype Step =
    | HandOver(pending: Pending)   // refresh replaces the pending file
    | Begin(look: Look)            // a poll of pf reads it
    | Finish(outcome: Outcome)     // that poll ends
    | Renew                        // the renewal loop binds again
    | Restart                      // the pf process starts over

  function AfterBegin(s: State, look: Look): State {
    if s.busy.Some? || !look.readable || s.pending.None? || s.pending.value.created <= s.active || !look.client
    then s
    else s.(busy := s.pending)
  }

  function AfterFinish(s: State, outcome: Outcome): State {
    if s.busy.None? then s
    else match outcome.triple
      case None => s.(busy := None, lease := s.lease.(enabled := false))
      case Some(t) =>
        var created := s.busy.value.created;
        s.(busy := None, forwardedPort := if outcome.saves then Some(t.port) else s.forwardedPort,
           lastPort := t.port, hooks := if t.port != s.lastPort then s.hooks + [t.port] else s.hooks,
           lease := Lease(true, t), active := created,
           acquired := s.acquired + [Acquisition(created, t, outcome.saves)])
  }

  function Next(s: State, step: Step): State {
    match step
    case HandOver(p) => s.(pending := Some(p), written := s.written + [p])
    case Begin(look) => AfterBegin(s, look)
    case Finish(outcome) => AfterFinish(s, outcome)
    case Renew => s
    case Restart =>
      s.(active := ZERO_TIME, lastPort := "", lease := Lease(false, NO_TRIPLE), busy := None,
         portAtStart := s.forwardedPort, acquired := [], hooks := [])
  }

  function After(s: State, steps: seq<Step>): State {
    if steps == [] then s else Next(After(s, steps[..|steps| - 1]), steps[|steps| - 1])
  }

  /** Polls that refresh does not interfere with, one after the other. */
  function PollSteps(polls: seq<(Look, Outcome)>): seq<Step> {
    if polls == [] then []
    else
      var last := polls[|polls| - 1];
      PollSteps(polls[..|polls| - 1]) + [Begin(last.0), Finish(last.1)]
  }

  lemma {:induction false} TwoSteps(s: State, steps: seq<Step>, a: Step, b: Step)
    ensures After(s, steps + [a, b]) == Next(Next(After(s, steps), a), b)
  {
    var longer := steps + [a, b];
    assert longer[..|longer| - 1] == steps + [a] && (steps + [a])[..|steps|] == steps;
  }

  /** What the renewal loop binds again on its timer, if anything. */
  function Renewed(s: State): Option<Triple> {
    if s.lease.enabled then Some(s.lease.triple) else None
  }

  // ----- The processes -----

  class SharedFiles {
    var pending: Option<Pending>
    var forwardedPort: Option<string>
    ghost var written: seq<Pending>

    constructor ()
      ensures pending == None && forwardedPort == None && written == []
    {
      pending, forwardedPort, written := None, None, [];
    }

    /** What refresh does. */
    method HandOver(p: Pending)
      modifies this
      ensures pending == Some(p) && written == old(written) + [p] && forwardedPort == old(forwardedPort)
    {
      pending, written := Some(p), written + [p];
    }
  }

  class LeaseState {
    var enabled: bool
    var triple: Triple

    function View(): Lease
      reads this
    {
      Lease(enabled, triple)
    }

    constructor ()
      ensures View() == Lease(false, NO_TRIPLE)
    {
      enabled, triple := false, NO_TRIPLE;
    }

    method Set(t: Triple)
      modifies this
      ensures View() == Lease(true, t)
    {
      enabled, triple := true, t;
    }

    method Disable()
      modifies this
      ensures View() == old(View()).(enabled := false)
    {
      enabled := false;
    }

    method Snapshot() returns (lease: Lease)
      ensures lease == View()
    {
      lease := Lease(enabled, triple);
    }
  }

  class Daemon {
    const files: SharedFiles
    const lease: LeaseState
    var active: Time
    var lastPort: string
    var busy: Option<Pending>
    ghost var portAtStart: Option<string>
    ghost var acquired: seq<Acquisition>
    ghost var hooks: seq<string>

    ghost function View(): State
      reads this, files, lease
    {
      State(files.pending, files.forwardedPort, files.written, active, lastPort, lease.View(), busy,
            portAtStart, acquired, hooks)
    }

    constructor (files: SharedFiles, ghost earlier: State)
      requires earlier.pending == files.pending && earlier.forwardedPort == files.forwardedPort
      requires earlier.written == files.written
      ensures this.files == files && fresh(lease) && View() == Next(earlier, Restart)
    {
      this.files := files;
      lease := new LeaseState();
      active, lastPort, busy := ZERO_TIME, "", None;
      portAtStart, acquired, hooks := files.forwardedPort, [], [];
    }

    /** The part of a poll before the acquisition; refresh may write again meanwhile. */
    method BeginPoll(look: Look) returns (acquiring: bool)
      requires busy.None?
      modifies this`busy
      ensures View() == AfterBegin(old(View()), look)
      ensures acquiring == busy.Some?
    {
      if !look.readable {
        return false;
      }
      if files.pending.None? {
        return false;
      }
      var pending := files.pending.value;
      if !(pending.created > active) {
        return false;
      }
      if !look.client {
        return false;
      }
      busy := Some(pending);
      acquiring := true;
    }

    /** The part of a poll after the acquisition. */
    method FinishPoll(outcome: Outcome)
      requires busy.Some?
      modifies this, files, lease
      ensures View() == AfterFinish(old(View()), outcome)
    {
      var pending := busy.value;
      busy := None;
      if outcome.triple.None? {
        lease.Disable();
        return;
      }
      var t := outcome.triple.value;
      if outcome.saves {
        files.forwardedPort := Some(t.port);
      }
      if t.port != lastPort {
        lastPort := t.port;
        hooks := hooks + [t.port];
      }
      lease.Set(t);
      active := pending.created;
      acquired := acquired + [Acquisition(pending.created, t, outcome.saves)];
    }

    /** A whole poll during which refresh writes nothing. */
    method PollOnce(look: Look, outcome: Outcome)
      requires busy.None?
      modifies this, files, lease
      ensures View() == AfterFinish(AfterBegin(old(View()), look), outcome)
    {
      var acquiring := BeginPoll(look);
      if acquiring {
        FinishPoll(outcome);
      }
    }

    /** The poll loop, for as long as it is given polls. */
    method PollLoop(polls: seq<(Look, Outcome)>)
      requires busy.None?
      modifies this, files, lease
      ensures View() == After(old(View()), PollSteps(polls))
    {
      ghost var s := View();
      for i := 0 to |polls|
        invariant View() == After(s, PollSteps(polls[..i])) && busy.None?
      {
        assert polls[..i + 1][..i] == polls[..i];
        TwoSteps(s, PollSteps(polls[..i]), Begin(polls[i].0), Finish(polls[i].1));
        PollOnce(polls[i].0, polls[i].1);
      }
      assert polls[..|polls|] == polls;
    }

    method RenewOnce() returns (bound: Option<Triple>)
      ensures bound == Renewed(View())
    {
      var snapshot := lease.Snapshot();
      if !snapshot.enabled {
        return None;
      }
      bound := Some(snapshot.triple);
    }
  }

  // ----- Every interleaving -----

  /** A registration handed over is later than all before it. */
  predicate LaterIfHandedOver(s: State, step: Step) {
    step.HandOver? ==>
      step.pending.created > ZERO_TIME && forall p | p in s.written :: p.created < step.pending.created
  }

  /** Registration times are positive and strictly increase. */
  predicate Increasing(s: State, steps: seq<Step>) {
    steps == [] ||
    var before, last := After(s, steps[..|steps| - 1]), steps[|steps| - 1];
    Increasing(s, steps[..|steps| - 1]) && LaterIfHandedOver(before, last)
  }

  /** A pf process that has just started over whatever files there are. */
  predicate Initial(s: State) {
    && s == Next(s, Restart)
    && s.written == (if s.pending.Some? then [s.pending.value] else [])
    && forall p | p in s.written :: p.created > ZERO_TIME
  }

  /** The ports that differ from the one before, starting from none. */
  function Changes(acquired: seq<Acquisition>): seq<string> {
    if acquired == [] then []
    else
      var before, last := acquired[..|acquired| - 1], acquired[|acquired| - 1];
      var previous := if before == [] then "" else before[|before| - 1].triple.port;
      if last.triple.port != previous then Changes(before) + [last.triple.port] else Changes(before)
  }

  /** The port of the last acquisition that was saved. */
  function LastSaved(atStart: Option<string>, acquired: seq<Acquisition>): Option<string> {
    if acquired == [] then atStart
    else
      var last := acquired[|acquired| - 1];
      if last.saved then Some(last.triple.port) else LastSaved(atStart, acquired[..|acquired| - 1])
  }

  ghost predicate OnceEach(acquired: seq<Acquisition>) {
    forall i, j | 0 <= i < j < |acquired| :: acquired[i].created < acquired[j].created
  }

  /** Refresh handed over a registration of that time. */
  ghost predicate WasWritten(written: seq<Pending>, created: Time) {
    exists p :: p in written && p.created == created
  }

  ghost predicate Newest(written: seq<Pending>, created: Time) {
    WasWritten(written, created) && forall p | p in written :: p.created <= created
  }

  /** The files and the acquisitions of the current process. */
  ghost predicate FilesFit(s: State) {
    && (forall p | p in s.written :: p.created > ZERO_TIME)
    && (s.pending.Some? ==> s.pending.value in s.written && Newest(s.written, s.pending.value.created))
    && (s.pending.None? ==> s.written == [])
    && (s.active == ZERO_TIME || WasWritten(s.written, s.active))
    && (s.busy.Some? ==> s.busy.value in s.written && s.active < s.busy.value.created)
    && OnceEach(s.acquired) && (forall a | a in s.acquired :: WasWritten(s.written, a.created) && a.created <= s.active)
  }

  /** The process's own state is that of its last acquisition. */
  ghost predicate ProcessFits(s: State) {
    && (s.acquired == [] ==> s.active == ZERO_TIME && s.lastPort == "" && s.lease == Lease(false, NO_TRIPLE))
    && (s.acquired != [] ==>
          var last := s.acquired[|s.acquired| - 1];
          s.active == last.created && s.lastPort == last.triple.port && s.lease.triple == last.triple)
    && s.hooks == Changes(s.acquired)
    && s.forwardedPort == LastSaved(s.portAtStart, s.acquired)
  }

  lemma NextIsLater(acquired: seq<Acquisition>, active: Time, a: Acquisition)
    requires OnceEach(acquired) && (forall x | x in acquired :: x.created <= active) && active < a.created
    ensures OnceEach(acquired + [a])
  {
    forall i | 0 <= i < |acquired|
      ensures acquired[i].created < a.created
    {
      assert acquired[i] in acquired;
    }
  }

  lemma HandOverKeepsFiles(s: State, p: Pending)
    requires FilesFit(s) && p.created > ZERO_TIME && forall q | q in s.written :: q.created < p.created
    ensures FilesFit(Next(s, HandOver(p)))
  {
    var longer := s.written + [p];
    assert p in longer && forall q | q in s.written :: q in longer;
    forall created | WasWritten(s.written, created)
      ensures WasWritten(longer, created)
    {
      var q :| q in s.written && q.created == created;
      assert q in longer;
    }
  }

  lemma FinishKeepsFiles(s: State, outcome: Outcome)
    requires FilesFit(s)
    ensures FilesFit(AfterFinish(s, outcome))
  {
    if s.busy.Some? && outcome.triple.Some? {
      var a := Acquisition(s.busy.value.created, outcome.triple.value, outcome.saves);
      NextIsLater(s.acquired, s.active, a);
      assert forall x | x in s.acquired + [a] :: x in s.acquired || x == a;
    }
  }

  lemma {:induction false} AppendedHistory(atStart: Option<string>, acquired: seq<Acquisition>, a: Acquisition)
    ensures var previous := if acquired == [] then "" else acquired[|acquired| - 1].triple.port;
            Changes(acquired + [a]) ==
            if a.triple.port != previous then Changes(acquired) + [a.triple.port] else Changes(acquired)
    ensures LastSaved(atStart, acquired + [a]) == if a.saved then Some(a.triple.port) else LastSaved(atStart, acquired)
  {
    assert (acquired + [a])[..|acquired|] == acquired;
  }

  lemma AcquiringKeepsProcess(s: State, t: State, a: Acquisition)
    requires ProcessFits(s) && t.acquired == s.acquired + [a] && t.portAtStart == s.portAtStart
    requires t.active == a.created && t.lastPort == a.triple.port && t.lease.triple == a.triple
    requires t.hooks == if a.triple.port != s.lastPort then s.hooks + [a.triple.port] else s.hooks
    requires t.forwardedPort == if a.saved then Some(a.triple.port) else s.forwardedPort
    ensures ProcessFits(t)
  {
    AppendedHistory(s.portAtStart, s.acquired, a);
    assert t.acquired[|t.acquired| - 1] == a;
  }

  lemma FinishKeepsProcess(s: State, outcome: Outcome)
    requires ProcessFits(s)
    ensures ProcessFits(AfterFinish(s, outcome))
  {
    if s.busy.Some? && outcome.triple.Some? {
      var a := Acquisition(s.busy.value.created, outcome.triple.value, outcome.saves);
      AcquiringKeepsProcess(s, AfterFinish(s, outcome), a);
    }
  }

  lemma StepKeepsFits(s: State, step: Step)
    requires FilesFit(s) && ProcessFits(s) && LaterIfHandedOver(s, step)
    ensures FilesFit(Next(s, step)) && ProcessFits(Next(s, step))
  {
    match step
    case HandOver(p) => HandOverKeepsFiles(s, p);
    case Finish(outcome) =>
      FinishKeepsFiles(s, outcome);
      FinishKeepsProcess(s, outcome);
    case _ =>
  }

  lemma InitialFits(s: State)
    requires Initial(s)
    ensures FilesFit(s) && ProcessFits(s)
  {
    assert s.pending.Some? ==> s.written[0] == s.pending.value;
  }

  lemma {:induction false} AlwaysFits(s: State, steps: seq<Step>)
    requires Initial(s) && Increasing(s, steps)
    ensures FilesFit(After(s, steps)) && ProcessFits(After(s, steps))
  {
    if steps == [] {
      InitialFits(s);
    } else {
      AlwaysFits(s, steps[..|steps| - 1]);
      StepKeepsFits(After(s, steps[..|steps| - 1]), steps[|steps| - 1]);
    }
  }

  /** What the lease, the files and the hook have to do with the acquisitions of the process. */
  ghost predicate LeaseFits(t: State) {
    && (t.active == ZERO_TIME || WasWritten(t.written, t.active)) && OnceEach(t.acquired)
    && (Renewed(t).Some? ==> t.acquired != [])
    && (t.acquired != [] ==>
          var last := t.acquired[|t.acquired| - 1];
          && last.created == t.active && last.triple.port == t.lastPort
          && (Renewed(t).Some? ==> Renewed(t).value == last.triple)
          && (last.saved ==> t.forwardedPort == Some(t.lastPort)))
    && t.hooks == Changes(t.acquired)
    && t.forwardedPort == LastSaved(t.portAtStart, t.acquired)
  }

  lemma FitsLease(t: State)
    requires FilesFit(t) && ProcessFits(t)
    ensures LeaseFits(t)
  {
  }

  /** In every interleaving of hand-overs, polls, renewals and restarts of pf, with
      hand-overs and renewals during an acquisition too: the active registration is
      one that refresh wrote; each is acquired at most once per process; whatever the
      renewal loop binds is the triple that came from the acquisition of the active
      registration; the hook has run exactly for the acquired ports that differ from
      the one before; and forwarded_port holds the port of the last acquisition whose
      write succeeded. */
  lemma {:induction false} LeaseIsOfTheActiveRegistration(s: State, steps: seq<Step>)
    requires Initial(s) && Increasing(s, steps)
    ensures LeaseFits(After(s, steps))
  {
    AlwaysFits(s, steps);
    FitsLease(After(s, steps));
  }

  /** Within one process the active registration never moves back. */
  lemma {:induction false} ActiveMovesForward(s: State, steps: seq<Step>, step: Step)
    requires Initial(s) && Increasing(s, steps + [step]) && !step.Restart?
    ensures Next(After(s, steps), step).active >= After(s, steps).active
  {
    assert (steps + [step])[..|steps|] == steps;
    AlwaysFits(s, steps);
  }

  // ----- One poll, and what happens during it -----

  /** What may happen between the two parts of a poll. */
  predicate Meanwhile(steps: seq<Step>) {
    forall step | step in steps :: step.HandOver? || step.Renew?
  }

  predicate HandsOverIn(steps: seq<Step>) {
    exists step | step in steps :: step.HandOver?
  }

  function Poll(look: Look, during: seq<Step>, outcome: Outcome): seq<Step> {
    [Begin(look)] + during + [Finish(outcome)]
  }

  lemma {:induction false} AfterConcat(s: State, a: seq<Step>, b: seq<Step>)
    ensures After(s, a + b) == After(After(s, a), b)
    ensures Increasing(s, a + b) ==> Increasing(s, a)
    decreases |b|
  {
    if b == [] {
      assert a + b == a;
    } else {
      AfterConcat(s, a, b[..|b| - 1]);
      assert (a + b)[..|a + b| - 1] == a + b[..|b| - 1];
    }
  }

  /** Between the two parts of a poll pf stands still, and refresh only writes. */
  lemma {:induction false} StandsStill(s: State, steps: seq<Step>)
    requires Meanwhile(steps)
    ensures var t := After(s, steps); t.busy == s.busy && t.active == s.active && t.lease == s.lease
    ensures !HandsOverIn(steps) ==> After(s, steps) == s
  {
    if steps != [] {
      var init, last := steps[..|steps| - 1], steps[|steps| - 1];
      assert last in steps && forall step | step in init :: step in steps;
      StandsStill(s, init);
    }
  }

  lemma StepMakesLater(t: State, step: Step)
    requires t.pending.Some? && t.pending.value in t.written
    requires step.HandOver? ==> forall p | p in t.written :: p.created < step.pending.created
    ensures var t' := Next(t, step);
            && t'.pending.Some? && t.pending.value.created <= t'.pending.value.created
            && (step.HandOver? ==> t.pending.value.created < t'.pending.value.created)
  {
  }

  /** Hand-overs make the pending registration later. */
  lemma {:induction false} LaterPending(s: State, before: seq<Step>, steps: seq<Step>)
    requires Initial(s) && Increasing(s, before + steps) && After(s, before).pending.Some?
    ensures var a, b := After(s, before), After(s, before + steps);
            && b.pending.Some? && a.pending.value.created <= b.pending.value.created
            && (HandsOverIn(steps) ==> a.pending.value.created < b.pending.value.created)
    decreases |steps|
  {
    if steps == [] {
      assert before + steps == before;
    } else {
      var init, last := steps[..|steps| - 1], steps[|steps| - 1];
      assert (before + steps)[..|before + steps| - 1] == before + init;
      LaterPending(s, before, init);
      AlwaysFits(s, before + init);
      StepMakesLater(After(s, before + init), last);
      assert After(s, before + steps) == Next(After(s, before + init), last);
      assert HandsOverIn(steps) ==> last.HandOver? || HandsOverIn(init);
    }
  }

  lemma {:induction false} PollRuns(s: State, steps: seq<Step>, look: Look, during: seq<Step>, outcome: Outcome)
    requires Initial(s) && Increasing(s, steps + Poll(look, during, outcome))
    ensures After(s, steps + Poll(look, during, outcome)) ==
            AfterFinish(After(AfterBegin(After(s, steps), look), during), outcome)
    ensures Increasing(s, steps + [Begin(look)] + during)
    ensures After(s, steps + [Begin(look)] + during) == After(AfterBegin(After(s, steps), look), during)
    ensures After(s, steps + [Begin(look)]) == AfterBegin(After(s, steps), look)
  {
    var a := steps + [Begin(look)];
    var b := a + during;
    assert steps + Poll(look, during, outcome) == b + [Finish(outcome)];
    AfterConcat(s, b, [Finish(outcome)]);
    AfterConcat(s, a, during);
    assert a[..|steps|] == steps && (b + [Finish(outcome)])[..|b|] == b;
  }

  /** A poll that reads a newer registration and acquires its port makes active the
      newest one written when it read the file; that is still the one in the file at
      its end exactly when none was handed over meanwhile. */
  lemma {:induction false} PollMovesToNewestRead(s: State, steps: seq<Step>, look: Look, during: seq<Step>,
                                                 outcome: Outcome)
    requires Initial(s) && Increasing(s, steps + Poll(look, during, outcome)) && Meanwhile(during)
    requires After(s, steps).busy.None? && After(s, steps).pending.Some?
    requires After(s, steps).pending.value.created > After(s, steps).active
    requires look.readable && look.client && outcome.triple.Some?
    ensures var t, t' := After(s, steps), After(s, steps + Poll(look, during, outcome));
            && Newest(t.written, t'.active) && t'.pending.Some?
            && (t'.active == t'.pending.value.created <==> !HandsOverIn(during))
  {
    PollRuns(s, steps, look, during, outcome);
    AfterConcat(s, steps + [Begin(look)], during);
    AlwaysFits(s, steps + [Begin(look)]);
    StandsStill(AfterBegin(After(s, steps), look), during);
    LaterPending(s, steps + [Begin(look)], during);
  }

  /** Whether the renewal loop binds for a registration older than the one in the file. */
  predicate Stale(s: State) {
    Renewed(s).Some? && s.pending.Some? && s.active < s.pending.value.created
  }

  /** When a poll leaves a stale lease stale: exactly when the file cannot be read or the
      client cannot be set up, or the acquisition succeeds but another registration is
      handed over meanwhile. In every other case the lease is renewed or disabled. */
  lemma {:induction false} StaleAfterPollExactly(s: State, steps: seq<Step>, look: Look, during: seq<Step>,
                                                 outcome: Outcome)
    requires Initial(s) && Increasing(s, steps + Poll(look, during, outcome)) && Meanwhile(during)
    requires After(s, steps).busy.None? && Stale(After(s, steps))
    ensures Stale(After(s, steps + Poll(look, during, outcome))) <==>
            !look.readable || !look.client || (outcome.triple.Some? && HandsOverIn(during))
  {
    PollRuns(s, steps, look, during, outcome);
    AfterConcat(s, steps + [Begin(look)], during);
    StandsStill(AfterBegin(After(s, steps), look), during);
    LaterPending(s, steps + [Begin(look)], during);
  }

  // ----- A lease that outlives its registration -----

  const NOTHING := State(None, None, [], ZERO_TIME, "", Lease(false, NO_TRIPLE), None, None, [], [])
  const FIRST := Triple("10.0.0.1", 1, "1111")
  const OLD := Pending(100 * SECOND, 1)
  const NEW := Pending(200 * SECOND, 2)

  lemma OneStep(s: State, steps: seq<Step>, step: Step) returns (longer: seq<Step>)
    requires Increasing(s, steps) && LaterIfHandedOver(After(s, steps), step)
    ensures longer == steps + [step] && Increasing(s, longer)
    ensures After(s, longer) == Next(After(s, steps), step)
  {
    longer := steps + [step];
    assert longer[..|steps|] == steps;
  }

  /** From nothing: the first registration is acquired, a second is handed over, the
      client cannot be set up, and the renewal loop goes on binding for the first. */
  lemma LeaseOutlivesItsRegistration() returns (steps: seq<Step>)
    ensures Initial(NOTHING) && Increasing(NOTHING, steps)
    ensures var t := After(NOTHING, steps);
            Stale(t) && t.active == OLD.created && t.pending == Some(NEW) && Renewed(t) == Some(FIRST)
  {
    steps := OneStep(NOTHING, [], HandOver(OLD));
    steps := OneStep(NOTHING, steps, Begin(Look(true, true)));
    assert After(NOTHING, steps) == NOTHING.(pending := Some(OLD), written := [OLD], busy := Some(OLD));
    steps := OneStep(NOTHING, steps, Finish(Outcome(Some(FIRST), true)));
    assert After(NOTHING, steps).written == [OLD] && After(NOTHING, steps).lease == Lease(true, FIRST);
    steps := OneStep(NOTHING, steps, HandOver(NEW));
    steps := OneStep(NOTHING, steps, Begin(Look(true, false)));
  }
}
