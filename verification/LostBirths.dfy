/** What becomes of the lifetime record when the birth of a registration is not saved. */
module LostBirths {
  import opened Common
  import opened Lifetime
  import opened RefreshModel
  import opened Generations

  // ----- Told from the run -----

  /** The last attempt that reached the record failed to save its birth. */
  predicate AttemptLost(trace: seq<Event>) {
    trace != [] &&
    var e := trace[|trace| - 1];
    e.BirthLost? || (!e.BirthRecorded? && AttemptLost(trace[..|trace| - 1]))
  }

  /** The attempt that last restarted gluetun lost its birth, and none was recorded since. */
  predicate RunningUnrecorded(trace: seq<Event>) {
    trace != [] &&
    var before, e := trace[..|trace| - 1], trace[|trace| - 1];
    if e.Restarted? then AttemptLost(before) else !e.BirthRecorded? && RunningUnrecorded(before)
  }

  /** The attempt that was last applied lost its birth, and none was recorded or adopted since. */
  predicate AppliedUnrecorded(trace: seq<Event>) {
    trace != [] &&
    var before, e := trace[..|trace| - 1], trace[|trace| - 1];
    if e.Applied? then AttemptLost(before) else !e.BirthRecorded? && !e.Adopted? && AppliedUnrecorded(before)
  }

  /** When the last attempt began; the birth recorded at the start when there was none. */
  function LastStart(init: State, trace: seq<Event>): Time {
    if trace == [] then init.rec.birth
    else
      var e := trace[|trace| - 1];
      if e.AttemptBegan? then e.at else LastStart(init, trace[..|trace| - 1])
  }

  /** Attempts begin at least the gap apart. */
  ghost predicate Paced(m: Machine, gap: Duration) {
    forall k | 0 <= k < |m.trace| && m.trace[k].AttemptBegan? ::
      m.trace[k].at >= LastStart(m.init, m.trace[..k]) + gap
  }

  lemma PacedUpto(cfg: Config, m: Machine, k: nat, gap: Duration)
    requires k <= |m.trace| && Paced(m, gap)
    ensures Paced(Upto(cfg, m, k), gap)
  {
    var b := Upto(cfg, m, k);
    forall i | 0 <= i < |b.trace| && b.trace[i].AttemptBegan?
      ensures b.trace[i].at >= LastStart(b.init, b.trace[..i]) + gap
    {
      assert m.trace[i] == b.trace[i] && b.trace[..i] == m.trace[..i];
    }
  }

  lemma PacedBefore(cfg: Config, m: Machine, gap: Duration)
    requires m.trace != [] && Paced(m, gap)
    ensures Paced(Before(cfg, m), gap)
    ensures var e := m.trace[|m.trace| - 1];
            e.AttemptBegan? ==> e.at >= LastStart(m.init, Before(cfg, m).trace) + gap
  {
    assert Before(cfg, m) == Upto(cfg, m, |m.trace| - 1);
    PacedUpto(cfg, m, |m.trace| - 1, gap);
  }

  lemma {:induction false} OneMore(trace: seq<Event>, e: Event)
    ensures AttemptLost(trace + [e]) <==> e.BirthLost? || (!e.BirthRecorded? && AttemptLost(trace))
    ensures RunningUnrecorded(trace + [e]) <==>
              if e.Restarted? then AttemptLost(trace) else !e.BirthRecorded? && RunningUnrecorded(trace)
    ensures AppliedUnrecorded(trace + [e]) <==>
              if e.Applied? then AttemptLost(trace) else !e.BirthRecorded? && !e.Adopted? && AppliedUnrecorded(trace)
    ensures forall init :: LastStart(init, trace + [e]) == if e.AttemptBegan? then e.at else LastStart(init, trace)
  {
    assert (trace + [e])[..|trace|] == trace;
  }

  // ----- The invariant -----

  predicate PastRecord(stage: Stage) {
    stage.Recorded? || stage.Handed? || stage.Reloaded?
  }

  /** The recorded birth against the last attempt, begun at `started`. */
  ghost predicate StageAgrees(s: State, started: Time, lost: bool, gap: Duration) {
    && s.rec.birth <= started <= s.clock && s.schedule.lastGenerate <= started
    && (!s.stage.Resting? ==> s.stage.start == started)
    && (!s.stage.Resting? && !PastRecord(s.stage) ==> s.rec.birth + gap <= started)
    && (PastRecord(s.stage) ==> if lost then s.rec.birth + gap <= started else s.rec.birth == started)
  }

  ghost predicate AppliedAgrees(s: State, unrecorded: bool, gap: Duration) {
    if unrecorded then s.rec.birth + gap <= s.schedule.lastGenerate else s.schedule.lastGenerate <= s.rec.birth
  }

  ghost predicate RunningAgrees(s: State, unrecorded: bool, gap: Duration) {
    s.disk.running > 0 ==>
      if unrecorded then s.rec.birth + gap <= BirthOf(s, s.disk.running)
      else BirthOf(s, s.disk.running) <= s.rec.birth
  }

  ghost predicate Agrees(m: Machine, gap: Duration) {
    && StageAgrees(m.s, LastStart(m.init, m.trace), AttemptLost(m.trace), gap)
    && AppliedAgrees(m.s, AppliedUnrecorded(m.trace), gap)
  }

  lemma StageStep(cfg: Config, s: State, e: Event, started: Time, lost: bool, gap: Duration)
    requires Enabled(cfg, s, e) && Timely(cfg, s, e) && 0 <= gap && StageAgrees(s, started, lost, gap)
    requires e.AttemptBegan? ==> e.at >= started + gap
    ensures StageAgrees(Apply(cfg, s, e), if e.AttemptBegan? then e.at else started,
                        e.BirthLost? || (!e.BirthRecorded? && lost), gap)
  {
  }

  lemma AppliedStep(cfg: Config, s: State, e: Event, started: Time, lost: bool, unrecorded: bool, gap: Duration)
    requires Enabled(cfg, s, e) && StageAgrees(s, started, lost, gap) && AppliedAgrees(s, unrecorded, gap)
    ensures AppliedAgrees(Apply(cfg, s, e),
                          if e.Applied? then lost else !e.BirthRecorded? && !e.Adopted? && unrecorded, gap)
  {
  }

  lemma RunningStep(cfg: Config, s: State, e: Event, started: Time, lost: bool, unrecorded: bool, gap: Duration)
    requires Enabled(cfg, s, e) && Inv(cfg, s)
    requires StageAgrees(s, started, lost, gap) && RunningAgrees(s, unrecorded, gap)
    ensures RunningAgrees(Apply(cfg, s, e), if e.Restarted? then lost else !e.BirthRecorded? && unrecorded, gap)
  {
    if e.BirthRecorded? && s.disk.running > 0 {
      assert BirthOf(s, s.disk.running) in s.disk.births;
      assert s.disk.births[s.disk.running - 1] <= s.disk.births[|s.disk.births| - 1];
    }
  }

  lemma {:induction false} AlwaysAgrees(cfg: Config, m: Machine, gap: Duration)
    requires Real(cfg, m) && Paced(m, gap) && 0 <= gap
    ensures Agrees(m, gap)
    decreases |m.trace|
  {
    if m.trace != [] {
      BeforeIsReal(cfg, m);
      PacedBefore(cfg, m, gap);
      var b, e := Before(cfg, m), m.trace[|m.trace| - 1];
      AlwaysAgrees(cfg, b, gap);
      OneMore(b.trace, e);
      var started := LastStart(b.init, b.trace);
      StageStep(cfg, b.s, e, started, AttemptLost(b.trace), gap);
      AppliedStep(cfg, b.s, e, started, AttemptLost(b.trace), AppliedUnrecorded(b.trace), gap);
    }
  }

  /** Gluetun starts out on a registration that is recorded, or an earlier one. */
  ghost predicate KnownAtStart(cfg: Config, s: State) {
    Inv(cfg, s) && s.disk.running <= s.disk.recorded
  }

  lemma {:induction false} RunningAlwaysAgrees(cfg: Config, m: Machine, gap: Duration)
    requires Real(cfg, m) && KnownAtStart(cfg, m.init) && Paced(m, gap) && 0 <= gap
    ensures Inv(cfg, m.s) && RunningAgrees(m.s, RunningUnrecorded(m.trace), gap)
    decreases |m.trace|
  {
    if m.trace != [] {
      BeforeIsReal(cfg, m);
      PacedBefore(cfg, m, gap);
      var b, e := Before(cfg, m), m.trace[|m.trace| - 1];
      RunningAlwaysAgrees(cfg, b, gap);
      AlwaysAgrees(cfg, b, gap);
      StepKeepsInv(cfg, b.s, e);
      OneMore(b.trace, e);
      RunningStep(cfg, b.s, e, LastStart(b.init, b.trace), AttemptLost(b.trace), RunningUnrecorded(b.trace), gap);
    }
  }

  /** The clock alone keeps attempts in order. */
  lemma {:induction false} StartsInOrder(cfg: Config, m: Machine)
    requires Real(cfg, m)
    ensures LastStart(m.init, m.trace) <= m.s.clock
    decreases |m.trace|
  {
    if m.trace != [] {
      BeforeIsReal(cfg, m);
      StartsInOrder(cfg, Before(cfg, m));
    }
  }

  lemma RealIsPaced(cfg: Config, m: Machine)
    requires Real(cfg, m)
    ensures Paced(m, 0)
  {
    forall k | 0 <= k < |m.trace| && m.trace[k].AttemptBegan?
      ensures m.trace[k].at >= LastStart(m.init, m.trace[..k])
    {
      UptoIsReal(cfg, m, k);
      StartsInOrder(cfg, Upto(cfg, m, k));
    }
  }

  // ----- What is measured -----

  /** Whole seconds for which the running registration was really known alive. */
  function TrueAge(s: State): int {
    (s.health.lastHealthy - BirthOf(s, s.disk.running)) / SECOND
  }

  /** The measurement errs on the safe, shorter side whenever the running registration
      is recorded, or a later one is. */
  lemma LossErrsShort(cfg: Config, m: Machine, k: nat)
    requires Real(cfg, m) && KnownAtStart(cfg, m.init)
    requires k < |m.trace| && m.trace[k].LossRecorded? && Upto(cfg, m, k).s.disk.running > 0
    requires !RunningUnrecorded(m.trace[..k])
    ensures m.trace[k].seconds <= TrueAge(Upto(cfg, m, k).s)
  {
    UptoIsReal(cfg, m, k);
    RealIsPaced(cfg, Upto(cfg, m, k));
    RunningAlwaysAgrees(cfg, Upto(cfg, m, k), 0);
  }

  /** It overstates the life of the registration exactly when the attempt that last
      restarted gluetun could not save its birth and none was saved since, given
      attempts that begin at least a second apart. */
  lemma LossOverstatesExactly(cfg: Config, m: Machine, k: nat)
    requires Real(cfg, m) && KnownAtStart(cfg, m.init) && Paced(m, SECOND)
    requires k < |m.trace| && m.trace[k].LossRecorded? && Upto(cfg, m, k).s.disk.running > 0
    ensures m.trace[k].seconds > TrueAge(Upto(cfg, m, k).s) <==> RunningUnrecorded(m.trace[..k])
  {
    UptoIsReal(cfg, m, k);
    PacedUpto(cfg, m, k, SECOND);
    RunningAlwaysAgrees(cfg, Upto(cfg, m, k), SECOND);
    if !RunningUnrecorded(m.trace[..k]) {
      LossErrsShort(cfg, m, k);
    }
  }

  /** last_generate_utc is no later than the recorded birth exactly when the attempt
      last applied saved its birth, or one was saved or adopted since, given attempts
      that do not begin at the same instant. */
  lemma AppliedNotAfterBirthExactly(cfg: Config, m: Machine)
    requires Real(cfg, m) && Paced(m, 1)
    ensures m.s.schedule.lastGenerate <= m.s.rec.birth <==> !AppliedUnrecorded(m.trace)
  {
    AlwaysAgrees(cfg, m, 1);
  }

  /** One half of that needs no pacing. */
  lemma AppliedNeverAfterRecordedBirth(cfg: Config, m: Machine)
    requires Real(cfg, m) && !AppliedUnrecorded(m.trace)
    ensures m.s.schedule.lastGenerate <= m.s.rec.birth
  {
    RealIsPaced(cfg, m);
    AlwaysAgrees(cfg, m, 0);
  }
}
