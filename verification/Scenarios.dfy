/** Concrete lives of the daemon, each from a fresh process with its clock readings in
    order, in which something the documentation promises does not happen. */
module Scenarios {
  import opened Common
  import opened Lifetime
  import opened Alerts
  import opened RefreshModel
  import opened RefreshSpec
  import opened RefreshLawful
  import opened RefreshReal
  import opened ProactiveTimer
  import opened Generations
  import opened LostBirths
  import opened Mints
  import opened MintRate

  /** One-minute health checks that act at once, one-minute pauses, no jitter. */
  const CFG := Config(0, 1, MINUTE, MINUTE, MINUTE, 12 * HOUR, 0, 0, false, true, 3)

  /** A fresh process: registration 1, born at minute one, is running and recorded. */
  const INIT := State(
    2 * MINUTE, Idle, Resting, Disk([MINUTE], 1, 0, 1, 1), LifetimeRecord(MINUTE, [], ZERO_TIME),
    Schedule(ZERO_TIME, ZERO_TIME, ZERO_TIME), Recoveries(ZERO_TIME, 0, false, 0),
    Health(false, ZERO_TIME, ZERO_TIME, ZERO_TIME, 0, false), NewPolicy(3), [])

  /** An attempt at minute t that obtains no key. */
  function NoKey(t: Time): AttemptEnv {
    AttemptEnv(t * MINUTE, false, true, StoreOk, true, RestartOk, ArmEnv(t * MINUTE, true, None), t * MINUTE, "no key")
  }

  /** An attempt at minute t whose restart is refused. */
  function Refused(t: Time): AttemptEnv {
    NoKey(t).(generates := true, restart := RestartRefused)
  }

  /** Six attempts, one every other minute from minute t on. */
  function Six(t: Time, one: Time -> AttemptEnv): RegenEnv {
    RegenEnv(seq(6, i => one(t + 2 * i)), (t + 12) * MINUTE)
  }

  /** The process adopts registration 1 at minute 90. */
  const START := StartEnv(
    true, AdoptEnv(true, true, true, 90 * MINUTE, true, 90 * MINUTE), Six(90, NoKey), ArmEnv(90 * MINUTE, true, None))

  const ADOPTED := State(
    90 * MINUTE, Idle, Resting, Disk([MINUTE], 1, 0, 1, 1), LifetimeRecord(MINUTE, [], ZERO_TIME),
    Schedule(MINUTE, 721 * MINUTE, 721 * MINUTE), Recoveries(ZERO_TIME, 0, true, 0),
    Health(true, 90 * MINUTE, 90 * MINUTE, ZERO_TIME, 0, true), NewPolicy(3), [])

  lemma StartsAdopted()
    ensures Initial(CFG, INIT) && KnownAtStart(CFG, INIT) && Enough(START.regen)
    ensures RunInTime(CFG, INIT, START, []) && Run(CFG, INIT, START, []).s == ADOPTED
  {
    assert Adopts(CFG, INIT, START.adopt);
    assert Observe(CFG, Emit(CFG, Machine(INIT, INIT, []), Adopted), true, 90 * MINUTE).s ==
           ADOPTED.(schedule := Schedule(MINUTE, ZERO_TIME, ZERO_TIME));
  }

  /** A tick at minute 99 that finds the tunnel dead. */
  function DeadTick(regen: RegenEnv, rearm: RearmEnv): TickEnv {
    TickEnv(false, 99 * MINUTE, 99 * MINUTE, StoreOk, regen, rearm)
  }

  /** rearm at minute t, with the lifetime record readable or not. */
  function RearmAt(t: Time, readable: bool): RearmEnv {
    RearmEnv(readable, t * MINUTE, ArmEnv(t * MINUTE, true, None))
  }

  const DYING := ADOPTED.(
    clock := 99 * MINUTE, phase := Recovering(99 * MINUTE),
    rec := LifetimeRecord(MINUTE, [89 * 60], 90 * MINUTE),
    health := Health(false, 99 * MINUTE, 90 * MINUTE, 99 * MINUTE, 1, true))

  lemma Death(m: Machine, regen: RegenEnv, rearm: RearmEnv)
    requires m.s == ADOPTED && Enough(regen)
    ensures var m1 := Observe(CFG, m, false, 99 * MINUTE);
            && Recovers(CFG, m1.s, 99 * MINUTE) && BeginRecovery(CFG, m1, DeadTick(regen, rearm)).s == DYING
            && HealthTick(CFG, m, DeadTick(regen, rearm)) ==
               Regenerate(CFG, BeginRecovery(CFG, m1, DeadTick(regen, rearm)), true, regen)
  {
    assert Observe(CFG, m, false, 99 * MINUTE).s ==
           ADOPTED.(clock := 99 * MINUTE, health := Health(false, 99 * MINUTE, 90 * MINUTE, 99 * MINUTE, 1, true));
  }

  /** The first turn of the loop, after the adoption. */
  lemma FirstTurn(it: Iteration)
    requires IterationOk(it)
    ensures Enough(START.regen) && AllOk([it])
    ensures Run(CFG, INIT, START, [it]) == Iterate(CFG, Run(CFG, INIT, START, []), it)
    ensures RunInTime(CFG, INIT, START, [it]) <==>
              RunInTime(CFG, INIT, START, []) && IterationInTime(CFG, Run(CFG, INIT, START, []), it)
  {
    assert [it][..0] == [];
  }

  lemma {:induction false} NextTurn(its: seq<Iteration>, it: Iteration)
    requires AllOk(its) && IterationOk(it)
    ensures Enough(START.regen) && AllOk(its + [it])
    ensures Run(CFG, INIT, START, its + [it]) == Iterate(CFG, Run(CFG, INIT, START, its), it)
    ensures RunInTime(CFG, INIT, START, its + [it]) <==>
              RunInTime(CFG, INIT, START, its) && IterationInTime(CFG, Run(CFG, INIT, START, its), it)
  {
    assert (its + [it])[..|its|] == its;
  }

  lemma {:induction false} OneMinutePauses(i: nat)
    ensures Backoff(CFG, i) == MINUTE
  {
    if i > 0 {
      OneMinutePauses(i - 1);
    }
  }

  // ----- A slow restart leaves the timer behind -----

  /** The restart takes from minute 100 to minute 103. */
  const SLOW_ATTEMPT := NoKey(100).(generates := true, arm := ArmEnv(103 * MINUTE, true, None))
  const SLOW_REGEN := RegenEnv(seq(6, i => SLOW_ATTEMPT), 103 * MINUTE)

  lemma {:induction false} FirstAttemptSucceeds(m: Machine, regen: RegenEnv)
    requires Enough(regen) && Succeeds(CFG, regen.attempts[0])
    ensures FirstSuccess(CFG, regen, 0) == 0
    ensures Regenerate(CFG, m, true, regen) ==
            NoteSuccess(CFG, RegenerateOnce(CFG, m, regen.attempts[0]), true, regen.endAt)
  {
    assert AfterFailures(CFG, m, regen, 0) == m;
  }

  lemma SlowRecovery(m: Machine)
    requires m.s == DYING
    ensures var s := Regenerate(CFG, m, true, SLOW_REGEN).s;
            && s.schedule == Schedule(100 * MINUTE, 100 * MINUTE + 2670 * SECOND, 721 * MINUTE)
            && s.rec.birth == 100 * MINUTE
  {
    FirstAttemptSucceeds(m, SLOW_REGEN);
    assert Shortest([89 * 60]) == 89 * 60;
  }

  /** A three-minute restart with one-minute health checks: the tick applies a
      registration and reports its next refresh, but rearm comes more than two health
      intervals after the birth and leaves the timer more than nine hours late. */
  lemma SlowRestartLeavesTimerStale() returns (its: seq<Iteration>)
    ensures Initial(CFG, INIT) && Enough(START.regen) && AllOk(its)
    ensures var m := Run(CFG, INIT, START, its);
            && Real(CFG, m) && !InStep(m.s)
            && m.s.schedule.timer > m.s.schedule.nextRefresh + 9 * HOUR
  {
    var tick := DeadTick(SLOW_REGEN, RearmAt(103, true));
    its := [Tick(tick)];
    StartsAdopted();
    FirstTurn(Tick(tick));
    var m := Run(CFG, INIT, START, []);
    Death(m, SLOW_REGEN, RearmAt(103, true));
    SlowRecovery(BeginRecovery(CFG, Observe(CFG, m, false, 99 * MINUTE), tick));
    assert AttemptInTime(CFG, 99 * MINUTE, SLOW_ATTEMPT);
    FirstAttemptSucceeds(m, SLOW_REGEN);
    assert !Rearms(CFG, HealthTick(CFG, m, tick).s, tick.rearm);
    RunsAreReal(CFG, INIT, START, its);
  }

  // ----- A birth that is not saved makes the measurement err on the long side -----

  /** Registration 2 is born at minute 100, and its birth cannot be saved. */
  const LOSING_ATTEMPT := NoKey(100).(generates := true, birthIO := SaveFails, arm := ArmEnv(101 * MINUTE, true, None))
  const LOSING_REGEN := RegenEnv(seq(6, i => LOSING_ATTEMPT), 101 * MINUTE)

  const LOST := ADOPTED.(
    clock := 101 * MINUTE, disk := Disk([MINUTE, 100 * MINUTE], 2, 0, 2, 1),
    rec := LifetimeRecord(MINUTE, [89 * 60], 90 * MINUTE),
    schedule := Schedule(100 * MINUTE, 102 * MINUTE, 721 * MINUTE),
    recoveries := Recoveries(101 * MINUTE, 1, false, 0),
    health := Health(false, 99 * MINUTE, 90 * MINUTE, 99 * MINUTE, 0, false))

  /** Registration 2 is seen healthy at minute 110. */
  const SEEN := LOST.(
    clock := 110 * MINUTE, recoveries := Recoveries(101 * MINUTE, 1, true, 0),
    health := Health(true, 110 * MINUTE, 110 * MINUTE, ZERO_TIME, 0, true))

  const LOSING_TICK := DeadTick(LOSING_REGEN, RearmAt(101, true))
  const SEEN_TICK := TickEnv(true, 110 * MINUTE, 110 * MINUTE, StoreOk, Six(110, NoKey), RearmAt(110, true))
  const LAST_TICK := TickEnv(false, 120 * MINUTE, 120 * MINUTE, StoreOk, Six(121, NoKey), RearmAt(140, false))

  lemma LosingRecovery(m: Machine)
    requires m.s == DYING
    ensures Regenerate(CFG, m, true, LOSING_REGEN).s == LOST
  {
    FirstAttemptSucceeds(m, LOSING_REGEN);
    assert Shortest([89 * 60]) == 89 * 60;
  }

  lemma LosingTurn()
    ensures Enough(START.regen) && AllOk([Tick(LOSING_TICK)])
    ensures RunInTime(CFG, INIT, START, [Tick(LOSING_TICK)])
    ensures Run(CFG, INIT, START, [Tick(LOSING_TICK)]).s == LOST
  {
    StartsAdopted();
    FirstTurn(Tick(LOSING_TICK));
    var m := Run(CFG, INIT, START, []);
    Death(m, LOSING_REGEN, RearmAt(101, true));
    LosingRecovery(BeginRecovery(CFG, Observe(CFG, m, false, 99 * MINUTE), LOSING_TICK));
    FirstAttemptSucceeds(m, LOSING_REGEN);
    assert AttemptInTime(CFG, 99 * MINUTE, LOSING_ATTEMPT);
    assert !Rearms(CFG, LOST, LOSING_TICK.rearm);
  }

  lemma SeenTurn()
    ensures Enough(START.regen) && AllOk([Tick(LOSING_TICK), Tick(SEEN_TICK)])
    ensures RunInTime(CFG, INIT, START, [Tick(LOSING_TICK), Tick(SEEN_TICK)])
    ensures Run(CFG, INIT, START, [Tick(LOSING_TICK), Tick(SEEN_TICK)]).s == SEEN
  {
    var its := [Tick(LOSING_TICK)];
    LosingTurn();
    NextTurn(its, Tick(SEEN_TICK));
    assert its + [Tick(SEEN_TICK)] == [Tick(LOSING_TICK), Tick(SEEN_TICK)];
    var m := Run(CFG, INIT, START, its);
    assert HealthTick(CFG, m, SEEN_TICK).s == SEEN;
    assert !Rearms(CFG, SEEN, SEEN_TICK.rearm);
  }

  lemma SixWithoutKey(t: Time)
    requires t > 0
    ensures Enough(Six(t, NoKey)) && FirstSuccess(CFG, Six(t, NoKey), 0) == MAX_ATTEMPTS
    ensures RegenInTime(CFG, (t - 1) * MINUTE, true, Six(t, NoKey))
  {
    var regen := Six(t, NoKey);
    forall i | 0 <= i < MAX_ATTEMPTS
      ensures !Succeeds(CFG, regen.attempts[i]) && FailureInTime(regen.attempts[i])
      ensures AttemptInTime(CFG, Earlier(CFG, (t - 1) * MINUTE, regen, i), regen.attempts[i])
    {
      assert regen.attempts[i] == NoKey(t + 2 * i);
      if i > 0 {
        OneMinutePauses(i - 1);
        assert regen.attempts[i - 1] == NoKey(t + 2 * (i - 1));
      }
    }
  }

  lemma LastTurn(m: Machine)
    requires m.s == SEEN
    ensures Enough(LAST_TICK.regen) && TickInTime(CFG, m, LAST_TICK)
    ensures var s := Iterate(CFG, m, Tick(LAST_TICK)).s;
            && s.disk == SEEN.disk && s.rec == LifetimeRecord(MINUTE, [89 * 60, 109 * 60], 110 * MINUTE)
            && s.health.lastHealthy == 110 * MINUTE
  {
    SixWithoutKey(121);
    var m1 := Observe(CFG, m, false, 120 * MINUTE);
    assert m1.s == SEEN.(
      clock := 120 * MINUTE, health := Health(false, 120 * MINUTE, 110 * MINUTE, 120 * MINUTE, 1, true));
    var m2 := BeginRecovery(CFG, m1, LAST_TICK);
    assert m2.s.rec == LifetimeRecord(MINUTE, [89 * 60, 109 * 60], 110 * MINUTE);
    FailuresWithoutKey(CFG, m2, LAST_TICK.regen, MAX_ATTEMPTS);
  }

  /** Once the birth of registration 2 is lost, last_generate_utc is later than the recorded birth. */
  lemma LostBirthIsOvertaken() returns (its: seq<Iteration>)
    ensures Initial(CFG, INIT) && Enough(START.regen) && AllOk(its)
    ensures var m := Run(CFG, INIT, START, its);
            Real(CFG, m) && m.s.schedule.lastGenerate > m.s.rec.birth
  {
    its := [Tick(LOSING_TICK)];
    StartsAdopted();
    LosingTurn();
    RunsAreReal(CFG, INIT, START, its);
  }

  /** Registration 2 lived from minute 100 and was last seen healthy at minute 110, so
      for 600 seconds; 109 minutes are recorded for it. */
  lemma LostBirthOverstates() returns (its: seq<Iteration>)
    ensures Initial(CFG, INIT) && KnownAtStart(CFG, INIT) && Enough(START.regen) && AllOk(its)
    ensures var m := Run(CFG, INIT, START, its);
            && Real(CFG, m)
            && m.s.disk.running == 2 && TrueAge(m.s) == 600 && m.s.rec.observed == [89 * 60, 109 * 60]
  {
    var before := [Tick(LOSING_TICK), Tick(SEEN_TICK)];
    its := before + [Tick(LAST_TICK)];
    StartsAdopted();
    SeenTurn();
    NextTurn(before, Tick(LAST_TICK));
    LastTurn(Run(CFG, INIT, START, before));
    RunsAreReal(CFG, INIT, START, its);
  }

  // ----- Recoveries that mint six each -----

  lemma {:induction false} SixRefused(t: Time)
    requires t > 0
    ensures var regen := Six(t, Refused);
            && Enough(regen) && FirstSuccess(CFG, regen, 0) == MAX_ATTEMPTS
            && RegenInTime(CFG, (t - 1) * MINUTE, true, regen)
            && Paused(CFG, regen, MAX_ATTEMPTS - 1) == (t + 11) * MINUTE
            && forall k: nat | k == MAX_ATTEMPTS :: |NewBirths(regen, k)| == k
  {
    var regen := Six(t, Refused);
    forall i | 0 <= i < MAX_ATTEMPTS
      ensures !Succeeds(CFG, regen.attempts[i]) && FailureInTime(regen.attempts[i]) && regen.attempts[i].generates
      ensures AttemptInTime(CFG, Earlier(CFG, (t - 1) * MINUTE, regen, i), regen.attempts[i])
    {
      assert regen.attempts[i] == Refused(t + 2 * i);
      if i > 0 {
        OneMinutePauses(i - 1);
        assert regen.attempts[i - 1] == Refused(t + 2 * (i - 1));
      }
    }
    OneMinutePauses(5);
    MintedExactly(regen, MAX_ATTEMPTS);
  }

  const SIX_TICK := DeadTick(Six(100, Refused), RearmAt(113, false))
  const SIX_AGAIN := TickEnv(false, 114 * MINUTE, 114 * MINUTE, StoreOk, Six(115, Refused), RearmAt(128, false))

  lemma FirstSix() returns (m: Machine)
    ensures Enough(START.regen) && AllOk([Tick(SIX_TICK)]) && RunInTime(CFG, INIT, START, [Tick(SIX_TICK)])
    ensures m == Run(CFG, INIT, START, []) && Real(CFG, m) && AtRest(m) && m.s == ADOPTED
    ensures Enough(SIX_TICK.regen) && TickInTime(CFG, m, SIX_TICK) && Abandons(CFG, m, SIX_TICK)
  {
    StartsAdopted();
    SixRefused(100);
    FirstTurn(Tick(SIX_TICK));
    m := Run(CFG, INIT, START, []);
    RunsAreReal(CFG, INIT, START, []);
    RunsAreLawful(CFG, INIT, START, []);
    Death(m, SIX_TICK.regen, SIX_TICK.rearm);
  }

  lemma {:induction false} AfterSix(k: nat) returns (m: Machine)
    requires k == MAX_ATTEMPTS
    ensures Enough(START.regen) && AllOk([Tick(SIX_TICK)]) && m == Run(CFG, INIT, START, [Tick(SIX_TICK)])
    ensures m.s.clock == 111 * MINUTE && |m.s.disk.births| == 7 && m.s.recoveries.last == ZERO_TIME
    ensures !SIX_AGAIN.healthy && Recovers(CFG, Observe(CFG, m, false, SIX_AGAIN.now).s, SIX_AGAIN.checkAt)
  {
    var m0 := FirstSix();
    SixRefused(100);
    FirstTurn(Tick(SIX_TICK));
    m := AbandonedTick(CFG, m0, SIX_TICK, k);
    assert Iterate(CFG, m0, Tick(SIX_TICK)) == m;
    AbandonedRecoversAgain(CFG, m0, SIX_TICK, SIX_AGAIN);
  }

  /** While the restart keeps being refused, one reactive recovery mints six registrations,
      and the next, fifteen minutes later, six more: no cooldown comes between. */
  lemma TwoRecoveriesMintTwelve() returns (its: seq<Iteration>)
    ensures Initial(CFG, INIT) && Enough(START.regen) && AllOk(its) && |its| == 2
    ensures var first, m := Run(CFG, INIT, START, its[..1]), Run(CFG, INIT, START, its);
            && Real(CFG, m)
            && |first.s.disk.births| == |INIT.disk.births| + 6
            && |m.s.disk.births| == |INIT.disk.births| + 12
  {
    var k: nat := MAX_ATTEMPTS;
    var before := [Tick(SIX_TICK)];
    its := before + [Tick(SIX_AGAIN)];
    var m0 := FirstSix();
    var m := AfterSix(k);
    SixRefused(115);
    RunsAreReal(CFG, INIT, START, before);
    RunsAreLawful(CFG, INIT, START, before);
    NextTurn(before, Tick(SIX_AGAIN));
    StartsAdopted();
    assert RegenInTime(CFG, 114 * MINUTE, true, SIX_AGAIN.regen);
    assert Abandons(CFG, m, SIX_AGAIN) && TickInTime(CFG, m, SIX_AGAIN);
    var after := AbandonedTick(CFG, m, SIX_AGAIN, k);
    assert Iterate(CFG, m, Tick(SIX_AGAIN)) == after;
    RunsAreReal(CFG, INIT, START, its);
    assert its[..1] == before;
  }
}
