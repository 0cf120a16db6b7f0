/** The control flow of the refresh daemon as functions on runs: each takes the run
    so far and what the environment answers, and gives the longer run. */
module RefreshSpec {
  import opened Common
  import opened Lifetime
  import opened Alerts
  import opened RefreshModel

  const MAX_ATTEMPTS := 6

  // ----- What the environment answers -----

  /** A computation of the next refresh time: the clock, whether the lifetime
      record could be read, and the random draw. */
  datatype ArmEnv = ArmEnv(at: Time, readable: bool, draw: Option<nat>)

  /** A restart request may fail with or without having restarted gluetun. */
  datatype RestartOutcome = RestartOk | RestartRefused | RestartFailedLate

  /** error is the text a failure leaves behind. */
  datatype AttemptEnv = AttemptEnv(
    start: Time, generates: bool, writes: bool, birthIO: StoreIO, handsOver: bool,
    restart: RestartOutcome, arm: ArmEnv, failedAt: Time, error: string)

  /** endAt is when a successful regeneration is noted. */
  datatype RegenEnv = RegenEnv(attempts: seq<AttemptEnv>, endAt: Time)

  datatype RearmEnv = RearmEnv(readable: bool, at: Time, arm: ArmEnv)

  datatype TickEnv = TickEnv(
    healthy: bool, now: Time, checkAt: Time, lossIO: StoreIO, regen: RegenEnv, rearm: RearmEnv)

  datatype AdoptEnv = AdoptEnv(
    endpointKnown: bool, readable: bool, sameRegion: bool, at: Time, healthy: bool, now: Time)

  datatype Iteration =
    | Tick(tick: TickEnv)
    | Proactive(regen: RegenEnv, arm: ArmEnv)

  datatype StartEnv = StartEnv(adoptHealthy: bool, adopt: AdoptEnv, regen: RegenEnv, arm: ArmEnv)

  /** At most MAX_ATTEMPTS attempts are ever consulted. */
  predicate Enough(env: RegenEnv) {
    |env.attempts| >= MAX_ATTEMPTS
  }

  predicate IterationOk(it: Iteration) {
    match it
    case Tick(tick) => Enough(tick.regen)
    case Proactive(regen, _) => Enough(regen)
  }

  // ----- Control flow -----

  predicate AtRest(m: Machine) {
    m.s.phase.Idle? && m.s.stage.Resting?
  }

  function Observe(cfg: Config, m: Machine, healthy: bool, now: Time): Machine {
    Emit(cfg, m, Sampled(now, healthy, if healthy then RecoveredNotice(m.s.policy, now) else None))
  }

  function Arm(cfg: Config, m: Machine, env: ArmEnv): Machine {
    Emit(cfg, m, Armed(env.at, env.readable, env.draw))
  }

  // ----- One attempt: what it does depends on the environment alone -----

  predicate Obtains(env: AttemptEnv) {
    env.generates && env.writes
  }

  predicate HandsOver(cfg: Config, env: AttemptEnv) {
    cfg.portForwarding ==> env.handsOver
  }

  predicate Loads(cfg: Config, env: AttemptEnv) {
    cfg.restarts ==> env.restart.RestartOk?
  }

  predicate Succeeds(cfg: Config, env: AttemptEnv) {
    Obtains(env) && HandsOver(cfg, env) && Loads(cfg, env)
  }

  /** Generation and the config write. */
  function ObtainLog(env: AttemptEnv): seq<Event> {
    if !env.generates then [AttemptBegan(env.start)]
    else if !env.writes then [AttemptBegan(env.start), Minted(env.start)]
    else [AttemptBegan(env.start), Minted(env.start), ConfigWritten]
  }

  /** The birth record and the hand-over of the port-forwarding key. */
  function HandOverLog(cfg: Config, env: AttemptEnv): seq<Event> {
    var birth := if env.birthIO.StoreOk? then BirthRecorded(env.start) else BirthLost;
    if cfg.portForwarding && env.handsOver then [birth, PendingWritten] else [birth]
  }

  /** The restart, and the bookkeeping of a success. */
  function LoadLog(cfg: Config, env: AttemptEnv): seq<Event> {
    var restarted := if cfg.restarts && !env.restart.RestartRefused? then [Restarted] else [];
    if Loads(cfg, env) then restarted + [Applied, Armed(env.arm.at, env.arm.readable, env.arm.draw)] else restarted
  }

  function AttemptLog(cfg: Config, env: AttemptEnv): seq<Event> {
    if !Obtains(env) then ObtainLog(env)
    else if !HandsOver(cfg, env) then ObtainLog(env) + HandOverLog(cfg, env)
    else ObtainLog(env) + HandOverLog(cfg, env) + LoadLog(cfg, env)
  }

  /** What is on disk before the restart, wherever the attempt stopped. */
  function DiskPrepared(cfg: Config, disk: Disk, env: AttemptEnv): Disk {
    if !env.generates then disk
    else
      var births := disk.births + [env.start];
      if !env.writes then disk.(births := births)
      else Disk(
        births, |births|, if cfg.portForwarding && env.handsOver then |births| else disk.pending,
        disk.running, if env.birthIO.StoreOk? then |births| else disk.recorded)
  }

  /** The state after the part of an attempt that comes before the restart. */
  function Prepared(cfg: Config, s: State, env: AttemptEnv): State {
    s.(clock := env.start,
       stage := if !env.generates then Trying(env.start)
                else if !env.writes then HasKey(env.start)
                else if cfg.portForwarding && env.handsOver then Handed(env.start)
                else Recorded(env.start),
       disk := DiskPrepared(cfg, s.disk, env),
       rec := if Obtains(env) && env.birthIO.StoreOk? then WithBirth(s.rec, env.start) else s.rec)
  }

  /** The state after the restart request and the bookkeeping of a success. */
  function Loaded(cfg: Config, s: State, env: AttemptEnv): State {
    var reloaded, arm := cfg.restarts && !env.restart.RestartRefused?, env.arm;
    s.(clock := if Loads(cfg, env) then arm.at else s.clock,
       stage := if Loads(cfg, env) then Resting else if reloaded then Reloaded(env.start) else s.stage,
       disk := if reloaded then s.disk.(running := s.disk.config) else s.disk,
       schedule := if Loads(cfg, env)
                   then Schedule(env.start, NextDue(cfg, s.rec, arm.at, arm.readable, arm.draw), s.schedule.timer)
                   else s.schedule)
  }

  /** The state after one attempt, succeed or fail. */
  function AfterAttempt(cfg: Config, s: State, env: AttemptEnv): State {
    var prepared := Prepared(cfg, s, env);
    if Obtains(env) && HandsOver(cfg, env) then Loaded(cfg, prepared, env) else prepared
  }

  function RegenerateOnce(cfg: Config, m: Machine, env: AttemptEnv): Machine {
    Machine(m.init, AfterAttempt(cfg, m.s, env), m.trace + AttemptLog(cfg, env))
  }

  /** The pause after failed attempt i, counted from zero. */
  function Backoff(cfg: Config, i: nat): Duration {
    if i == 0 then cfg.backoffMin else Min(2 * Backoff(cfg, i - 1), cfg.backoffMax)
  }

  /** The pauses after the first n failed attempts. */
  function Sleeps(cfg: Config, n: nat): seq<Duration> {
    if n == 0 then [] else Sleeps(cfg, n - 1) + [Backoff(cfg, n - 1)]
  }

  function NoteFailure(cfg: Config, m: Machine, at: Time, i: nat): Machine {
    Emit(cfg, m, AttemptFailed(at, FailureAlert(m.s.policy), Backoff(cfg, i)))
  }

  function NoteSuccess(cfg: Config, m: Machine, reactive: bool, at: Time): Machine {
    if reactive then Emit(cfg, m, RecoveryApplied(Since(m.s), at)) else m
  }

  function GiveUp(cfg: Config, m: Machine, reactive: bool): Machine {
    if reactive then Emit(cfg, m, RecoveryAbandoned) else m
  }

  function FailedAttempt(cfg: Config, m: Machine, env: AttemptEnv, i: nat): Machine {
    NoteFailure(cfg, RegenerateOnce(cfg, m, env), env.failedAt, i)
  }

  /** The run after the first n attempts have all failed. */
  function AfterFailures(cfg: Config, m: Machine, env: RegenEnv, n: nat): Machine
    requires n <= |env.attempts|
  {
    if n == 0 then m else FailedAttempt(cfg, AfterFailures(cfg, m, env, n - 1), env.attempts[n - 1], n - 1)
  }

  lemma OneMoreFailure(cfg: Config, m: Machine, env: RegenEnv, i: nat, before: Machine, after: Machine)
    requires i < |env.attempts| && before == AfterFailures(cfg, m, env, i)
    requires after == FailedAttempt(cfg, before, env.attempts[i], i)
    ensures after == AfterFailures(cfg, m, env, i + 1)
  {
  }

  /** The first attempt from i on that succeeds, or MAX_ATTEMPTS. */
  function FirstSuccess(cfg: Config, env: RegenEnv, i: nat): (k: nat)
    requires Enough(env) && i <= MAX_ATTEMPTS
    ensures i <= k <= MAX_ATTEMPTS
    ensures forall j | i <= j < k :: !Succeeds(cfg, env.attempts[j])
    ensures k < MAX_ATTEMPTS ==> Succeeds(cfg, env.attempts[k])
    decreases MAX_ATTEMPTS - i
  {
    if i == MAX_ATTEMPTS || Succeeds(cfg, env.attempts[i]) then i else FirstSuccess(cfg, env, i + 1)
  }

  /** Up to six attempts, up to the first success. */
  function Regenerate(cfg: Config, m: Machine, reactive: bool, env: RegenEnv): Machine
    requires Enough(env)
  {
    var k := FirstSuccess(cfg, env, 0);
    if k == MAX_ATTEMPTS then GiveUp(cfg, AfterFailures(cfg, m, env, k), reactive)
    else NoteSuccess(cfg, RegenerateOnce(cfg, AfterFailures(cfg, m, env, k), env.attempts[k]), reactive, env.endAt)
  }

  /** An attempt that is reached either ends the retries or leads to the next. */
  lemma AttemptDecides(cfg: Config, m: Machine, reactive: bool, env: RegenEnv, i: nat)
    requires Enough(env) && i < MAX_ATTEMPTS && i <= FirstSuccess(cfg, env, 0)
    ensures Succeeds(cfg, env.attempts[i]) ==>
      FirstSuccess(cfg, env, 0) == i &&
      Regenerate(cfg, m, reactive, env) ==
      NoteSuccess(cfg, RegenerateOnce(cfg, AfterFailures(cfg, m, env, i), env.attempts[i]), reactive, env.endAt)
    ensures !Succeeds(cfg, env.attempts[i]) ==>
      i < FirstSuccess(cfg, env, 0) &&
      AfterFailures(cfg, m, env, i + 1) == FailedAttempt(cfg, AfterFailures(cfg, m, env, i), env.attempts[i], i)
  {
  }

  lemma {:induction false} RetriesEnd(cfg: Config, m: Machine, reactive: bool, env: RegenEnv, k: nat)
    requires Enough(env) && k == FirstSuccess(cfg, env, 0) == MAX_ATTEMPTS
    ensures Regenerate(cfg, m, reactive, env) == GiveUp(cfg, AfterFailures(cfg, m, env, k), reactive)
  {
  }

  /** The guards of a reactive recovery, after an unhealthy sample. */
  predicate Recovers(cfg: Config, s: State, checkAt: Time) {
    s.health.consecutive >= Threshold(cfg) && CooledDown(cfg, s, checkAt)
  }

  /** An earlier recovery that did not help counts as a failed attempt. */
  function Account(cfg: Config, m: Machine, now: Time): Machine {
    var failed := PreviousIneffective(m.s);
    Emit(cfg, m, Accounted(now, failed, if failed then FailureAlert(m.s.policy) else None))
  }

  function MeasureLoss(cfg: Config, m: Machine, io: StoreIO): Machine {
    if LossMeasurable(m.s) && io.StoreOk?
    then Emit(cfg, m, LossRecorded(WholeSeconds(m.s.health.lastHealthy - m.s.rec.birth)))
    else m
  }

  /** The bookkeeping between the guards and the first attempt. */
  function BeginRecovery(cfg: Config, m: Machine, env: TickEnv): Machine {
    MeasureLoss(cfg, Account(cfg, Emit(cfg, m, RecoveryBegan(env.checkAt)), env.now), env.lossIO)
  }

  function HealthTick(cfg: Config, m: Machine, env: TickEnv): Machine
    requires Enough(env.regen)
  {
    var m1 := Observe(cfg, m, env.healthy, env.now);
    if env.healthy || !Recovers(cfg, m1.s, env.checkAt) then m1
    else Regenerate(cfg, BeginRecovery(cfg, m1, env), true, env.regen)
  }

  /** Whether a tick resets the proactive timer. */
  predicate Rearms(cfg: Config, s: State, env: RearmEnv) {
    env.readable && s.rec.birth != ZERO_TIME &&
    !(s.schedule.nextRefresh > s.rec.birth + MINUTE && env.at - s.rec.birth > cfg.healthInterval * 2)
  }

  function SetTimer(cfg: Config, m: Machine, env: ArmEnv): Machine {
    Emit(cfg, Arm(cfg, m, env), TimerReset)
  }

  function Rearm(cfg: Config, m: Machine, env: RearmEnv): Machine {
    if Rearms(cfg, m.s, env) then SetTimer(cfg, m, env.arm) else m
  }

  /** One turn of the select loop. */
  function Iterate(cfg: Config, m: Machine, it: Iteration): Machine
    requires IterationOk(it)
  {
    match it
    case Tick(tick) => Rearm(cfg, HealthTick(cfg, m, tick), tick.rearm)
    case Proactive(regen, arm) => SetTimer(cfg, Regenerate(cfg, m, false, regen), arm)
  }

  /** When an existing registration may be kept at startup. */
  predicate Adopts(cfg: Config, s: State, env: AdoptEnv) {
    && env.endpointKnown && env.readable && s.rec.birth != ZERO_TIME && env.sameRegion
    && env.at - s.rec.birth < SafeRefreshInterval(s.rec, cfg.fallback, cfg.maxAge) - cfg.healthInterval
    && env.healthy
  }

  function StartUp(cfg: Config, m: Machine, env: StartEnv): Machine
    requires Enough(env.regen)
  {
    var m1 :=
      if env.adoptHealthy && Adopts(cfg, m.s, env.adopt)
      then Observe(cfg, Emit(cfg, m, Adopted), true, env.adopt.now)
      else Regenerate(cfg, m, false, env.regen);
    SetTimer(cfg, m1, env.arm)
  }

  predicate AllOk(its: seq<Iteration>) {
    forall it | it in its :: IterationOk(it)
  }

  /** The daemon's life: startup, then any number of turns of the loop. */
  function Run(cfg: Config, init: State, start: StartEnv, its: seq<Iteration>): Machine
    requires Enough(start.regen) && AllOk(its)
  {
    if its == [] then StartUp(cfg, Machine(init, init, []), start)
    else Iterate(cfg, Run(cfg, init, start, its[..|its| - 1]), its[|its| - 1])
  }
}
