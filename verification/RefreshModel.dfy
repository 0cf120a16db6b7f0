/** The refresh daemon as a machine of small observable events. Apply says what an
    event does to the state; Enabled says when the control flow may perform it;
    Timely says what the environment owes: a clock that never runs backwards. */
module RefreshModel {
  import opened Common
  import opened Lifetime
  import opened Alerts

  const COOLDOWN_CAP: Duration := 30 * MINUTE
  const DEFAULT_COOLDOWN: Duration := 3 * MINUTE

  /** The settings of one daemon process. restarts says whether a container to restart is named. */
  datatype Config = Config(
    cooldown: Duration, threshold: int, healthInterval: Duration,
    backoffMin: Duration, backoffMax: Duration,
    fallback: Duration, jitterMax: Duration, maxAge: Duration,
    portForwarding: bool, restarts: bool, alertAfter: int)

  /** How far a reactive recovery has come. */
  datatype Phase = Idle | Began(since: Time) | Recovering(since: Time)

  /** How far one regeneration attempt has come; start is when it began. */
  datatype Stage =
    | Resting
    | Trying(start: Time)
    | HasKey(start: Time)
    | Written(start: Time)
    | Recorded(start: Time)
    | Handed(start: Time)
    | Reloaded(start: Time)

  /** births[g-1] is the birth of registration g, so |births| is the newest one
      minted. config, pending and running are the registrations in wg0.conf, in
      the pending file and loaded by gluetun; recorded is the one whose birth
      the lifetime record holds. Zero stands for none. */
  datatype Disk = Disk(births: seq<Time>, config: nat, pending: nat, running: nat, recorded: nat)

  /** The schedule: when the running configuration was applied, when the next
      proactive refresh is due, and when the timer really goes off. */
  datatype Schedule = Schedule(lastGenerate: Time, nextRefresh: Time, timer: Time)

  /** The applied reactive recoveries; worked is whether a healthy sample followed the last. */
  datatype Recoveries = Recoveries(last: Time, count: nat, worked: bool, ineffective: nat)

  /** What the samples said; confirmed is whether the current registration was seen healthy. */
  datatype Health = Health(tunnelHealthy: bool, lastCheck: Time, lastHealthy: Time,
                           unhealthySince: Time, consecutive: nat, confirmed: bool)

  datatype State = State(
    clock: Time, phase: Phase, stage: Stage, disk: Disk, rec: LifetimeRecord,
    schedule: Schedule, recoveries: Recoveries, health: Health, policy: Policy, sent: seq<Alert>)

  datatype Event =
    | Adopted
    | Sampled(at: Time, healthy: bool, alert: Option<Alert>)
    | RecoveryBegan(at: Time)
    | Accounted(at: Time, ineffective: bool, alert: Option<Alert>)
    | LossRecorded(seconds: int)
    | AttemptBegan(at: Time)
    | Minted(at: Time)
    | ConfigWritten
    | BirthRecorded(at: Time)
    | BirthLost
    | PendingWritten
    | Restarted
    | AttemptFailed(at: Time, alert: Option<Alert>, sleep: Duration)
    | Applied
    | RecoveryApplied(since: Time, at: Time)
    | RecoveryAbandoned
    | Armed(at: Time, readable: bool, draw: Option<nat>)
    | TimerReset

  // ----- Decisions -----

  function BaseCooldown(cfg: Config): Duration {
    if cfg.cooldown <= 0 then DEFAULT_COOLDOWN else cfg.cooldown
  }

  function Doubled(d: Duration, n: nat): Duration {
    if n == 0 then d else 2 * Doubled(d, n - 1)
  }

  /** The base doubled n times, capped. */
  function CooldownAfter(cfg: Config, n: nat): Duration {
    Min(Doubled(BaseCooldown(cfg), n), COOLDOWN_CAP)
  }

  function Threshold(cfg: Config): nat {
    if cfg.threshold < 1 then 1 else cfg.threshold
  }

  predicate CooledDown(cfg: Config, s: State, at: Time) {
    s.recoveries.last == ZERO_TIME || at - s.recoveries.last >= CooldownAfter(cfg, s.recoveries.ineffective)
  }

  predicate PreviousIneffective(s: State) {
    s.recoveries.count > 0 && !s.recoveries.worked
  }

  predicate LossMeasurable(s: State) {
    s.health.confirmed && s.health.lastHealthy != ZERO_TIME && Measurable(s.rec, s.health.lastHealthy)
  }

  function NextDue(cfg: Config, rec: LifetimeRecord, at: Time, readable: bool, draw: Option<nat>): Time {
    if readable then DueTime(rec, cfg.fallback, cfg.maxAge, cfg.jitterMax, at, draw)
    else at + ApplyJitter(cfg.fallback, cfg.jitterMax, draw)
  }

  /** The stage from which gluetun is restarted, or from which the attempt ends without a restart. */
  predicate ReadyToLoad(cfg: Config, stage: Stage) {
    if cfg.portForwarding then stage.Handed? else stage.Recorded?
  }

  // ----- Effects -----

  function Adding(sent: seq<Alert>, alert: Option<Alert>): seq<Alert> {
    if alert.Some? then sent + [alert.value] else sent
  }

  function Since(s: State): Time {
    if s.phase.Idle? then ZERO_TIME else s.phase.since
  }

  function Start(s: State): Time {
    if s.stage.Resting? then ZERO_TIME else s.stage.start
  }

  function AfterSample(h: Health, at: Time, healthy: bool): Health {
    if healthy then Health(true, at, at, ZERO_TIME, 0, true)
    else Health(false, at, h.lastHealthy, if h.unhealthySince == ZERO_TIME then at else h.unhealthySince,
                h.consecutive + 1, h.confirmed)
  }

  function Apply(cfg: Config, s: State, e: Event): State {
    match e
    case Adopted =>
      s.(schedule := s.schedule.(lastGenerate := s.rec.birth),
         health := s.health.(confirmed := true), recoveries := s.recoveries.(worked := true))
    case Sampled(at, healthy, alert) =>
      s.(clock := at, health := AfterSample(s.health, at, healthy),
         recoveries := if healthy then s.recoveries.(worked := true, ineffective := 0) else s.recoveries,
         policy := if healthy then AfterHealthy(s.policy) else s.policy, sent := Adding(s.sent, alert))
    case RecoveryBegan(at) =>
      s.(clock := at, phase := Began(at))
    case Accounted(at, ineffective, alert) =>
      s.(phase := Recovering(Since(s)),
         recoveries := if ineffective then s.recoveries.(ineffective := s.recoveries.ineffective + 1) else s.recoveries,
         policy := if ineffective then AfterFailure(s.policy, at) else s.policy, sent := Adding(s.sent, alert))
    case LossRecorded(_) =>
      if Measurable(s.rec, s.health.lastHealthy) then s.(rec := WithLoss(s.rec, s.health.lastHealthy)) else s
    case AttemptBegan(at) => s.(clock := at, stage := Trying(at))
    case Minted(at) => s.(disk := s.disk.(births := s.disk.births + [at]), stage := HasKey(at))
    case ConfigWritten => s.(disk := s.disk.(config := |s.disk.births|), stage := Written(Start(s)))
    case BirthRecorded(at) =>
      s.(rec := WithBirth(s.rec, at), disk := s.disk.(recorded := |s.disk.births|), stage := Recorded(at))
    case BirthLost => s.(stage := Recorded(Start(s)))
    case PendingWritten => s.(disk := s.disk.(pending := |s.disk.births|), stage := Handed(Start(s)))
    case Restarted => s.(disk := s.disk.(running := s.disk.config), stage := Reloaded(Start(s)))
    case AttemptFailed(at, alert, sleep) =>
      s.(clock := at + Max(0, sleep), stage := Resting,
         policy := AfterFailure(s.policy, at), sent := Adding(s.sent, alert))
    case Applied => s.(schedule := s.schedule.(lastGenerate := Start(s)), stage := Resting)
    case RecoveryApplied(_, at) =>
      s.(clock := at, phase := Idle, health := s.health.(confirmed := false, consecutive := 0),
         recoveries := Recoveries(at, s.recoveries.count + 1, false, s.recoveries.ineffective))
    case RecoveryAbandoned => s.(phase := Idle)
    case Armed(at, readable, draw) =>
      s.(clock := at, schedule := s.schedule.(nextRefresh := NextDue(cfg, s.rec, at, readable, draw)))
    case TimerReset => s.(schedule := s.schedule.(timer := s.schedule.nextRefresh))
  }

  // ----- The control flow's obligations -----

  predicate Enabled(cfg: Config, s: State, e: Event) {
    match e
    case Adopted =>
      s.phase.Idle? && s.stage.Resting? && s.recoveries.count == 0 && s.rec.birth != ZERO_TIME
    case Sampled(at, healthy, alert) =>
      s.phase.Idle? && s.stage.Resting? && alert == if healthy then RecoveredNotice(s.policy, at) else None
    case RecoveryBegan(at) =>
      s.phase.Idle? && s.stage.Resting? && !s.health.tunnelHealthy &&
      s.health.consecutive >= Threshold(cfg) && CooledDown(cfg, s, at)
    case Accounted(at, ineffective, alert) =>
      s.phase.Began? && s.stage.Resting? && at == s.health.lastCheck && ineffective == PreviousIneffective(s) &&
      alert == if ineffective then FailureAlert(s.policy) else None
    case LossRecorded(seconds) =>
      s.phase.Recovering? && s.stage.Resting? && LossMeasurable(s) &&
      seconds == WholeSeconds(s.health.lastHealthy - s.rec.birth)
    case AttemptBegan(_) => !s.phase.Began? && s.stage.Resting?
    case Minted(at) => s.stage == Trying(at)
    case ConfigWritten => s.stage.HasKey?
    case BirthRecorded(at) => s.stage == Written(at)
    case BirthLost => s.stage.Written?
    case PendingWritten => cfg.portForwarding && s.stage.Recorded?
    case Restarted => cfg.restarts && ReadyToLoad(cfg, s.stage)
    case AttemptFailed(_, alert, _) => !s.stage.Resting? && alert == FailureAlert(s.policy)
    case Applied => if cfg.restarts then s.stage.Reloaded? else ReadyToLoad(cfg, s.stage)
    case RecoveryApplied(since, _) => s.phase == Recovering(since) && s.stage.Resting?
    case RecoveryAbandoned => s.phase.Recovering? && s.stage.Resting?
    case Armed(_, _, _) => s.stage.Resting?
    case TimerReset => s.phase.Idle? && s.stage.Resting?
  }

  // ----- The environment's obligations -----

  predicate Timely(cfg: Config, s: State, e: Event) {
    match e
    case Sampled(at, _, _) => s.clock <= at && 0 < at
    case RecoveryBegan(at) => s.clock <= at
    case AttemptBegan(at) => s.clock <= at && 0 < at
    case AttemptFailed(at, _, _) => s.clock <= at
    case RecoveryApplied(_, at) => s.clock <= at && 0 < at
    case Armed(at, _, draw) => s.clock <= at && DrawOk(cfg.jitterMax, draw)
    case _ => true
  }

  /** A process that has just started: its own state is blank, while the files and
      gluetun are as an earlier process left them. */
  ghost predicate Initial(cfg: Config, s: State) {
    && s.phase.Idle? && s.stage.Resting?
    && s.schedule == Schedule(ZERO_TIME, ZERO_TIME, ZERO_TIME)
    && s.recoveries == Recoveries(ZERO_TIME, 0, false, 0)
    && s.health == Health(false, ZERO_TIME, ZERO_TIME, ZERO_TIME, 0, false)
    && s.policy == NewPolicy(cfg.alertAfter) && s.sent == []
    && 0 <= s.rec.birth <= s.clock
  }

  // ----- Runs -----

  /** A run: the state it started from, the state it is in, and every event between. */
  datatype Machine = Machine(init: State, s: State, trace: seq<Event>)

  function Replay(cfg: Config, s: State, trace: seq<Event>): State {
    if trace == [] then s
    else Apply(cfg, Replay(cfg, s, trace[..|trace| - 1]), trace[|trace| - 1])
  }

  ghost predicate AllEnabled(cfg: Config, s: State, trace: seq<Event>) {
    trace == [] ||
    (AllEnabled(cfg, s, trace[..|trace| - 1]) &&
     Enabled(cfg, Replay(cfg, s, trace[..|trace| - 1]), trace[|trace| - 1]))
  }

  ghost predicate AllTimely(cfg: Config, s: State, trace: seq<Event>) {
    trace == [] ||
    (AllTimely(cfg, s, trace[..|trace| - 1]) &&
     Timely(cfg, Replay(cfg, s, trace[..|trace| - 1]), trace[|trace| - 1]))
  }

  /** The run follows the control flow; nothing is said about its clock. */
  ghost predicate Lawful(cfg: Config, m: Machine) {
    Initial(cfg, m.init) && m.s == Replay(cfg, m.init, m.trace) && AllEnabled(cfg, m.init, m.trace)
  }

  /** A lawful run whose clock readings never went backwards. */
  ghost predicate Real(cfg: Config, m: Machine) {
    Lawful(cfg, m) && AllTimely(cfg, m.init, m.trace)
  }

  /** The run with one more event. */
  function Emit(cfg: Config, m: Machine, e: Event): Machine {
    Machine(m.init, Apply(cfg, m.s, e), m.trace + [e])
  }

  function EmitAll(cfg: Config, m: Machine, log: seq<Event>): Machine {
    if log == [] then m
    else Emit(cfg, EmitAll(cfg, m, log[..|log| - 1]), log[|log| - 1])
  }

  lemma {:induction false} EmitAllSnoc(cfg: Config, m: Machine, log: seq<Event>, e: Event)
    ensures EmitAll(cfg, m, log + [e]) == Emit(cfg, EmitAll(cfg, m, log), e)
  {
    assert (log + [e])[..|log|] == log;
  }

  lemma {:induction false} EmitAllFew(cfg: Config, m: Machine, a: Event, b: Event, c: Event)
    ensures EmitAll(cfg, m, [a]) == Emit(cfg, m, a)
    ensures EmitAll(cfg, m, [a, b]) == Emit(cfg, Emit(cfg, m, a), b)
    ensures EmitAll(cfg, m, [a, b, c]) == Emit(cfg, Emit(cfg, Emit(cfg, m, a), b), c)
  {
    assert [a] == [] + [a] && [a, b] == [a] + [b] && [a, b, c] == [a, b] + [c];
    EmitAllSnoc(cfg, m, [], a);
    EmitAllSnoc(cfg, m, [a], b);
    EmitAllSnoc(cfg, m, [a, b], c);
  }

  lemma {:induction false} EmitAllConcat(cfg: Config, m: Machine, a: seq<Event>, b: seq<Event>)
    ensures EmitAll(cfg, m, a + b) == EmitAll(cfg, EmitAll(cfg, m, a), b)
    decreases |b|
  {
    if b == [] {
      assert a + b == a;
    } else {
      EmitAllConcat(cfg, m, a, b[..|b| - 1]);
      assert (a + b)[..|a + b| - 1] == a + b[..|b| - 1];
    }
  }

  lemma {:induction false} EmitAllTrace(cfg: Config, m: Machine, log: seq<Event>)
    ensures EmitAll(cfg, m, log).trace == m.trace + log && EmitAll(cfg, m, log).init == m.init
  {
    if log != [] {
      EmitAllTrace(cfg, m, log[..|log| - 1]);
      assert log == log[..|log| - 1] + [log[|log| - 1]];
    }
  }

  lemma EmitKeepsLawful(cfg: Config, m: Machine, e: Event)
    requires Enabled(cfg, m.s, e)
    ensures Lawful(cfg, m) ==> Lawful(cfg, Emit(cfg, m, e))
    ensures Real(cfg, m) && Timely(cfg, m.s, e) ==> Real(cfg, Emit(cfg, m, e))
  {
    assert (m.trace + [e])[..|m.trace|] == m.trace;
  }

  ghost function Before(cfg: Config, m: Machine): Machine
    requires m.trace != []
  {
    var prefix := m.trace[..|m.trace| - 1];
    Machine(m.init, Replay(cfg, m.init, prefix), prefix)
  }

  /** The run as it stood after its first k events. */
  ghost function Upto(cfg: Config, m: Machine, k: nat): Machine
    requires k <= |m.trace|
  {
    Machine(m.init, Replay(cfg, m.init, m.trace[..k]), m.trace[..k])
  }

  lemma BeforeIsLawful(cfg: Config, m: Machine)
    requires Lawful(cfg, m) && m.trace != []
    ensures var b, e := Before(cfg, m), m.trace[|m.trace| - 1];
            && Lawful(cfg, b) && b.init == m.init
            && m.s == Apply(cfg, b.s, e) && m.trace == b.trace + [e] && Enabled(cfg, b.s, e)
  {
  }

  lemma BeforeIsReal(cfg: Config, m: Machine)
    requires Real(cfg, m) && m.trace != []
    ensures var b, e := Before(cfg, m), m.trace[|m.trace| - 1];
            && Real(cfg, b)
            && m.s == Apply(cfg, b.s, e) && m.trace == b.trace + [e]
            && Enabled(cfg, b.s, e) && Timely(cfg, b.s, e)
  {
  }

  lemma {:induction false} UptoIsReal(cfg: Config, m: Machine, k: nat)
    requires Real(cfg, m) && k <= |m.trace|
    ensures Real(cfg, Upto(cfg, m, k))
    ensures k < |m.trace| ==>
              && Enabled(cfg, Upto(cfg, m, k).s, m.trace[k])
              && Timely(cfg, Upto(cfg, m, k).s, m.trace[k])
              && Upto(cfg, m, k + 1).s == Apply(cfg, Upto(cfg, m, k).s, m.trace[k])
    decreases |m.trace|
  {
    if k == |m.trace| {
      assert m.trace[..k] == m.trace;
    } else {
      BeforeIsReal(cfg, m);
      var b := Before(cfg, m);
      UptoIsReal(cfg, b, k);
      assert b.trace[..k] == m.trace[..k];
      if k + 1 < |m.trace| {
        assert b.trace[..k + 1] == m.trace[..k + 1];
      } else {
        assert m.trace[..k + 1] == m.trace;
        assert m.trace[..k] == b.trace;
      }
    }
  }
}
