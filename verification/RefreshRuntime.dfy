/** The refresh daemon's mutable runtime. Every method is proved to extend the run
    exactly as RefreshSpec says. */
module RefreshRuntime {
  import opened Common
  import opened Lifetime
  import opened Alerts
  import opened RefreshModel
  import opened RefreshSpec
  import opened RefreshLawful
  import opened Cooldown
  import opened Sampling
  import Dispatcher
  import opened Attempts
  import opened Adoption
  import Status
  import WgConfig

  // ----- The texts the daemon remembers for its status -----

  /** After a sample: its public IP and status, and its error until a healthy one. */
  function SampleShown(shown: Status.Shown, state: TunnelState): Status.Shown {
    shown.(publicIP := if state.publicIPKnown then Some(state.publicIPPresent) else None,
           controlStatus := state.status,
           healthError := if state.healthy then "" else if state.failed then state.error else shown.healthError)
  }

  /** After n failed attempts: the error of the last. */
  function RetryShown(shown: Status.Shown, env: RegenEnv, n: nat): Status.Shown
    requires n <= |env.attempts|
  {
    if n == 0 then shown else shown.(regenError := env.attempts[n - 1].error)
  }

  /** After a regeneration: no error when it succeeded, otherwise that of its last attempt. */
  function RegenShown(cfg: Config, shown: Status.Shown, env: RegenEnv): Status.Shown
    requires Enough(env)
  {
    var k := FirstSuccess(cfg, env, 0);
    if k < MAX_ATTEMPTS then shown.(regenError := "") else RetryShown(shown, env, k)
  }

  /** After a sample of what the control server answers. */
  function RepliesShown(shown: Status.Shown, replies: Replies): Status.Shown {
    var status := if StatusOf(replies).Some? then StatusOf(replies).value else "";
    var ip := if EqualFold(status, "running") && replies.ip.Some? then Some(replies.ip.value != "") else None;
    shown.(publicIP := ip, controlStatus := status, healthError := if Alive(replies) then "" else replies.reason)
  }

  /** After a turn of the loop: a tick's sample, and the recovery it starts or does not. */
  function TurnShown(cfg: Config, m: Machine, shown: Status.Shown, it: Iteration, replies: Replies): Status.Shown
    requires IterationOk(it)
  {
    match it
    case Tick(tick) =>
      var sampled := RepliesShown(shown, replies);
      var m1 := RefreshSpec.Observe(cfg, m, tick.healthy, tick.now);
      if tick.healthy || !Recovers(cfg, m1.s, tick.checkAt) then sampled
      else RegenShown(cfg, sampled, tick.regen)
    case Proactive(regen, _) => RegenShown(cfg, shown, regen)
  }

  /** What a turn leaves to be shown: a tick the status, public IP and error of its sample;
      a regeneration no error when one of its attempts works, and otherwise that of the
      sixth; a turn that regenerates nothing keeps the earlier one. */
  lemma {:induction false} TurnShownExactly(cfg: Config, m: Machine, shown: Status.Shown, it: Iteration,
                                            replies: Replies)
    requires IterationOk(it) && (it.Tick? ==> it.tick.healthy == Alive(replies))
    ensures var t := TurnShown(cfg, m, shown, it, replies);
            && t.serverName == shown.serverName && t.ipv6Mode == shown.ipv6Mode
            && (it.Tick? ==>
                  && (t.healthError == "" || !Alive(replies)) && (!Alive(replies) ==> t.healthError == replies.reason)
                  && t.controlStatus == (if StatusOf(replies).Some? then StatusOf(replies).value else "")
                  && (t.publicIP.Some? <==> replies.ip.Some? && EqualFold(t.controlStatus, "running"))
                  && (t.publicIP.Some? ==> t.publicIP == Some(replies.ip != Some(""))))
            && (it.Proactive? ==> t == shown.(regenError := t.regenError))
            && var regen := if it.Tick? then it.tick.regen else it.regen;
               var due := it.Proactive? ||
                          (!Alive(replies) &&
                           Recovers(cfg, RefreshSpec.Observe(cfg, m, false, it.tick.now).s, it.tick.checkAt));
               t.regenError ==
               if !due then shown.regenError
               else if SomeAttemptWorks(cfg, regen) then "" else regen.attempts[5].error
  {
    var regen := if it.Tick? then it.tick.regen else it.regen;
    WorksExactly(cfg, regen, FirstSuccess(cfg, regen, 0));
  }

  function StartShown(cfg: Config, s: State, shown: Status.Shown, start: StartEnv, replies: Replies): Status.Shown
    requires Enough(start.regen)
  {
    if Keeps(cfg, s, start) then RepliesShown(shown, replies) else RegenShown(cfg, shown, start.regen)
  }

  /** After startup and any number of turns. */
  function RunShown(cfg: Config, init: State, shown: Status.Shown, start: StartEnv, startReplies: Replies,
                    its: seq<Iteration>, replies: seq<Replies>): Status.Shown
    requires Enough(start.regen) && AllOk(its) && |replies| == |its|
  {
    if its == [] then StartShown(cfg, init, shown, start, startReplies)
    else
      var n := |its| - 1;
      TurnShown(cfg, Run(cfg, init, start, its[..n]),
                RunShown(cfg, init, shown, start, startReplies, its[..n], replies[..n]), its[n], replies[n])
  }

  class Runtime {
    const cfg: Config
    const policy: OutagePolicy
    const store: LifetimeStore
    const alerts: Dispatcher.AlertDispatcher

    var lastGenerate: Time
    var nextRefresh: Time
    var timer: Time
    var lastRecovery: Time
    var recoveryCount: nat
    var healthySinceRecovery: bool
    var ineffectiveRecoveries: nat
    var tunnelHealthy: bool
    var lastHealthCheck: Time
    var lastHealthy: Time
    var unhealthySince: Time
    var consecutiveUnhealthy: nat
    var confirmedHealthy: bool
    var shown: Status.Shown

    // The files and gluetun, the clock, and the run so far.
    ghost var disk: Disk
    ghost var clock: Time
    ghost var phase: Phase
    ghost var stage: Stage
    ghost var init: State
    ghost var trace: seq<Event>

    ghost function HealthNow(): Health
      reads this
    {
      Health(tunnelHealthy, lastHealthCheck, lastHealthy, unhealthySince, consecutiveUnhealthy, confirmedHealthy)
    }

    ghost function RecoveriesNow(): Recoveries
      reads this
    {
      Recoveries(lastRecovery, recoveryCount, healthySinceRecovery, ineffectiveRecoveries)
    }

    ghost function Now(): State
      reads this, policy, store, alerts
    {
      State(clock, phase, stage, disk, store.Record(),
            Schedule(lastGenerate, nextRefresh, timer), RecoveriesNow(), HealthNow(),
            policy.View(), Dispatcher.Offered(alerts.offers))
    }

    ghost function View(): Machine
      reads this, policy, store, alerts
    {
      Machine(init, Now(), trace)
    }

    constructor (cfg: Config, serverName: bool, ipv6Mode: string, store: LifetimeStore, disk: Disk, clock: Time)
      requires 0 <= store.Record().birth <= clock
      ensures this.cfg == cfg && this.store == store && fresh(policy) && fresh(alerts)
      ensures View().trace == [] && View().init == View().s && Initial(cfg, View().s)
      ensures View().s.disk == disk && View().s.rec == store.Record()
      ensures shown == Status.Shown(None, serverName, ipv6Mode, "", "", "")
    {
      this.cfg := cfg;
      this.store := store;
      policy := new OutagePolicy(cfg.alertAfter);
      alerts := new Dispatcher.AlertDispatcher();
      lastGenerate, nextRefresh, timer, lastRecovery := ZERO_TIME, ZERO_TIME, ZERO_TIME, ZERO_TIME;
      recoveryCount, healthySinceRecovery, ineffectiveRecoveries := 0, false, 0;
      tunnelHealthy, confirmedHealthy, consecutiveUnhealthy := false, false, 0;
      lastHealthCheck, lastHealthy, unhealthySince := ZERO_TIME, ZERO_TIME, ZERO_TIME;
      shown := Status.Shown(None, serverName, ipv6Mode, "", "", "");
      this.disk, this.clock, phase, stage, trace := disk, clock, Idle, Resting, [];
      new;
      init := Now();
    }

    method SendAlert(alert: Alert)
      modifies alerts
      ensures Dispatcher.Offered(alerts.offers) == old(Dispatcher.Offered(alerts.offers)) + [alert]
    {
      var queued := alerts.Send(alert);
      assert alerts.View().offers == alerts.offers;
      assert alerts.offers[..|alerts.offers| - 1] == old(alerts.offers);
    }

    method NoteFailedAttempt(now: Time)
      modifies policy, alerts
      ensures policy.View() == AfterFailure(old(policy.View()), now)
      ensures Dispatcher.Offered(alerts.offers) ==
              Adding(old(Dispatcher.Offered(alerts.offers)), FailureAlert(old(policy.View())))
    {
      var fire, attempts := policy.Failed(now);
      if !fire {
        return;
      }
      SendAlert(Failure(attempts));
    }

    method NoteTexts(state: TunnelState)
      modifies this`shown
      ensures shown == SampleShown(old(shown), state)
    {
      var ip := if state.publicIPKnown then Some(state.publicIPPresent) else None;
      shown := shown.(controlStatus := state.status, publicIP := ip);
      if state.healthy {
        shown := shown.(healthError := "");
      } else if state.failed {
        shown := shown.(healthError := state.error);
      }
    }

    method FoldSample(state: TunnelState, now: Time)
      modifies this`shown, this`lastHealthCheck, this`tunnelHealthy, this`lastHealthy, this`confirmedHealthy,
        this`healthySinceRecovery, this`ineffectiveRecoveries, this`consecutiveUnhealthy, this`unhealthySince
      ensures HealthNow() == AfterSample(old(HealthNow()), now, state.healthy)
      ensures RecoveriesNow() == if state.healthy
                                 then old(RecoveriesNow()).(worked := true, ineffective := 0)
                                 else old(RecoveriesNow())
      ensures shown == SampleShown(old(shown), state)
    {
      NoteTexts(state);
      lastHealthCheck := now;
      tunnelHealthy := state.healthy;
      if state.healthy {
        lastHealthy := now;
        confirmedHealthy := true;
        healthySinceRecovery := true;
        ineffectiveRecoveries := 0;
        consecutiveUnhealthy := 0;
        unhealthySince := ZERO_TIME;
      } else {
        consecutiveUnhealthy := consecutiveUnhealthy + 1;
        if unhealthySince == ZERO_TIME {
          unhealthySince := now;
        }
      }
    }

    method TakeSample(state: TunnelState, now: Time)
      modifies this`shown, this`lastHealthCheck, this`tunnelHealthy, this`lastHealthy, this`confirmedHealthy,
        this`healthySinceRecovery, this`ineffectiveRecoveries, this`consecutiveUnhealthy, this`unhealthySince
      ensures Now() == old(Now()).(
                         health := AfterSample(old(Now().health), now, state.healthy),
                         recoveries := if state.healthy
                                       then old(Now().recoveries).(worked := true, ineffective := 0)
                                       else old(Now().recoveries))
      ensures shown == SampleShown(old(shown), state)
    {
      FoldSample(state, now);
    }

    method NoteHealthy(now: Time)
      modifies policy, alerts
      ensures policy.View() == AfterHealthy(old(policy.View()))
      ensures Dispatcher.Offered(alerts.offers) ==
              Adding(old(Dispatcher.Offered(alerts.offers)), RecoveredNotice(old(policy.View()), now))
    {
      var recovered, outage, attempts := policy.Healthy(now);
      if recovered {
        SendAlert(Recovered(outage, attempts));
      }
    }

    method Observe(state: TunnelState, now: Time)
      modifies this, policy, alerts
      ensures View() == RefreshSpec.Observe(cfg, old(View()), state.healthy, now)
      ensures shown == SampleShown(old(shown), state)
    {
      ghost var m := View();
      ghost var notice := if state.healthy then RecoveredNotice(policy.View(), now) else None;
      clock, trace := now, trace + [Sampled(now, state.healthy, notice)];
      TakeSample(state, now);
      if state.healthy {
        NoteHealthy(now);
        assert Now() == m.s.(clock := now, health := HealthNow(), recoveries := RecoveriesNow(),
                             policy := AfterHealthy(m.s.policy), sent := Adding(m.s.sent, notice));
      }
    }

    method EffectiveCooldown() returns (cooldown: Duration)
      ensures cooldown == CooldownAfter(cfg, ineffectiveRecoveries)
    {
      cooldown := cfg.cooldown;
      if cooldown <= 0 {
        cooldown := DEFAULT_COOLDOWN;
      }
      var i := 0;
      while i < ineffectiveRecoveries && cooldown < COOLDOWN_CAP
        invariant 0 <= i <= ineffectiveRecoveries
        invariant cooldown == Doubled(BaseCooldown(cfg), i)
      {
        cooldown := cooldown * 2;
        i := i + 1;
      }
      DoubledGrows(BaseCooldown(cfg), i, ineffectiveRecoveries);
      if cooldown > COOLDOWN_CAP {
        cooldown := COOLDOWN_CAP;
      }
    }

    method AccountForPreviousRecovery(now: Time)
      modifies this`ineffectiveRecoveries, this`phase, this`trace, policy, alerts
      ensures View() == Account(cfg, old(View()), now)
    {
      var ineffective := recoveryCount > 0 && !healthySinceRecovery;
      ghost var m := View();
      ghost var alert := if ineffective then FailureAlert(policy.View()) else None;
      if ineffective {
        ineffectiveRecoveries := ineffectiveRecoveries + 1;
      }
      phase, trace := Recovering(Since(m.s)), trace + [Accounted(now, ineffective, alert)];
      assert Now() == m.s.(phase := phase, recoveries := RecoveriesNow());
      if ineffective {
        NoteFailedAttempt(now);
      }
    }

    method RecordLossIfMeasurable(io: StoreIO)
      modifies this`trace, store
      ensures View() == MeasureLoss(cfg, old(View()), io)
    {
      if !confirmedHealthy || lastHealthy == ZERO_TIME {
        return;
      }
      var appended := store.RecordObservedLoss(lastHealthy, io);
      if appended.Some? {
        trace := trace + [LossRecorded(appended.value)];
      }
    }

    // ----- One regeneration attempt -----

    method NextProactiveDelay(env: ArmEnv) returns (delay: Duration)
      ensures env.at + delay == NextDue(cfg, store.Record(), env.at, env.readable, env.draw)
    {
      var loaded := store.Load(env.readable);
      if loaded.None? {
        return ApplyJitter(cfg.fallback, cfg.jitterMax, env.draw);
      }
      var rec := loaded.value;
      var interval := ApplyJitter(SafeRefreshInterval(rec, cfg.fallback, cfg.maxAge), cfg.jitterMax, env.draw);
      if rec.birth == ZERO_TIME {
        return interval;
      }
      delay := rec.birth + interval - env.at;
      if delay < MINUTE {
        delay := MINUTE;
      }
    }

    /** The event belongs to the caller's log. */
    method ArmNextRefresh(env: ArmEnv) returns (delay: Duration)
      modifies this`nextRefresh, this`clock
      ensures Now() == Apply(cfg, old(Now()), Armed(env.at, env.readable, env.draw))
      ensures env.at + delay == nextRefresh
    {
      delay := NextProactiveDelay(env);
      nextRefresh := env.at + delay;
      clock := env.at;
    }

    /** Generation, the config write, the birth record and the hand-over to pf. */
    method Prepare(env: AttemptEnv) returns (ok: bool)
      modifies this`clock, this`stage, this`disk, store
      ensures Now() == Prepared(cfg, old(Now()), env)
      ensures ok == (Obtains(env) && HandsOver(cfg, env))
    {
      var now := env.start;
      clock, stage := now, Trying(now);
      if !env.generates {
        return false;
      }
      disk := disk.(births := disk.births + [now]);
      stage := HasKey(now);
      if !env.writes {
        return false;
      }
      disk := disk.(config := |disk.births|);

      var saved := store.RecordNewRegistration(now, env.birthIO);
      if saved {
        disk := disk.(recorded := |disk.births|);
      }
      stage := Recorded(now);

      if cfg.portForwarding {
        if !env.handsOver {
          return false;
        }
        disk := disk.(pending := |disk.births|);
        stage := Handed(now);
      }
      ok := true;
    }

    /** A restart that is reported failed may still have happened. */
    method RestartGluetun(env: AttemptEnv) returns (ok: bool)
      modifies this`stage, this`disk
      ensures ok == Loads(cfg, env)
      ensures Now() == if cfg.restarts && !env.restart.RestartRefused?
                       then old(Now()).(stage := Reloaded(env.start), disk := old(disk).(running := old(disk).config))
                       else old(Now())
    {
      if cfg.restarts {
        if !env.restart.RestartRefused? {
          disk := disk.(running := disk.config);
          stage := Reloaded(env.start);
        }
        if !env.restart.RestartOk? {
          return false;
        }
      }
      ok := true;
    }

    method Settle(env: AttemptEnv)
      modifies this`clock, this`stage, this`lastGenerate, this`nextRefresh, this`shown
      ensures Now() == Apply(cfg, old(Now()).(
                                stage := Resting, schedule := old(Now().schedule).(lastGenerate := env.start)),
                             Armed(env.arm.at, env.arm.readable, env.arm.draw))
      ensures shown == old(shown).(regenError := "")
    {
      ghost var s := Now();
      lastGenerate := env.start;
      shown := shown.(regenError := "");
      stage := Resting;
      assert Now() == s.(stage := Resting, schedule := s.schedule.(lastGenerate := env.start));
      var delay := ArmNextRefresh(env.arm);
    }

    /** The restart of gluetun, and the bookkeeping of a success. */
    method LoadConfig(env: AttemptEnv) returns (ok: bool)
      modifies this`clock, this`stage, this`disk, this`lastGenerate, this`nextRefresh, this`shown
      ensures ok == Loads(cfg, env)
      ensures shown == if ok then old(shown).(regenError := "") else old(shown)
      ensures Now() == Loaded(cfg, old(Now()), env)
    {
      ok := RestartGluetun(env);
      if ok {
        Settle(env);
      }
    }

    method RegenerateOnce(env: AttemptEnv) returns (ok: bool)
      modifies this`clock, this`stage, this`disk, this`trace, this`lastGenerate, this`nextRefresh, this`shown, store
      ensures View() == RefreshSpec.RegenerateOnce(cfg, old(View()), env)
      ensures ok == Succeeds(cfg, env)
      ensures shown == if ok then old(shown).(regenError := "") else old(shown)
    {
      var prepared := Prepare(env);
      trace := trace + AttemptLog(cfg, env);
      if !prepared {
        return false;
      }
      ok := LoadConfig(env);
    }

    // ----- Regeneration with retries -----

    method NoteGivingUp(reactive: bool)
      modifies this`phase, this`trace
      ensures View() == GiveUp(cfg, old(View()), reactive)
    {
      if reactive {
        phase, trace := Idle, trace + [RecoveryAbandoned];
      }
    }

    method CountRecovery(at: Time)
      modifies this`lastRecovery, this`recoveryCount, this`healthySinceRecovery, this`confirmedHealthy,
        this`consecutiveUnhealthy
      ensures RecoveriesNow() == Recoveries(at, old(recoveryCount) + 1, false, ineffectiveRecoveries)
      ensures HealthNow() == old(HealthNow()).(confirmed := false, consecutive := 0)
    {
      lastRecovery := at;
      recoveryCount := recoveryCount + 1;
      healthySinceRecovery := false;
      confirmedHealthy := false;
      consecutiveUnhealthy := 0;
    }

    method NoteRecovery(at: Time)
      modifies this`lastRecovery, this`recoveryCount, this`healthySinceRecovery, this`confirmedHealthy,
        this`consecutiveUnhealthy, this`clock, this`phase, this`trace
      ensures View() == NoteSuccess(cfg, old(View()), true, at)
    {
      ghost var m := View();
      ghost var since := Since(m.s);
      CountRecovery(at);
      assert Now() == m.s.(health := HealthNow(), recoveries := RecoveriesNow());
      clock, phase, trace := at, Idle, trace + [RecoveryApplied(since, at)];
    }

    method RememberError(error: string)
      modifies this`shown
      ensures View() == old(View()) && shown == old(shown).(regenError := error)
    {
      shown := shown.(regenError := error);
    }

    method NoteAttemptFailure(at: Time, attempt: nat, backoff: Duration)
      requires backoff == Backoff(cfg, attempt)
      modifies this`clock, this`stage, this`trace, policy, alerts
      ensures View() == NoteFailure(cfg, old(View()), at, attempt)
    {
      ghost var alert := FailureAlert(policy.View());
      NoteFailedAttempt(at);
      clock, stage, trace := at + Max(0, backoff), Resting, trace + [AttemptFailed(at, alert, backoff)];
    }

    /** The body of the retry loop, up to the pause. */
    method TryOnce(reactive: bool, env: RegenEnv, attempt: nat, backoff: Duration) returns (done: bool)
      requires attempt < |env.attempts| && backoff == Backoff(cfg, attempt)
      modifies this, policy, store, alerts
      ensures done == Succeeds(cfg, env.attempts[attempt])
      ensures View() == if done
                        then NoteSuccess(cfg, RefreshSpec.RegenerateOnce(cfg, old(View()), env.attempts[attempt]),
                                         reactive, env.endAt)
                        else FailedAttempt(cfg, old(View()), env.attempts[attempt], attempt)
      ensures shown == old(shown).(regenError := if done then "" else env.attempts[attempt].error)
    {
      done := RegenerateOnce(env.attempts[attempt]);
      if done {
        if reactive {
          NoteRecovery(env.endAt);
        }
      } else {
        RememberError(env.attempts[attempt].error);
        NoteAttemptFailure(env.attempts[attempt].failedAt, attempt, backoff);
      }
    }

    /** An attempt of the retries that began in m, with those texts, after `attempt` failures. */
    method TryNext(ghost m: Machine, ghost texts: Status.Shown, reactive: bool, env: RegenEnv, attempt: nat,
                   backoff: Duration)
      returns (done: bool)
      requires Enough(env) && attempt < MAX_ATTEMPTS && attempt <= FirstSuccess(cfg, env, 0)
      requires backoff == Backoff(cfg, attempt)
      requires View() == AfterFailures(cfg, m, env, attempt) && shown == RetryShown(texts, env, attempt)
      modifies this, policy, store, alerts
      ensures done ==> FirstSuccess(cfg, env, 0) == attempt && View() == Regenerate(cfg, m, reactive, env)
      ensures done ==> shown == RegenShown(cfg, texts, env)
      ensures !done ==> attempt < FirstSuccess(cfg, env, 0) && View() == AfterFailures(cfg, m, env, attempt + 1)
      ensures !done ==> shown == RetryShown(texts, env, attempt + 1)
    {
      AttemptDecides(cfg, m, reactive, env, attempt);
      done := TryOnce(reactive, env, attempt, backoff);
    }

    /** The pauses slept are returned: one after each failed attempt. */
    method RegenerateWithBackoff(reactive: bool, env: RegenEnv) returns (ok: bool, slept: seq<Duration>)
      requires Enough(env)
      modifies this, policy, store, alerts
      ensures View() == Regenerate(cfg, old(View()), reactive, env)
      ensures slept == Sleeps(cfg, FirstSuccess(cfg, env, 0)) && (ok <==> FirstSuccess(cfg, env, 0) < MAX_ATTEMPTS)
      ensures shown == RegenShown(cfg, old(shown), env)
    {
      ghost var m, texts := View(), shown;
      var backoff := cfg.backoffMin;
      slept := [];
      var attempt := 0;
      while attempt < MAX_ATTEMPTS
        invariant 0 <= attempt <= FirstSuccess(cfg, env, 0) && slept == Sleeps(cfg, attempt)
        invariant backoff == Backoff(cfg, attempt)
        invariant View() == AfterFailures(cfg, m, env, attempt)
        invariant shown == RetryShown(texts, env, attempt)
      {
        var done := TryNext(m, texts, reactive, env, attempt, backoff);
        if done {
          return true, slept;
        }
        slept := slept + [backoff];
        backoff := backoff * 2;
        if backoff > cfg.backoffMax {
          backoff := cfg.backoffMax;
        }
        attempt := attempt + 1;
      }
      RetriesEnd(cfg, m, reactive, env, attempt);
      NoteGivingUp(reactive);
      ok := false;
    }

    // ----- The loop -----

    method StartRecovery(env: TickEnv)
      modifies this`clock, this`phase, this`trace, this`ineffectiveRecoveries, policy, store, alerts
      ensures View() == BeginRecovery(cfg, old(View()), env)
    {
      ghost var v := View();
      clock, phase, trace := env.checkAt, Began(env.checkAt), trace + [RecoveryBegan(env.checkAt)];
      assert View() == Emit(cfg, v, RecoveryBegan(env.checkAt));
      AccountForPreviousRecovery(env.now);
      RecordLossIfMeasurable(env.lossIO);
    }

    method Recover(env: TickEnv)
      requires Enough(env.regen)
      modifies this, policy, store, alerts
      ensures View() == Regenerate(cfg, BeginRecovery(cfg, old(View()), env), true, env.regen)
      ensures shown == RegenShown(cfg, old(shown), env.regen)
    {
      StartRecovery(env);
      var ok, slept := RegenerateWithBackoff(true, env.regen);
    }

    method OnHealthTick(replies: Replies, env: TickEnv)
      requires Enough(env.regen) && env.healthy == Alive(replies)
      modifies this, policy, store, alerts
      ensures View() == HealthTick(cfg, old(View()), env)
      ensures shown == TurnShown(cfg, old(View()), old(shown), Tick(env), replies)
    {
      var state := CheckTunnel(replies);
      Observe(state, env.now);
      if state.healthy {
        return;
      }
      var consecutive := consecutiveUnhealthy;
      var threshold := cfg.threshold;
      if threshold < 1 {
        threshold := 1;
      }
      var cooldown := EffectiveCooldown();
      var inCooldown := lastRecovery != ZERO_TIME && env.checkAt - lastRecovery < cooldown;
      if consecutive < threshold {
        return;
      }
      if inCooldown {
        return;
      }
      Recover(env);
    }

    /** Arms the schedule and resets the timer in one clock reading. */
    method ResetTimer(env: ArmEnv)
      modifies this
      ensures View() == SetTimer(cfg, old(View()), env)
      ensures shown == old(shown)
    {
      var delay := ArmNextRefresh(env);
      timer := env.at + delay;
      trace := trace + [Armed(env.at, env.readable, env.draw)] + [TimerReset];
    }

    method RearmTimer(env: RearmEnv)
      modifies this
      ensures View() == Rearm(cfg, old(View()), env)
      ensures shown == old(shown)
    {
      var due := nextRefresh;
      var loaded := store.Load(env.readable);
      if loaded.None? || loaded.value.birth == ZERO_TIME {
        return;
      }
      var birth := loaded.value.birth;
      if due > birth + MINUTE && env.at - birth > cfg.healthInterval * 2 {
        return;
      }
      ResetTimer(env.arm);
    }

    method CarryOver(rec: LifetimeRecord)
      requires rec == store.Record()
      modifies this`lastGenerate, this`confirmedHealthy, this`healthySinceRecovery, this`trace
      ensures View() == Emit(cfg, old(View()), Adopted)
    {
      lastGenerate := rec.birth;
      confirmedHealthy := true;
      healthySinceRecovery := true;
      trace := trace + [Adopted];
    }

    method TryAdopt(env: AdoptEnv, found: Found, replies: Replies) returns (adopted: bool)
      requires Answers(env, found, replies)
      modifies this, policy, alerts
      ensures adopted == Adopts(cfg, old(View()).s, env)
      ensures View() == if adopted
                        then RefreshSpec.Observe(cfg, Emit(cfg, old(View()), Adopted), true, env.now)
                        else old(View())
      ensures shown == if adopted then RepliesShown(old(shown), replies) else old(shown)
    {
      var endpoint := WgConfig.ParseEndpoint(found.config);
      if endpoint.NoFile? || endpoint.value == "" {
        return false;
      }
      var loaded := store.Load(env.readable);
      if loaded.None? || loaded.value.birth == ZERO_TIME {
        return false;
      }
      var previous := Status.PreviousRegion(found.status);
      if previous.None? || previous.value != found.region {
        return false;
      }
      var rec := loaded.value;
      if env.at - rec.birth >= SafeRefreshInterval(rec, cfg.fallback, cfg.maxAge) - cfg.healthInterval {
        return false;
      }
      var state := CheckTunnel(replies);
      if !state.healthy {
        return false;
      }
      CarryOver(rec);
      Observe(state, env.now);
      adopted := true;
    }

    method Startup(env: StartEnv, found: Found, replies: Replies)
      requires Enough(env.regen) && Answers(env.adopt, found, replies)
      modifies this, policy, store, alerts
      ensures View() == StartUp(cfg, old(View()), env)
      ensures shown == StartShown(cfg, old(View().s), old(shown), env, replies)
    {
      var adopted := false;
      if env.adoptHealthy {
        adopted := TryAdopt(env.adopt, found, replies);
      }
      if !adopted {
        var ok, slept := RegenerateWithBackoff(false, env.regen);
      }
      ResetTimer(env.arm);
    }

    /** One turn of the select loop. */
    method Turn(it: Iteration, replies: Replies)
      requires IterationOk(it) && (it.Tick? ==> it.tick.healthy == Alive(replies))
      modifies this, policy, store, alerts
      ensures View() == Iterate(cfg, old(View()), it)
      ensures shown == TurnShown(cfg, old(View()), old(shown), it, replies)
    {
      match it
      case Tick(tick) =>
        OnHealthTick(replies, tick);
        RearmTimer(tick.rearm);
      case Proactive(regen, arm) =>
        var ok, slept := RegenerateWithBackoff(false, regen);
        ResetTimer(arm);
    }

    method BuildStatus(region: string, readable: bool, now: Time) returns (st: Status.DaemonStatus)
      ensures st == Status.BuiltStatus(cfg, Now(), if readable then store.Record() else EMPTY_RECORD,
                                       region, now, shown)
    {
      var loaded := store.Load(readable);
      var rec := if loaded.Some? then loaded.value else EMPTY_RECORD;
      var expiry := ExpectedExpiry(rec, cfg.fallback, cfg.maxAge);
      var failures, alerted := policy.Snapshot();
      var age := RegistrationAge(rec.birth, now);
      var seconds := if age.Some? then Status.Truncated(age.value) else 0;
      var life := MeasuredLifetime(rec);
      var measured := if life.Some? then life.value / SECOND else 0;
      var lastError := "";
      if shown.regenError != "" {
        lastError := shown.regenError;
      } else if shown.healthError != "" {
        lastError := shown.healthError;
      }
      st := Status.DaemonStatus(
        true, region, "", cfg.portForwarding, lastGenerate, nextRefresh,
        rec.birth, seconds, Status.ExpiryTime(expiry), Status.SourceName(expiry), measured,
        tunnelHealthy, shown.publicIP, lastHealthCheck, lastHealthy, unhealthySince, lastRecovery,
        recoveryCount, failures, Status.Notes(shown.serverName, shown.ipv6Mode, lastError, shown.controlStatus));
    }
  }

  /** A whole life of the daemon: what the runtime holds at the end is the run that
      RefreshSpec describes, that run is lawful, and the texts it would show are those of
      the last sample and the last regeneration. */
  method Live(rt: Runtime, start: StartEnv, found: Found, startReplies: Replies,
              its: seq<Iteration>, replies: seq<Replies>)
    requires rt.View().trace == [] && rt.View().init == rt.View().s && Initial(rt.cfg, rt.View().s)
    requires Enough(start.regen) && AllOk(its) && Answers(start.adopt, found, startReplies)
    requires |replies| == |its|
    requires forall i | 0 <= i < |its| && its[i].Tick? :: its[i].tick.healthy == Alive(replies[i])
    modifies rt, rt.policy, rt.store, rt.alerts
    ensures rt.View() == Run(rt.cfg, old(rt.View().s), start, its)
    ensures Lawful(rt.cfg, rt.View())
    ensures rt.shown == RunShown(rt.cfg, old(rt.View().s), old(rt.shown), start, startReplies, its, replies)
  {
    rt.Startup(start, found, startReplies);
    assert its[..0] == [] && replies[..0] == [];
    for i := 0 to |its|
      invariant rt.View() == Run(rt.cfg, old(rt.View().s), start, its[..i])
      invariant rt.shown ==
                RunShown(rt.cfg, old(rt.View().s), old(rt.shown), start, startReplies, its[..i], replies[..i])
    {
      assert its[..i + 1][..i] == its[..i] && its[..i + 1][i] == its[i];
      assert replies[..i + 1][..i] == replies[..i] && replies[..i + 1][i] == replies[i];
      rt.Turn(its[i], replies[i]);
    }
    assert its[..|its|] == its && replies[..|its|] == replies;
    RunsAreLawful(rt.cfg, old(rt.View().s), start, its);
  }
}
