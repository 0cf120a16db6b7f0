/** A provider that silently drops the peer: the status flaps, the public IP stays empty. */
module SilentEviction {
  import opened Common
  import opened RefreshModel
  import opened RefreshSpec
  import opened RefreshLawful
  import opened Cooldown
  import opened Debounce
  import opened ProactiveTimer
  import opened Sampling

  /** A recovery is decided somewhere in the longer run. */
  ghost predicate RecoversIn(before: seq<Event>, after: seq<Event>) {
    exists k :: |before| <= k < |after| && after[k].RecoveryBegan?
  }

  /** n more unhealthy samples are counted, and no recovery is applied. */
  ghost predicate Counted(before: seq<Event>, after: seq<Event>, n: nat) {
    UnhealthyRun(after) == UnhealthyRun(before) + n && LastApplied(after) == LastApplied(before)
  }

  lemma RearmExtends(cfg: Config, m: Machine, env: RearmEnv)
    ensures var trace := Rearm(cfg, m, env).trace;
            && m.trace <= trace
            && Counted(m.trace, trace, 0)
  {
    var armed := Armed(env.arm.at, env.arm.readable, env.arm.draw);
    OneMore(m.trace, armed);
    OneMore(m.trace + [armed], TimerReset);
  }

  lemma TickBegins(cfg: Config, m: Machine, env: TickEnv)
    requires Lawful(cfg, m) && AtRest(m) && Enough(env.regen) && !env.healthy
    ensures var trace := HealthTick(cfg, m, env).trace;
            |trace| > |m.trace| && trace[..|m.trace| + 1] == m.trace + [Sampled(env.now, false, None)]
  {
    ObservedInv(cfg, m, false, env.now);
    RecoveryBeginsTheTrace(cfg, Observe(cfg, m, false, env.now), env);
  }

  /** An unhealthy turn either decides a recovery or lengthens the unhealthy run. */
  lemma UnhealthyTurn(cfg: Config, m: Machine, env: TickEnv)
    requires Lawful(cfg, m) && AtRest(m) && Enough(env.regen) && !env.healthy
    ensures var trace := Iterate(cfg, m, Tick(env)).trace;
            && m.trace <= trace
            && (RecoversIn(m.trace, trace) || Counted(m.trace, trace, 1))
            && (Due(cfg, m.trace + [Sampled(env.now, false, None)], env.checkAt) ==> RecoversIn(m.trace, trace))
  {
    TickRecoversExactlyWhenDue(cfg, m, env);
    var mid := HealthTick(cfg, m, env);
    RearmExtends(cfg, mid, env.rearm);
    var n := |m.trace|;
    assert Observe(cfg, m, false, env.now).trace == m.trace + [Sampled(env.now, false, None)];
    TickBegins(cfg, m, env);
    OneMore(m.trace, Sampled(env.now, false, None));
    var trace := Iterate(cfg, m, Tick(env)).trace;
    if |mid.trace| > n + 1 {
      assert trace[n + 1] == mid.trace[n + 1];
    }
  }

  predicate AllUnhealthy(envs: seq<TickEnv>) {
    forall i | 0 <= i < |envs| :: !envs[i].healthy
  }

  lemma StillRecovers(a: seq<Event>, b: seq<Event>, c: seq<Event>)
    requires a <= b <= c
    ensures RecoversIn(a, b) || RecoversIn(b, c) ==> RecoversIn(a, c)
  {
    if k :| |a| <= k < |b| && b[k].RecoveryBegan? {
      assert c[k].RecoveryBegan?;
    }
  }

  /** Any number of unhealthy turns decide a recovery or are all counted. */
  lemma {:induction false} UnhealthyTurns(cfg: Config, m: Machine, envs: seq<TickEnv>)
    requires Lawful(cfg, m) && AtRest(m) && AllEnough(envs) && AllUnhealthy(envs)
    ensures var m' := Ticks(cfg, m, envs);
            && Lawful(cfg, m') && AtRest(m') && m.trace <= m'.trace
            && (RecoversIn(m.trace, m'.trace) || Counted(m.trace, m'.trace, |envs|))
  {
    if envs != [] {
      var init, last := envs[..|envs| - 1], envs[|envs| - 1];
      var before := Ticks(cfg, m, init);
      UnhealthyTurns(cfg, m, init);
      IterateLawful(cfg, before, Tick(last));
      UnhealthyTurn(cfg, before, last);
      StillRecovers(m.trace, before.trace, Iterate(cfg, before, Tick(last)).trace);
    }
  }

  /** What the control server answers at each turn: the status as it likes, the
      public IP readable and empty. */
  ghost predicate Evicted(envs: seq<TickEnv>, replies: seq<Replies>) {
    |envs| == |replies| &&
    forall i | 0 <= i < |envs| :: replies[i].ip == Some("") && envs[i].healthy == Alive(replies[i])
  }

  /** An unbroken run of empty public IPs is recovered from under any flapping of the
      status: from any lawful run at rest, as many turns as the threshold asks for
      decide a recovery, once no cooldown can still be running at the last of them. */
  lemma {:induction false} EvictionIsRecovered(cfg: Config, m: Machine, envs: seq<TickEnv>, replies: seq<Replies>)
    requires Lawful(cfg, m) && AtRest(m) && AllEnough(envs)
    requires Evicted(envs, replies) && |envs| >= Threshold(cfg)
    requires LastApplied(m.trace) == ZERO_TIME || envs[|envs| - 1].checkAt - LastApplied(m.trace) >= COOLDOWN_CAP
    ensures RecoversIn(m.trace, Ticks(cfg, m, envs).trace)
  {
    forall i | 0 <= i < |envs|
      ensures !envs[i].healthy
    {
      EmptyIPIsNeverAlive(replies[i], replies[i]);
    }
    var init, last := envs[..|envs| - 1], envs[|envs| - 1];
    var before := Ticks(cfg, m, init);
    UnhealthyTurns(cfg, m, init);
    IterateLawful(cfg, before, Tick(last));
    UnhealthyTurn(cfg, before, last);
    OneMore(before.trace, Sampled(last.now, false, None));
    StillRecovers(m.trace, before.trace, Iterate(cfg, before, Tick(last)).trace);
  }
}
