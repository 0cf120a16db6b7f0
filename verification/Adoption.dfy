/** Startup: a registration that is still good is kept, and only such a one. */
module Adoption {
  import opened Common
  import opened Lifetime
  import opened RefreshModel
  import opened RefreshSpec
  import opened ProactiveTimer
  import opened Attempts
  import opened Cadence
  import opened ArmedTimer
  import opened Sampling
  import opened Texts
  import Status
  import WgConfig

  /** The files a starting daemon finds, and the region it is to serve. */
  datatype Found = Found(config: Option<string>, status: Option<Status.Document>, region: string)

  predicate EndpointKnown(found: Found) {
    var endpoint := WgConfig.ParseEndpoint(found.config);
    endpoint.Endpoint? && endpoint.value != ""
  }

  predicate SameRegion(found: Found) {
    Status.PreviousRegion(found.status) == Some(found.region)
  }

  /** The environment answers as the files and the control server do. */
  predicate Answers(env: AdoptEnv, found: Found, replies: Replies) {
    env.endpointKnown == EndpointKnown(found) && env.sameRegion == SameRegion(found) && env.healthy == Alive(replies)
  }

  /** A daemon recognises its own files: a configuration it generated names an endpoint, and
      a status it wrote names its region exactly when that is a trimmed text. */
  lemma OwnFilesAreRecognised(key: WgConfig.AddKeyResult, privateKey: string, mode: WgConfig.IPv6Mode,
                              serverName: string, st: Status.DaemonStatus, found: Found)
    requires WgConfig.Complete(key) && WgConfig.FieldsOfOneLine(key, privateKey)
    requires found.config == Some(WgConfig.Generate(key, privateKey, mode, serverName).text)
    requires found.status == Some(Status.Encoded(st)) && st.region == found.region
    ensures EndpointKnown(found)
    ensures SameRegion(found) <==> found.region != "" && Trim(found.region) == found.region
  {
    WgConfig.EndpointRoundTrip(key, privateKey, mode, serverName);
    Status.TextFields(st);
  }

  predicate Keeps(cfg: Config, s: State, env: StartEnv) {
    env.adoptHealthy && Adopts(cfg, s, env.adopt)
  }

  /** A startup that keeps the registration asks gluetun and the server for nothing. */
  ghost predicate Untouched(s: State, s': State, trace: seq<Event>) {
    && s'.disk == s.disk && s'.rec == s.rec
    && |trace| == 4 && trace[0].Adopted? && trace[1].Sampled? && trace[1].healthy
    && trace[2].Armed? && trace[3].TimerReset?
    && s'.health.confirmed && s'.schedule.lastGenerate == s.rec.birth && InStep(s')
  }

  lemma KeepingStartUp(cfg: Config, init: State, env: StartEnv)
    requires Enough(env.regen) && Keeps(cfg, init, env)
    ensures var m := StartUp(cfg, Machine(init, init, []), env); Untouched(init, m.s, m.trace)
  {
  }

  lemma RegeneratingStartUp(cfg: Config, init: State, env: StartEnv)
    requires Enough(env.regen) && !Keeps(cfg, init, env)
    ensures var m := StartUp(cfg, Machine(init, init, []), env);
            InStep(m.s) && m.trace != [] && m.trace[0].AttemptBegan?
  {
    RegenerationExactly(cfg, Machine(init, init, []), false, env.regen, FirstSuccess(cfg, env.regen, 0));
  }

  /** Startup either leaves everything as it was, when it adopts, or begins by
      regenerating; and it never leaves the timer apart from the reported time. */
  lemma StartUpAdoptsOrRegenerates(cfg: Config, init: State, env: StartEnv)
    requires Enough(env.regen)
    ensures var m := StartUp(cfg, Machine(init, init, []), env);
            && InStep(m.s)
            && (Keeps(cfg, init, env) ==> Untouched(init, m.s, m.trace))
            && (!Keeps(cfg, init, env) ==> m.trace != [] && m.trace[0].AttemptBegan?)
  {
    if Keeps(cfg, init, env) {
      KeepingStartUp(cfg, init, env);
    } else {
      RegeneratingStartUp(cfg, init, env);
    }
  }

  /** A starting daemon adopts exactly when it may, the configuration on disk names an
      endpoint, the status on disk the daemon's own region, the record can be read and
      holds a birth, the registration is younger than its interval less a health
      interval, and the control server shows the tunnel alive. */
  lemma AdoptsExactly(cfg: Config, init: State, start: StartEnv, found: Found, replies: Replies)
    requires Enough(start.regen) && Answers(start.adopt, found, replies) && Sound(init.rec)
    ensures var m := StartUp(cfg, Machine(init, init, []), start);
            (m.trace != [] && m.trace[0].Adopted?) <==>
            && start.adoptHealthy && EndpointKnown(found) && SameRegion(found)
            && start.adopt.readable && init.rec.birth != ZERO_TIME
            && start.adopt.at - init.rec.birth < Cadenced(cfg, init.rec) - cfg.healthInterval
            && Alive(replies)
  {
    StartUpAdoptsOrRegenerates(cfg, init, start);
    IntervalIsWanted(init.rec, SettingsOf(cfg));
  }

  /** An adopted registration has more than a health interval left before its next
      refresh, and before its reported expiry unless that lies within half an hour
      of the birth: an expired registration is adopted for such short lifetimes only. */
  lemma AdoptedHasTimeLeft(cfg: Config, s: State, env: AdoptEnv)
    requires Sound(s.rec) && Adopts(cfg, s, env)
    ensures s.rec.birth + SafeRefreshInterval(s.rec, cfg.fallback, cfg.maxAge) > env.at + cfg.healthInterval
    ensures var expiry := ExpectedExpiry(s.rec, cfg.fallback, cfg.maxAge);
            !expiry.Unknown? && expiry.at >= s.rec.birth + MIN_REFRESH ==> env.at + cfg.healthInterval < expiry.at
  {
    IntervalWithinExpiry(s.rec, cfg.fallback, cfg.maxAge);
  }
}
