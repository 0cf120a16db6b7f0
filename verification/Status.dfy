/** status.json, and the container health probe that reads it back. */
module Status {
  import opened Common
  import opened Lifetime
  import opened RefreshModel
  import opened Cooldown
  import opened Measurement
  import opened OutageStart
  import opened Texts

  /** What the status says beside the lifecycle. */
  datatype Notes = Notes(serverName: bool, ipv6Mode: string, lastError: string, controlStatus: string)

  datatype DaemonStatus = DaemonStatus(
    refreshMode: bool, region: string, lastForwardPort: string, portForwarding: bool,
    lastGenerate: Time, nextRefresh: Time,
    registration: Time, registrationAge: int, expectedExpiry: Time, lifetimeSource: string,
    measuredLifetime: int, tunnelHealthy: bool, publicIPPresent: Option<bool>,
    lastHealthCheck: Time, lastHealthy: Time, unhealthySince: Time, lastRecovery: Time,
    recoveryCount: int, failedAttempts: int, notes: Notes)

  datatype Key =
    | Region | Mode | LastGenerate | LastForwardPort | NextRefresh | PortForwarding
    | Registration | RegistrationAge | ExpectedExpiryKey | LifetimeSource | MeasuredLifetimeKey
    | TunnelHealthy | PublicIPPresent | LastHealthCheck | LastHealthy | UnhealthySince
    | LastRecovery | RecoveryCount | FailedAttempts
    | ServerNameEnabled | IPv6ModeKey | LastError | ControlStatus

  datatype Json = Text(text: string) | Truth(truth: bool) | Number(number: int) | Instant(at: Time)

  type Document = map<Key, Json>

  // ----- Encoding -----

  function When(present: bool, value: Json): Option<Json> {
    if present then Some(value) else None
  }

  /** One field as the generic encoder treats it: fields marked to be left out when
      empty are left out, except that a zero instant does not count as empty. */
  function Field(st: DaemonStatus, key: Key): Option<Json> {
    match key
    case Region => Some(Text(st.region))
    case Mode => When(st.refreshMode, Text("refresh"))
    case LastGenerate => Some(Instant(st.lastGenerate))
    case LastForwardPort => When(st.lastForwardPort != "", Text(st.lastForwardPort))
    case NextRefresh => Some(Instant(st.nextRefresh))
    case PortForwarding => Some(Truth(st.portForwarding))
    case Registration => Some(Instant(st.registration))
    case RegistrationAge => Some(Number(st.registrationAge))
    case ExpectedExpiryKey => Some(Instant(st.expectedExpiry))
    case LifetimeSource => When(st.lifetimeSource != "", Text(st.lifetimeSource))
    case MeasuredLifetimeKey => When(st.measuredLifetime != 0, Number(st.measuredLifetime))
    case TunnelHealthy => Some(Truth(st.tunnelHealthy))
    case PublicIPPresent => When(st.publicIPPresent.Some?, Truth(st.publicIPPresent.Some? && st.publicIPPresent.value))
    case LastHealthCheck => Some(Instant(st.lastHealthCheck))
    case LastHealthy => Some(Instant(st.lastHealthy))
    case UnhealthySince => Some(Instant(st.unhealthySince))
    case LastRecovery => Some(Instant(st.lastRecovery))
    case RecoveryCount => When(st.recoveryCount != 0, Number(st.recoveryCount))
    case FailedAttempts => When(st.failedAttempts != 0, Number(st.failedAttempts))
    case ServerNameEnabled => Some(Truth(st.notes.serverName))
    case IPv6ModeKey => Some(Text(st.notes.ipv6Mode))
    case LastError => When(st.notes.lastError != "", Text(st.notes.lastError))
    case ControlStatus => When(st.notes.controlStatus != "", Text(st.notes.controlStatus))
  }

  function Marshalled(st: DaemonStatus): Document {
    map key: Key | Field(st, key).Some? :: Field(st, key).value
  }

  const OMITTABLE := [Registration, ExpectedExpiryKey, LastHealthCheck, LastHealthy, UnhealthySince, LastRecovery]

  /** The instants that are left out when zero; the last two only in refresh mode. */
  predicate Omittable(st: DaemonStatus, key: Key) {
    match key
    case Registration => true
    case ExpectedExpiryKey => true
    case LastHealthCheck => true
    case LastHealthy => true
    case UnhealthySince => true
    case LastRecovery => true
    case LastGenerate => st.refreshMode
    case NextRefresh => st.refreshMode
    case _ => false
  }

  predicate Dropped(st: DaemonStatus, key: Key) {
    || (Omittable(st, key) && Field(st, key) == Some(Instant(ZERO_TIME)))
    || (key == RegistrationAge && st.registration == ZERO_TIME)
  }

  function Encoded(st: DaemonStatus): Document {
    map key: Key | Field(st, key).Some? && !Dropped(st, key) :: Field(st, key).value
  }

  method MarshalJSON(st: DaemonStatus) returns (out: Document)
    ensures out == Encoded(st)
  {
    var raw := Marshalled(st);
    out := raw;
    var omittable := OMITTABLE;
    if st.refreshMode {
      omittable := omittable + [LastGenerate, NextRefresh];
    }
    for i := 0 to |omittable|
      invariant out.Keys <= raw.Keys
      invariant forall key | key in raw ::
                  key in out <==> !(key in omittable[..i] && raw[key] == Instant(ZERO_TIME))
      invariant forall key | key in out :: out[key] == raw[key]
    {
      var key := omittable[i];
      if key in out && out[key] == Instant(ZERO_TIME) {
        out := out - {key};
      }
      assert omittable[..i + 1] == omittable[..i] + [key];
    }
    if st.registration == ZERO_TIME {
      out := out - {RegistrationAge};
    }
    assert omittable[..|omittable|] == omittable;
    assert forall key :: key in omittable <==> Omittable(st, key);
  }

  predicate IsInstant(key: Key) {
    key in {LastGenerate, NextRefresh, Registration, ExpectedExpiryKey,
            LastHealthCheck, LastHealthy, UnhealthySince, LastRecovery}
  }

  /** Which keys a status of the refresh daemon has: an instant exactly when it is set, the
      age exactly when a birth is; and a legacy status has its two schedule keys always. */
  lemma KeysExactly(st: DaemonStatus, key: Key)
    ensures IsInstant(key) && (st.refreshMode || (key != LastGenerate && key != NextRefresh)) ==>
              (key in Encoded(st) <==> Field(st, key) != Some(Instant(ZERO_TIME)))
    ensures !st.refreshMode ==> LastGenerate in Encoded(st) && NextRefresh in Encoded(st)
    ensures RegistrationAge in Encoded(st) <==> st.registration != ZERO_TIME
  {
  }

  // ----- Decoding: an absent key leaves the zero value -----

  function At(d: Document, key: Key): Time {
    if key in d && d[key].Instant? then d[key].at else ZERO_TIME
  }

  function TextAt(d: Document, key: Key): string {
    if key in d && d[key].Text? then d[key].text else ""
  }

  function NumberAt(d: Document, key: Key): int {
    if key in d && d[key].Number? then d[key].number else 0
  }

  function TruthAt(d: Document, key: Key): bool {
    key in d && d[key].Truth? && d[key].truth
  }

  function Decoded(d: Document): DaemonStatus {
    DaemonStatus(
      TextAt(d, Mode) == "refresh", TextAt(d, Region), TextAt(d, LastForwardPort), TruthAt(d, PortForwarding),
      At(d, LastGenerate), At(d, NextRefresh),
      At(d, Registration), NumberAt(d, RegistrationAge), At(d, ExpectedExpiryKey), TextAt(d, LifetimeSource),
      NumberAt(d, MeasuredLifetimeKey), TruthAt(d, TunnelHealthy),
      if PublicIPPresent in d then Some(TruthAt(d, PublicIPPresent)) else None,
      At(d, LastHealthCheck), At(d, LastHealthy), At(d, UnhealthySince), At(d, LastRecovery),
      NumberAt(d, RecoveryCount), NumberAt(d, FailedAttempts),
      Notes(TruthAt(d, ServerNameEnabled), TextAt(d, IPv6ModeKey), TextAt(d, LastError), TextAt(d, ControlStatus)))
  }

  function InstantOf(field: Option<Json>): Time {
    if field.Some? && field.value.Instant? then field.value.at else ZERO_TIME
  }

  /** Leaving zero instants out loses nothing. */
  lemma InstantsSurvive(st: DaemonStatus, key: Key)
    requires key != RegistrationAge
    ensures At(Encoded(st), key) == InstantOf(Field(st, key))
  {
  }

  /** Fields that are not instants are encoded as they stand, the age excepted. */
  lemma OthersSurvive(st: DaemonStatus, key: Key)
    requires key != RegistrationAge && !(Field(st, key).Some? && Field(st, key).value.Instant?)
    ensures key in Encoded(st) <==> Field(st, key).Some?
    ensures key in Encoded(st) ==> Encoded(st)[key] == Field(st, key).value
  {
  }

  lemma ScheduleFields(st: DaemonStatus)
    ensures var d := Encoded(st);
            && At(d, LastGenerate) == st.lastGenerate && At(d, NextRefresh) == st.nextRefresh
            && At(d, Registration) == st.registration && At(d, ExpectedExpiryKey) == st.expectedExpiry
  {
    InstantsSurvive(st, LastGenerate);
    InstantsSurvive(st, NextRefresh);
    InstantsSurvive(st, Registration);
    InstantsSurvive(st, ExpectedExpiryKey);
  }

  lemma HealthFields(st: DaemonStatus)
    ensures var d := Encoded(st);
            && At(d, LastHealthCheck) == st.lastHealthCheck && At(d, LastHealthy) == st.lastHealthy
            && At(d, UnhealthySince) == st.unhealthySince && At(d, LastRecovery) == st.lastRecovery
  {
    InstantsSurvive(st, LastHealthCheck);
    InstantsSurvive(st, LastHealthy);
    InstantsSurvive(st, UnhealthySince);
    InstantsSurvive(st, LastRecovery);
  }

  lemma TextFields(st: DaemonStatus)
    ensures var d := Encoded(st);
            && TextAt(d, Region) == st.region && TextAt(d, LastForwardPort) == st.lastForwardPort
            && TextAt(d, LifetimeSource) == st.lifetimeSource
            && (TextAt(d, Mode) == "refresh" <==> st.refreshMode)
  {
    OthersSurvive(st, Region);
    OthersSurvive(st, Mode);
    OthersSurvive(st, LastForwardPort);
    OthersSurvive(st, LifetimeSource);
  }

  lemma TruthFields(st: DaemonStatus)
    ensures var d := Encoded(st);
            && TruthAt(d, PortForwarding) == st.portForwarding && TruthAt(d, TunnelHealthy) == st.tunnelHealthy
            && (PublicIPPresent in d <==> st.publicIPPresent.Some?)
            && (st.publicIPPresent.Some? ==> TruthAt(d, PublicIPPresent) == st.publicIPPresent.value)
  {
    OthersSurvive(st, PortForwarding);
    OthersSurvive(st, TunnelHealthy);
    OthersSurvive(st, PublicIPPresent);
  }

  lemma NumberFields(st: DaemonStatus)
    ensures var d := Encoded(st);
            && NumberAt(d, MeasuredLifetimeKey) == st.measuredLifetime && NumberAt(d, RecoveryCount) == st.recoveryCount
            && NumberAt(d, FailedAttempts) == st.failedAttempts
            && NumberAt(d, RegistrationAge) == if st.registration == ZERO_TIME then 0 else st.registrationAge
  {
    OthersSurvive(st, MeasuredLifetimeKey);
    OthersSurvive(st, RecoveryCount);
    OthersSurvive(st, FailedAttempts);
  }

  lemma NoteFields(st: DaemonStatus)
    ensures var d := Encoded(st);
            && TruthAt(d, ServerNameEnabled) == st.notes.serverName && TextAt(d, IPv6ModeKey) == st.notes.ipv6Mode
            && TextAt(d, LastError) == st.notes.lastError && TextAt(d, ControlStatus) == st.notes.controlStatus
  {
    OthersSurvive(st, ServerNameEnabled);
    OthersSurvive(st, IPv6ModeKey);
    OthersSurvive(st, LastError);
    OthersSurvive(st, ControlStatus);
  }

  /** Encoding and decoding gives the status back, except that the age is lost when
      no registration is known: it holds exactly when such an age is zero. */
  lemma RoundTripExactly(st: DaemonStatus)
    ensures Decoded(Encoded(st)) == st <==> (st.registration == ZERO_TIME ==> st.registrationAge == 0)
  {
    ScheduleFields(st);
    HealthFields(st);
    TextFields(st);
    TruthFields(st);
    NumberFields(st);
    NoteFields(st);
  }

  // ----- The status the refresh daemon writes -----

  function SourceName(e: Expiry): string {
    match e
    case Unknown => ""
    case Measured(_) => "measured"
    case Fallback(_) => "fallback"
  }

  function ExpiryTime(e: Expiry): Time {
    if e.Unknown? then ZERO_TIME else e.at
  }

  /** Whole seconds, truncated toward zero. */
  function Truncated(d: Duration): int {
    if d >= 0 then d / SECOND else -((-d) / SECOND)
  }

  /** What the daemon shows that its lifecycle does not depend on: the public IP of the last
      sample, its settings, and the texts of the last status and errors it met. */
  datatype Shown = Shown(publicIP: Option<bool>, serverName: bool, ipv6Mode: string, controlStatus: string,
                         regenError: string, healthError: string)

  /** rec is what could be read of the lifetime record: an empty one when nothing could. */
  function BuiltStatus(cfg: Config, s: State, rec: LifetimeRecord, region: string, now: Time,
                       shown: Shown): DaemonStatus
  {
    var expiry := ExpectedExpiry(rec, cfg.fallback, cfg.maxAge);
    DaemonStatus(
      true, region, "", cfg.portForwarding, s.schedule.lastGenerate, s.schedule.nextRefresh,
      rec.birth, if rec.birth == ZERO_TIME then 0 else Truncated(now - rec.birth),
      ExpiryTime(expiry), SourceName(expiry),
      if rec.observed == [] then 0 else Shortest(rec.observed),
      s.health.tunnelHealthy, shown.publicIP, s.health.lastCheck, s.health.lastHealthy,
      s.health.unhealthySince, s.recoveries.last, s.recoveries.count, s.policy.failures,
      Notes(shown.serverName, shown.ipv6Mode, if shown.regenError != "" then shown.regenError else shown.healthError,
            shown.controlStatus))
  }

  /** The region an earlier process left in its status, if any. */
  function PreviousRegion(file: Option<Document>): Option<string> {
    if file.None? || Trim(TextAt(file.value, Region)) == "" then None else Some(Trim(TextAt(file.value, Region)))
  }

  // ----- The health probe -----

  datatype Verdict =
    | Healthy | ConfigMissing | ConfigEmpty | StatusMissing | StatusStale | StatusUnreadable
    | NoOutageStart | DownTooLong | PastExpiry

  datatype Limits = Limits(maxStatusAge: Duration, maxUnhealthy: Duration, expiryGrace: Duration)

  /** A file: missing, present but not parsable, or holding a document. */
  datatype StatusFile = NoFile | Garbled(written: Time) | Holding(written: Time, document: Document)

  function Judge(st: DaemonStatus, limits: Limits, now: Time): Verdict {
    if !st.tunnelHealthy && st.unhealthySince == ZERO_TIME then NoOutageStart
    else if !st.tunnelHealthy && limits.maxUnhealthy > 0 && now - st.unhealthySince > limits.maxUnhealthy
    then DownTooLong
    else if st.expectedExpiry != ZERO_TIME && now - st.expectedExpiry > limits.expiryGrace then PastExpiry
    else Healthy
  }

  function EvaluateHealth(configSize: Option<nat>, file: StatusFile, limits: Limits, now: Time): Verdict {
    if configSize.None? then ConfigMissing
    else if configSize.value == 0 then ConfigEmpty
    else if file.NoFile? then StatusMissing
    else if limits.maxStatusAge > 0 && now - file.written > limits.maxStatusAge then StatusStale
    else if file.Garbled? then StatusUnreadable
    else Judge(Decoded(file.document), limits, now)
  }

  lemma FreshDocumentIsJudged(doc: Document, st: DaemonStatus, written: Time, size: nat, limits: Limits, now: Time)
    requires Decoded(doc) == st
    requires size > 0 && (limits.maxStatusAge > 0 ==> now - written <= limits.maxStatusAge)
    ensures EvaluateHealth(Some(size), Holding(written, doc), limits, now) == Judge(st, limits, now)
  {
  }

  /** A fresh file is judged as the status it was written from. */
  lemma FreshFileIsJudged(st: DaemonStatus, written: Time, size: nat, limits: Limits, now: Time)
    requires st.registration == ZERO_TIME ==> st.registrationAge == 0
    requires size > 0 && (limits.maxStatusAge > 0 ==> now - written <= limits.maxStatusAge)
    ensures EvaluateHealth(Some(size), Holding(written, Encoded(st)), limits, now) == Judge(st, limits, now)
  {
    RoundTripExactly(st);
    FreshDocumentIsJudged(Encoded(st), st, written, size, limits, now);
  }

  /** Which verdict every input gets: the first check that fails names it, in this order:
      a missing or empty configuration, a missing, stale or garbled status, an outage
      without a start, too long an outage, an expiry passed by more than the grace. */
  lemma VerdictExactly(configSize: Option<nat>, file: StatusFile, limits: Limits, now: Time)
    ensures var v := EvaluateHealth(configSize, file, limits, now);
            var configured := configSize.Some? && configSize.value > 0;
            var stale := !file.NoFile? && limits.maxStatusAge > 0 && now - file.written > limits.maxStatusAge;
            && (v == ConfigMissing <==> configSize.None?)
            && (v == ConfigEmpty <==> configSize == Some(0))
            && (v == StatusMissing <==> configured && file.NoFile?)
            && (v == StatusStale <==> configured && stale)
            && (v == StatusUnreadable <==> configured && file.Garbled? && !stale)
  {
  }

  /** And what a document that is read decides. */
  lemma DocumentDecides(size: nat, written: Time, doc: Document, limits: Limits, now: Time)
    requires size > 0 && (limits.maxStatusAge > 0 ==> now - written <= limits.maxStatusAge)
    ensures var v := EvaluateHealth(Some(size), Holding(written, doc), limits, now);
            var down, since := !TruthAt(doc, TunnelHealthy), At(doc, UnhealthySince);
            var expiry := At(doc, ExpectedExpiryKey);
            var tooLong := limits.maxUnhealthy > 0 && now - since > limits.maxUnhealthy;
            var past := expiry != ZERO_TIME && now - expiry > limits.expiryGrace;
            && (v == NoOutageStart <==> down && since == ZERO_TIME)
            && (v == DownTooLong <==> down && since != ZERO_TIME && tooLong)
            && (v == PastExpiry <==> past && (down ==> since != ZERO_TIME && !tooLong))
            && (v == Healthy <==> !past && (down ==> since != ZERO_TIME && !tooLong))
  {
  }

  /** A configuration is there, and the status is no older than a positive limit. */
  predicate InOrder(configSize: Option<nat>, written: Time, limits: Limits, now: Time) {
    && configSize.Some? && configSize.value > 0
    && (limits.maxStatusAge > 0 ==> now - written <= limits.maxStatusAge)
  }

  /** The start of the current outage, if there is one, is the recorded instant. */
  lemma OutageInstant(cfg: Config, m: Machine)
    requires Real(cfg, m) && AnySample(m.trace)
    ensures m.s.health.tunnelHealthy ==> forall i :: !Begins(m.trace, i)
    ensures !m.s.health.tunnelHealthy ==>
              && (exists i :: Begins(m.trace, i) && !m.trace[i].healthy)
              && forall i | Begins(m.trace, i) :: m.trace[i].at == m.s.health.unhealthySince
  {
    UnhealthySinceIsFirstOfSuffix(cfg, m);
    if !m.s.health.tunnelHealthy {
      var i :| Begins(m.trace, i) && !m.trace[i].healthy && m.trace[i].at == m.s.health.unhealthySince;
      forall j | Begins(m.trace, j)
        ensures j == i
      {
        assert !(j < i) && !(i < j);
      }
    }
  }

  /** The probe on an encoded status decides from the daemon's own fields. */
  lemma ProbeReadsTheState(cfg: Config, s: State, rec: LifetimeRecord, region: string, written: Time,
                           shown: Shown, configSize: Option<nat>, limits: Limits, now: Time)
    ensures var doc := Encoded(BuiltStatus(cfg, s, rec, region, written, shown));
            var expiry := ExpiryTime(ExpectedExpiry(rec, cfg.fallback, cfg.maxAge));
            var since := s.health.unhealthySince;
            EvaluateHealth(configSize, Holding(written, doc), limits, now).Healthy? <==>
            && InOrder(configSize, written, limits, now)
            && (s.health.tunnelHealthy ||
                (since != ZERO_TIME && (limits.maxUnhealthy > 0 ==> now - since <= limits.maxUnhealthy)))
            && (expiry == ZERO_TIME || now - expiry <= limits.expiryGrace)
  {
    var st := BuiltStatus(cfg, s, rec, region, written, shown);
    if InOrder(configSize, written, limits, now) {
      FreshFileIsJudged(st, written, configSize.value, limits, now);
    } else {
      VerdictExactly(configSize, Holding(written, Encoded(st)), limits, now);
    }
  }

  /** The probe against the run itself: for a file written from any run with a sample, the
      probe passes exactly when the configuration is there, the file is fresh enough, the
      current outage, if any, is within its limit counted from the first unhealthy
      sample, and the reported expiry is not passed by more than the grace. */
  lemma ProbeAgreesWithRun(cfg: Config, m: Machine, rec: LifetimeRecord, region: string, written: Time,
                           shown: Shown, configSize: Option<nat>, limits: Limits, now: Time)
    requires Real(cfg, m) && AnySample(m.trace)
    ensures var doc := Encoded(BuiltStatus(cfg, m.s, rec, region, written, shown));
            var expiry := ExpiryTime(ExpectedExpiry(rec, cfg.fallback, cfg.maxAge));
            EvaluateHealth(configSize, Holding(written, doc), limits, now).Healthy? <==>
            && InOrder(configSize, written, limits, now)
            && (limits.maxUnhealthy > 0 ==>
                  forall i | Begins(m.trace, i) && !m.trace[i].healthy :: now - m.trace[i].at <= limits.maxUnhealthy)
            && (expiry == ZERO_TIME || now - expiry <= limits.expiryGrace)
  {
    ProbeReadsTheState(cfg, m.s, rec, region, written, shown, configSize, limits, now);
    OutageInstant(cfg, m);
    UnhealthySinceIsFirstOfSuffix(cfg, m);
    if !m.s.health.tunnelHealthy {
      var i :| Begins(m.trace, i) && !m.trace[i].healthy;
      assert m.trace[i].at == m.s.health.unhealthySince;
    }
  }
}
