# A Dafny model of the self-recovering PIA WireGuard daemons

`refresh` keeps a gluetun tunnel alive: it samples the tunnel once a health interval, regenerates
the WireGuard configuration when the tunnel stays down or the registration grows old, restarts
gluetun onto the new configuration, hands the port-forwarding key to the `pf` daemon through a
file, measures how long registrations live, and tells the operator once per outage. This project
models those protocols and proves what they promise about whole runs.

## How the model is laid out

- `Common`, `Texts` hold shared vocabulary.
- `RefreshModel` describes the daemon as a machine of events: `Apply` is the effect of an event,
  `Enabled` the control flow's obligation, `Timely` the clock's. A run is `Lawful` when it follows
  the control flow and `Real` when, besides, its clock never ran backwards.
- `RefreshSpec` describes startup, a turn of the select loop, a regeneration with its retries and a
  single attempt as functions of the environment's answers; `RefreshLawful` proves that every run
  they produce is lawful, and `RefreshReal` that it is real when the environment's clock readings
  come in order. `RefreshRuntime.Runtime` is the imperative daemon: a class with the fields of
  `refreshRuntime`, its retry loop and its doubling loop. Each method is proved equal to its
  specification, and `RefreshRuntime.Live` carries this to a whole life of the daemon.
- `Attempts`, `Cooldown`, `Debounce`, `SilentEviction`, `Losses`, `Measurement`, `Generations`,
  `LostBirths`, `Mints`, `MintRate`, `Outages`, `OutageStart`, `ProactiveTimer`, `ArmedTimer`,
  `Adoption`, `StatusOfRun` prove the promises about every run. Their conclusions are stated on the
  trace of events and the files, by definitions that do not mention the daemon's counters and flags.
  `Scenarios` holds concrete lives of the daemon, from a fresh process and with the clock in order,
  in which a promise fails.
- `Lifetime`, `Cadence`, `Alerts`, `Dispatcher`, `Delivery`, `Sampling`, `Status`, `Gateway`,
  `Locks` model the components.
- `PortForwardDaemon` and `LegacyDaemon` model the two hand-overs through files; `TwoDaemons` puts the
  refresh daemon and the pf daemon side by side.
- `WgConfig`, `WgReadBack`, `CurlFooter`, `Redaction` model the text kernels with their inverses.

Instants and durations are integer nanoseconds; the zero instant stands for "not set". Every
sample, every step's outcome, every jitter draw and every clock reading is an arbitrary input.

## What the code does not promise

Where the code and its documentation or comments disagree the model follows the code, and states
exactly when the promise holds.

- "No more than 50% of the shortest lifetime, and never more often than every 30 minutes" (the
  repository's `README.md:500-502`), and "at most 50%" of a maximum registration age
  (`refresh.go:58`), are broken by the thirty-minute floor and by the jitter: with the default
  settings a two-hour lifetime can be refreshed after 74 minutes and a one-hour lifetime after 15.
  When each holds for every draw is proved exactly (`Cadence.HalfLifetimeExactly`,
  `Cadence.HalfHourExactly`, `Cadence.HalfMaxAgeExactly`, `Cadence.DefaultsPassHalf`,
  `Cadence.DefaultsPassTheFloor`).
- "Can only err on the safe, shorter side" (`refresh.go:576-579`) fails exactly when the attempt that
  last restarted gluetun could not save its birth and none was saved since: `regenerateOnce` carries
  on then (`LostBirths.LossOverstatesExactly`, `Scenarios.LostBirthOverstates`). `last_generate_utc`
  is later than the recorded birth in the like case (`LostBirths.AppliedNotAfterBirthExactly`,
  `Scenarios.LostBirthIsOvertaken`).
- The timer follows the reported next refresh when each applied registration reaches `rearm`
  within two health intervals. A slower restart leaves it behind
  (`ProactiveTimer.InStepExactly`, `Scenarios.SlowRestartLeavesTimerStale`).
- "A persistent fault costs at most ~2 registrations an hour" (`refresh.go:38-41`): the cooldown spaces
  applied reactive recoveries, not minted registrations. A recovery may mint up to six while the
  restart keeps failing, and one that is given up starts no cooldown, so only the pauses between
  attempts bound the rate (`Mints.AtMostSix`, `MintRate.AbandonedRate`,
  `MintRate.AbandonedRecoversAgain`, `Scenarios.TwoRecoveriesMintTwelve`).
- "A failure alert always precedes its recovered notice" (`alert.go:150-151`) holds exactly when no
  notice is accepted whose failure alert met a full queue, and the delivered alerts alternate exactly
  when an even number were refused before each accepted one (`Delivery.DeliveredExactly`,
  `Delivery.DroppedFailureOrphansItsNotice`, `Delivery.DroppedNoticeBreaksTheOrder`).
- A lease can outlive its registration, and a poll can end on a registration that was replaced while
  it acquired (`PortForwardDaemon.StaleAfterPollExactly`,
  `PortForwardDaemon.LeaseOutlivesItsRegistration`, `PortForwardDaemon.PollMovesToNewestRead`).
- Scrubbing removes a known secret from every text exactly when the secret overlaps the
  placeholder nowhere; otherwise the placeholder of another secret can spell it again
  (`Redaction.RemovedExactlyWhenClean`).
- A marshalled status loses the age of a registration whose birth is unset; the daemon never
  builds such a status with a non-zero age (`Status.RoundTripExactly`).

## Model

| member | source | states |
|---|---|---|
| Cooldown.NoRegistrationStorm | refresh.go:502-541 | in any run, between the end of one applied reactive recovery and the decision for the n-th after it, with no healthy sample between, at least the sum of the first n escalating cooldowns passes, whatever interleaves |
| Cooldown.CooldownIsPower | refresh.go:546-558 | the cooldown after i fruitless recoveries is min(base * 2^i, 30m), the base being 3m when none is configured |
| Cooldown.DefaultRate | refresh.go:543-558 | with the default cooldown n applied recoveries need at least n half hours less 75 minutes, and exactly that sum of cooldowns from the fourth on |
| Cooldown.IneffectiveExactly | refresh.go:563-568 | in every lawful run a recovery counts an earlier one as fruitless exactly when one was applied since the last healthy sample |
| Debounce.TickRecoversExactlyWhenDue | refresh.go:490-541 | a tick records its sample and starts a recovery exactly when the sample is unhealthy, the unhealthy samples since the last healthy one and the last applied recovery reach max(1, threshold), and the cooldown has elapsed; otherwise nothing else happens |
| Debounce.IsolatedBlipDoesNotRecover | refresh.go:498-520 | while the unhealthy samples, the tick's own included, stay below the threshold, a tick only records its sample, whatever else the run did before |
| SilentEviction.EvictionIsRecovered | pia/health.go:83-110 | from any lawful run at rest, as many turns as the threshold asks for with a readable but empty public IP decide a recovery under any flapping of the status, once the largest cooldown has passed since the last applied one |
| Measurement.LossMeasuresTheRecordedBirth | refresh.go:580-595 | every lifetime appended in any run is the whole seconds from the currently recorded birth to the last healthy sample, which came after that birth was recorded; the stored window then is the last twenty |
| Measurement.OnlyLossesAppend | pia/lifetime.go:93-111 | no other event of a run changes the observed lifetimes |
| Losses.LossRecordedExactly | refresh.go:535-595 | a due unhealthy tick records a loss, right after the accounting and before the first attempt, exactly when the store works, a healthy sample or an adoption came after the last applied recovery, and the last healthy sample is later than a recorded birth; what it records is the whole seconds between those two |
| Generations.NeverAheadOfTheHandOver | refresh.go:661-707 | with port forwarding, whatever fails: running <= pending <= config <= newest minted, and gluetun is only restarted onto the newest registration with its key already handed over |
| LostBirths.LossErrsShort | refresh.go:576-595 | a recorded lifetime is at most the time the running registration was known alive, unless the attempt that last restarted gluetun lost its birth and none was recorded since |
| LostBirths.LossOverstatesExactly | refresh.go:673-676 | with attempts that begin at least a second apart, a recorded lifetime exceeds that time exactly when that attempt lost its birth and none was recorded since |
| LostBirths.AppliedNotAfterBirthExactly | refresh.go:663-700 | with attempts that do not begin at the same instant, last_generate_utc is no later than the recorded birth exactly when the attempt last applied saved its birth, or one was saved or adopted since |
| LostBirths.AppliedNeverAfterRecordedBirth | refresh.go:663-700 | the half of this that holds however close the attempts are |
| Scenarios.LostBirthOverstates | refresh.go:673-676 | a life of the daemon, clock in order, in which one birth is not saved and 109 minutes are recorded for a registration known alive for ten |
| Scenarios.LostBirthIsOvertaken | refresh.go:673-700 | such a life in which last_generate_utc is later than the recorded birth |
| Mints.RegenerateMints | refresh.go:615-653 | one regeneration mints one registration for each attempt it reaches whose generation succeeds, and no other |
| Mints.AtMostSix | refresh.go:619-655 | so at most six, and six exactly when all six generate and none of the first five succeeds |
| Mints.MintsAreSpaced | refresh.go:645-649 | two registrations of one regeneration are at least the pauses between their attempts apart |
| Mints.BackoffIsPower | refresh.go:619-649 | the i-th pause is min(minimum * 2^i, maximum) for a minimum between zero and the maximum |
| MintRate.AbandonedRate | refresh.go:615-653 | n abandoned recoveries in a row mint at most six registrations each and take at least the six pauses each, and no cooldown begins |
| MintRate.AbandonedRecoversAgain | refresh.go:624-651 | after an abandoned recovery, with none applied before, the very next unhealthy tick recovers again |
| Scenarios.TwoRecoveriesMintTwelve | refresh.go:38-41 | a life of the daemon in which two recoveries within half an hour mint six registrations each because the restart keeps being refused |
| Outages.AlertsAreExact | refresh.go:563-610 | every event of every run sends exactly its alert: the failure alert with the alertAfter-th failed attempt since the last healthy sample, the recovered notice with the first healthy sample after it, carrying the exact count and duration |
| Outages.RunAlertsAlternate | alert.go:53-91 | over every run the alerts alternate failure, recovered, failure, and there are none when alerting is off |
| Delivery.DeliveredExactly | alert.go:131-194 | of the alerts of any run, what is delivered is a first part of what was accepted, and all of it after stop; the accepted ones alternate exactly when each comes after an even number of refused ones, and each notice directly follows its own failure alert exactly when no notice is accepted whose failure was refused |
| Delivery.AcceptedAlternatesExactly | alert.go:185-194 | that parity condition for any alternating offers |
| Delivery.NoticesFollowExactly | alert.go:150-151 | that condition on orphaned notices for any alternating offers |
| Delivery.DroppedFailureOrphansItsNotice | alert.go:150-151 | a history and a schedule in which a failure alert is dropped and its notice delivered, directly after the notice of the outage before |
| Delivery.DroppedNoticeBreaksTheOrder | alert.go:185-194 | a history and a schedule in which a dropped recovered notice lets two failure alerts be delivered in a row |
| OutageStart.UnhealthySinceIsFirstOfSuffix | refresh.go:447-463 | after any sample the tunnel is healthy iff no outage start is recorded, and the recorded start is the first sample of the current unbroken unhealthy run |
| ProactiveTimer.InStepExactly | refresh.go:370-390 | from the environment's answers: a tick that applies nothing keeps the timer in step, and one that does keeps it exactly when the reported time is the one set, or rearm reads a record whose birth is at most two health intervals old or whose reported time is within a minute of it |
| ProactiveTimer.InStepAfterSavedBirth | refresh.go:382-386 | when the applied attempt saved its birth and rearm reads it: exactly when rearm comes within two health intervals of the attempt's start, or the reported time is within a minute of it or is the one set |
| ProactiveTimer.TimerAlwaysInStep | refresh.go:311-328 | in every run whose applied registrations are saved and reach rearm within two health intervals, the timer equals the reported next refresh at every turn |
| ProactiveTimer.TicksMoveTimerAtMostOnce | refresh.go:370-390 | once a registration is older than two health intervals, any number of ticks that mint nothing moves the deadline at most once |
| ProactiveTimer.TimerBeatsMeasuredExpiry | refresh.go:341-366 | a timer set more than a minute before the measured expiry goes off before it, for lifetimes of an hour or more that cover the jitter |
| ArmedTimer.TimerExactly | refresh.go:341-366 | the timer and the reported time: from the birth by the wanted interval with its 30m floor, moved by the draw, and at least a minute ahead; from now while no birth is known; from now by the configured interval when the record cannot be read |
| ArmedTimer.ReportedExactly | refresh.go:699-703 | the time an applied attempt reports is that deadline for the record as it then is |
| ArmedTimer.PromisesExactly | refresh.go:341-366 | the three documented promises on the timer itself, over every draw: half the measured lifetime, half the maximum age, half an hour |
| Scenarios.SlowRestartLeavesTimerStale | refresh.go:382-386 | a life of the daemon in which a three-minute restart leaves the timer more than nine hours later than the reported next refresh |
| Adoption.StartUpAdoptsOrRegenerates | refresh.go:298-311 | startup either adopts, touching no file and not restarting gluetun, or begins with a regeneration; either way the timer equals the reported next refresh |
| Adoption.AdoptsExactly | refresh.go:396-419 | a starting daemon adopts exactly when it may, the configuration on disk names an endpoint, the status on disk its own region, the record is readable with a birth younger than the interval less a health interval, and the control server shows the tunnel alive |
| Adoption.AdoptedHasTimeLeft | refresh.go:391-411 | an adopted registration has more than a health interval left before its next refresh, and before its reported expiry unless that is within half an hour of its birth |
| Adoption.OwnFilesAreRecognised | refresh.go:396-408 | any generated configuration names an endpoint, and a status the daemon wrote names its region exactly when that is a trimmed non-empty text |
| RefreshLawful.RunsAreLawful | refresh.go:227-328 | every run of startup and any turns of the loop obeys the control flow, event by event |
| RefreshReal.RunsAreReal | refresh.go:227-328 | every run whose environment reads its clocks in order is a real one, so the theorems about real runs hold of it |
| RefreshLawful.AttemptIsItsEvents | refresh.go:661-707 | the closed form of what an attempt leaves behind, wherever it fails, equals its events applied one by one |
| Attempts.AttemptExactly | refresh.go:661-707 | which events an attempt leaves for every answer of the environment; it is applied exactly when generation, config write, hand-over (with port forwarding) and restart (with a container) all work, whether or not its birth is saved |
| Attempts.RegenerationExactly | refresh.go:615-653 | a regeneration begins with its first attempt, and a reactive one ends as applied exactly when one of six attempts works |
| Attempts.RecoveryOutcome | refresh.go:624-651 | a tick that recovers counts its recovery as applied, from the decision to the end, exactly when one of six attempts works |
| Attempts.ProactiveTurn | refresh.go:316-327 | when the timer goes off the daemon regenerates from the first attempt on and arms the timer anew, leaving the cooldown and the health record as they were |
| RefreshRuntime.Live | refresh.go:227-328 | a whole life of the imperative daemon is the specified run, and lawful; the texts it would show are those of the last sample and the last regeneration |
| RefreshRuntime.Runtime.Observe | refresh.go:436-486 | one sample folded into the state, the policy and the alerts |
| RefreshRuntime.Runtime.OnHealthTick | refresh.go:490-541 | a tick on whatever the control server answers is the specified tick |
| RefreshRuntime.Runtime.EffectiveCooldown | refresh.go:546-558 | the doubling loop computes the capped power of the base |
| RefreshRuntime.Runtime.AccountForPreviousRecovery | refresh.go:563-574 | a fruitless recovery is counted, and reported to the policy once |
| RefreshRuntime.Runtime.RecordLossIfMeasurable | refresh.go:580-595 | a loss is stored exactly when the registration was confirmed healthy and its age is positive |
| RefreshRuntime.Runtime.NoteFailedAttempt | refresh.go:599-610 | the policy advances and the failure alert is offered exactly when it is due |
| RefreshRuntime.Runtime.RegenerateWithBackoff | refresh.go:615-653 | at most six attempts up to the first success, with the capped doubling pause after each failure; the error shown is that of the last attempt, and none after a success |
| RefreshRuntime.Runtime.RegenerateOnce | refresh.go:661-707 | the state after an attempt, wherever it fails, and success exactly when every step succeeded |
| RefreshRuntime.Runtime.NextProactiveDelay | refresh.go:341-355 | the delay until the due time, measured from the birth when one is recorded and never under a minute then |
| RefreshRuntime.Runtime.RearmTimer | refresh.go:370-390 | when the timer is reset after a tick and when it is left alone |
| RefreshRuntime.Runtime.TryAdopt | refresh.go:396-432 | the registration is adopted exactly when the configuration on disk names an endpoint, the status on disk the same region, and the record, its age and the sample allow |
| RefreshRuntime.Runtime.BuildStatus | refresh.go:714-760 | every field of the status from the daemon's own state and what could be read of the record; a regeneration error hides a health error |
| RefreshRuntime.TurnShownExactly | refresh.go:436-468 | what a turn leaves to be shown: the status, public IP and error of a tick's sample; no regeneration error when an attempt works, the sixth's when none does, the earlier one when nothing is regenerated |
| Lifetime.WindowIsLastTwenty | pia/lifetime.go:78-123 | after any births and losses the stored window is the last twenty ages ever appended, and the measured lifetime their minimum |
| Lifetime.IntervalWithinExpiry | pia/lifetime.go:155-204 | the interval is at least 30m and at most max(30m, reported expiry - birth) and max(30m, half the cap) |
| Lifetime.ExpiryExactly | pia/lifetime.go:155-172 | the reported expiry is the birth plus the least stored age, or plus the configured lifetime, capped; unknown exactly when the birth is unset or nothing positive is stored or configured |
| Lifetime.HalfLifetimeExactlyFromOneHour | pia/lifetime.go:179-204 | the interval before jitter is at most half the measured lifetime exactly when that lifetime is at least one hour |
| Cadence.HalfLifetimeExactly | refresh.go:341-355 | a timer set at the birth goes off within half the measured lifetime for every draw exactly when max(30m, half the capped lifetime) plus the latest draw fits it; without a lower maximum age, exactly for lifetimes of an hour or more with at most two nanoseconds of jitter |
| Cadence.HalfMaxAgeExactly | refresh.go:56-60 | it goes off within half the maximum age for every draw exactly when that half leaves room for the floor and the jitter, and what is wanted for the jitter; for a lifetime at least that long, exactly for a maximum of an hour or more with at most two nanoseconds of jitter |
| Cadence.HalfHourExactly | pia/lifetime.go:179-204 | it leaves at least 30m for every draw exactly when there is at most one nanosecond of jitter, or half the capped lifetime (or the configured interval) exceeds 30m by half the jitter |
| Cadence.DefaultsPassHalf | main.go:1187-1200 | with the default jitter a two-hour lifetime can be refreshed after 74 minutes |
| Cadence.DefaultsPassTheFloor | main.go:1187-1200 | with the default jitter a one-hour lifetime can be refreshed after 15 minutes |
| Lifetime.HalfLifetimeFailsBelowOneHour | pia/lifetime.go:179-204 | a lifetime of 40 minutes is refreshed later than at its half |
| Lifetime.DueBeforeMeasuredExpiry | refresh.go:341-355 | the due time precedes the measured expiry for every draw, for lifetimes of an hour or more that cover the jitter |
| Lifetime.DueWithinGrace | healthcheck.go:101-115 | with at most an hour of jitter the due time lies within the default one-hour grace after the reported expiry |
| Lifetime.JitterBelowHalf | main.go:1187-1200 | a jitter offset lies between minus half the range and less than half the range, rounded up |
| Lifetime.LifetimeStore.RecordNewRegistration | pia/lifetime.go:78-89 | a new birth replaces the old one and keeps the ages, unless loading or saving fails |
| Lifetime.LifetimeStore.RecordObservedLoss | pia/lifetime.go:93-111 | a positive age is appended to the window of twenty, unless loading or saving fails |
| Alerts.ExactAlerts | alert.go:53-91 | over any history the failure alert comes with exactly the threshold-th failed attempt, the notice with the exact count and duration of the outage |
| Alerts.AlertsAlternate | alert.go:53-91 | over any history the alerts alternate, and none is sent for a threshold of zero or less |
| Alerts.PolicyCountsTheOutage | alert.go:39-91 | the policy's counters are those of the failed attempts since the last healthy sample |
| Alerts.OutagePolicy.Failed | alert.go:53-70 | the new policy and whether the failure alert fires |
| Alerts.OutagePolicy.Healthy | alert.go:74-91 | the policy is reset and the outage reported exactly when it was alerted |
| Dispatcher.NothingAcceptedIsLost | alert.go:152-194 | in every interleaving delivered + in flight + queued are the accepted events in order, the queue holds at most eight, and every send is offered |
| Dispatcher.OnlyFullQueueDrops | alert.go:185-194 | a send is always possible and its event is refused exactly when eight are queued |
| Dispatcher.StopDeliversEverything | alert.go:152-180 | after stop with no later sends, the worker exits having delivered exactly what was accepted |
| Dispatcher.NothingDeliveredAfterExit | alert.go:160-168 | once the worker has exited nothing more is delivered |
| Dispatcher.AlertDispatcher.Send | alert.go:185-194 | the event is queued, or dropped when the queue is full |
| Dispatcher.AlertDispatcher.Work | alert.go:152-173 | one delivery, or the exit of the worker |
| Locks.CallsAreDisciplined | refresh.go:615-653 | every call acquires flightMu first and holding nothing, never nests stateMu and the policy lock, and releases what it took |
| Locks.SingleFlight | refresh.go:150-157 | in every interleaving of any number of calls at most one goroutine is inside regenerateOnce, none waits for flightMu holding a lock, and the other two locks are never nested |
| Locks.NeverDeadlocked | refresh.go:150-157 | no reachable state is deadlocked |
| Sampling.CheckTunnel | pia/health.go:70-113 | healthy exactly when the first usable status is "running" and the public IP is not known to be empty, with the rest of the sample |
| Sampling.FirstStatusDecides | pia/health.go:70-113 | a readable modern status decides whatever the legacy path answers, the legacy one when there is no modern one, and none is never healthy |
| Status.MarshalJSON | main.go:607-639 | deleting the zero times and the meaningless age leaves exactly the encoded document |
| Status.RoundTripExactly | main.go:569-639 | encoding and decoding gives a status back exactly when an unset birth goes with a zero age |
| Status.FreshFileIsJudged | healthcheck.go:74-117 | a fresh file is judged as the status it was written from |
| Status.VerdictExactly | healthcheck.go:74-97 | for every configuration file and status file: which check before the document fails, a missing or empty configuration, a missing, stale or garbled status |
| Status.DocumentDecides | healthcheck.go:99-117 | which verdict a document that is read gets, and that it passes exactly within the limits |
| Status.ProbeReadsTheState | healthcheck.go:74-117 | the probe passes iff the configuration is there, the file is fresh enough, and the daemon's own outage and expiry are within their limits |
| Status.ProbeAgreesWithRun | refresh.go:714-760 | the probe of a file from any run passes iff the configuration is there, the file is fresh enough, and the current outage, counted from its first unhealthy sample, and the reported expiry are within their limits |
| Status.KeysExactly | main.go:607-639 | which keys an encoded status has: an instant exactly when it is set, the age exactly when a birth is, and a legacy status its two schedule keys always |
| StatusOfRun.StatusTellsTheRun | refresh.go:714-760 | the status of a run tells its last sample and last healthy sample, the end and number of its applied recoveries, its failed attempts since the last healthy sample, when the running configuration was applied, and the recorded birth with its age in whole seconds |
| StatusOfRun.StatusTellsTheExpiry | refresh.go:714-750 | the lifetime shown is the least stored, and the source of the expiry says whether one is |
| StatusOfRun.StatusTellsTheError | refresh.go:753-758 | the error shown is that of the last regeneration, or else that of the last sample |
| Gateway.WaitForGateway | main.go:1028-1061 | terminates with at most ceil(timeout/interval) probes, with exactly one when there is no timeout, and never sleeps to or past the deadline |
| PortForwardDaemon.LeaseIsOfTheActiveRegistration | pf_daemon.go:68-130 | in every interleaving, hand-overs during an acquisition included: the active registration was written by refresh, each is acquired once, the renewed lease is the triple of its acquisition, the hook ran exactly for changed ports, and the file, the last port and the lease agree after a saved acquisition |
| PortForwardDaemon.ActiveMovesForward | pf_daemon.go:85-92 | within a process the active registration never moves back |
| PortForwardDaemon.PollMovesToNewestRead | pf_daemon.go:74-126 | a poll that acquires makes active the newest registration written when it read the file, which is still the one in the file exactly when none was handed over meanwhile |
| PortForwardDaemon.StaleAfterPollExactly | pf_daemon.go:99-116 | a poll leaves a stale lease stale exactly when the file cannot be read, the client cannot be set up, or the acquisition succeeds while another registration is handed over |
| PortForwardDaemon.LeaseOutlivesItsRegistration | pf_daemon.go:99-105 | a run from nothing in which the renewal loop goes on binding for the first registration while a second waits |
| TwoDaemons.PfNeverAheadOfRefresh | pf_daemon.go:85-126 | in every interleaving of both daemons, what pf works for was handed over, and is no later than the pending file, which is no later than the configuration |
| PortForwardDaemon.Daemon.BeginPoll | pf_daemon.go:73-105 | what a poll takes up to acquire, and when it takes up nothing |
| PortForwardDaemon.Daemon.FinishPoll | pf_daemon.go:107-130 | the effect of the end of an acquisition on the lease, the files and the process |
| PortForwardDaemon.Daemon.PollLoop | pf_daemon.go:68-130 | any number of polls that refresh does not interfere with |
| PortForwardDaemon.Daemon.RenewOnce | main.go:1073-1097 | what the renewal loop binds is the enabled lease |
| LegacyDaemon.PendingIsKeptUntilBound | main.go:799-851 | across any exits and restarts the pending key is that of the config on disk; while it waits nothing is generated; it goes away only in a turn that bound that key and wrote forwarded_port |
| LegacyDaemon.PendingWritesAreSeparatedByABind | main.go:858-905 | two pending writes are always separated by a successful bind for the first, before anything is generated again |
| LegacyDaemon.PendingIsLeftProperly | main.go:884-905 | in every run each pending write comes directly after its configuration was written and gluetun restarted onto it, and directly before the process exits; it exits nowhere else |
| LegacyDaemon.ExitsExactly | main.go:779-905 | a turn exits exactly when every step up to the pending write works, with port forwarding and a container to restart |
| LegacyDaemon.WritingTurnExactly | main.go:866-958 | a turn that writes a configuration: when the pending file changes, when the lease is disabled, renewed or left, and when the port is |
| LegacyDaemon.BindingTurnExactly | main.go:807-851 | a turn that binds a waiting key: the lease, the port and the pending file after every outcome |
| LegacyDaemon.IdleTurnExactly | main.go:779-871 | every other turn leaves everything but a key minted and not written |
| LegacyDaemon.Daemon.Iterate | main.go:779-970 | one turn of the loop, and whether the process exits |
| LegacyDaemon.Daemon.ResumePending | main.go:807-851 | binding a key left by an earlier process |
| LegacyDaemon.Daemon.RefreshOnce | main.go:853-970 | a regeneration, up to the exit or the direct bind |
| Redaction.ScrubKnown | pia/redact.go:38-50 | the loop over the known secrets is the fold of leftmost replacements |
| Redaction.PiecesStay | pia/redact.go:43-50 | a replacement keeps every piece between the occurrences as it stands |
| Redaction.PiecesAreFree | pia/redact.go:43-50 | no such piece holds the secret, so every occurrence not cut by one before it is replaced |
| Redaction.OneMoreSecret | pia/redact.go:43-50 | a secret of four characters or more is replaced, a shorter one leaves the text alone |
| Redaction.CleanSecretsAreGone | pia/redact.go:38-50 | for every text and list, a clean secret of trimmed length four or more does not occur in the result |
| Redaction.PlainSecretsAreClean | pia/redact.go:38-50 | a secret without angle brackets that is no part of "redacted" is clean |
| Redaction.RemovedExactlyWhenClean | pia/redact.go:38-50 | a secret is removed from every text alongside every other secret exactly when it overlaps the placeholder nowhere |
| Redaction.UncleanSecretsCanRemain | pia/redact.go:38-50 | for every other secret, a text and a second secret after whose scrubbing it occurs |
| WgConfig.EndpointRoundTrip | pia/wg.go:149-228 | a config is generated iff port, address and DNS are given; the endpoint read back is the address less leading space, a colon and the port, for every IPv6 mode and server name |
| WgConfig.ExactUnlessLeadingSpace | pia/health.go:160-175 | the endpoint read back is exactly ServerIP:ServerPort iff the address has no leading space |
| WgReadBack.SettingsReadBack | pia/wg.go:186-228 | private key, address, DNS, public key and routes read back from any generated configuration are those that went in |
| WgReadBack.HooksReadBack | pia/wg.go:174-184 | the firewall hooks are there exactly in kill mode, up with the rule and down with its deletion |
| WgReadBack.TailReadsBack | pia/wg.go:221-228 | the keepalive is 25 and the server's name is there as a comment when it is known |
| WgReadBack.ReasonExactly | pia/wg.go:161-170 | which error each incomplete input gets |
| WgReadBack.ParseWithoutEndpoint | pia/health.go:160-175 | a missing file is an error, a file without an endpoint line the empty answer |
| WgReadBack.EndpointInAnyCase | pia/health.go:165-171 | the key of the endpoint is known in any case of its letters |
| Texts.DigitsSpell | pia/wg.go:223-223 | the port is spelled in decimal without leading zeros |
| CurlFooter.FooterRoundTrip | pia/token_fetcher.go:179-211 | for every body, even one that holds the marker, splitting body and footer gives the body without final newlines and the three trimmed values; the whole body exactly when it does not end in a newline |
| CurlFooter.SplitExactly | pia/token_fetcher.go:186-202 | output without a footer is all body with three empty values; with one, the body is what comes before the last marker, less its final newlines |

## Left out

- HTTP, TLS, DNS, the curl process, the Docker API and hook processes: each is an arbitrary success or failure input. A failed restart may or may not have restarted gluetun.
- Files and JSON text: a file is an atomically replaced optional value and `status.json` a key/value map; renames are taken as atomic and instants as faithful.
- gluetun restarting by itself, clocks running backwards, and flags changed between process runs are excluded.
- Logging, and what the text of an error says: each text is an arbitrary input.
- RefreshRuntime.Runtime.NextProactiveDelay: readings of the clock a few statements apart (arming, the reset of the timer) are one reading; int64 overflow is not modelled.
- Lifetime.HalfLifetimeExactlyFromOneHour: floating-point halving is integer halving, which agrees for durations below 2^53 nanoseconds.
- Lifetime.JitterBelowHalf: the random draw is an arbitrary number in its range.
- Cooldown.DefaultRate: counts applied recoveries, not minted registrations; those are bounded in Mints and MintRate.
- Locks.SingleFlight: the locks and the calls under them, not the data they guard; the alert queue has its own model in Dispatcher.
- Status.RoundTripExactly: the public-IP field is a flag, the mode refresh or none, and times are instants.
- Sampling.CheckTunnel: case folding is that of ASCII letters, which is all that an equality with "running" can see.
- Redaction.ScrubKnown: the known-secret stage only; the pattern stages need a regular-expression engine. Lengths are counted in characters, which are the bytes of ASCII secrets.
- PortForwardDaemon.LeaseIsOfTheActiveRegistration: the end of an acquisition (the file, the hook, the lease, the active registration) is one step; a failed write of forwarded_port leaves the older port, as in the code.
- Mints.RegenerateMints: a registration the provider made although the generation then failed is not counted.
- WgConfig.EndpointRoundTrip: the lower-casing of letters outside ASCII is modelled for the dotted capital I only, the one that yields a letter of "endpoint".
- CurlFooter.FooterRoundTrip: the parsing of the token in the body and the attempts over several curl binaries.
- Region resolution, server-list filtering, the token cache, gateway normalisation, Docker endpoint parsing, key generation, the command line, shell scripts and compose files: they would add only easy members.
