/** How long a registration survives: the persisted record, the conservative
    estimate drawn from it, and the refresh cadence derived from the estimate. */
module Lifetime {
  import opened Common

  const MAX_OBSERVED := 20
  const MIN_REFRESH: Duration := 30 * MINUTE

  /** observed holds whole seconds, newest last. */
  datatype LifetimeRecord = LifetimeRecord(birth: Time, observed: seq<int>, lastLoss: Time)

  const EMPTY_RECORD := LifetimeRecord(ZERO_TIME, [], ZERO_TIME)

  function RegistrationAge(birth: Time, now: Time): Option<Duration> {
    if birth == ZERO_TIME then None else Some(now - birth)
  }

  function Shortest(xs: seq<int>): (m: int)
    requires xs != []
    ensures m in xs
    ensures forall x | x in xs :: m <= x
  {
    if |xs| == 1 then xs[0]
    else
      assert xs == [xs[0]] + xs[1..];
      Min(xs[0], Shortest(xs[1..]))
  }

  function MeasuredLifetime(r: LifetimeRecord): Option<Duration> {
    if r.observed == [] then None else Some(Shortest(r.observed) * SECOND)
  }

  /** Halving that truncates toward zero. */
  function Half(d: Duration): Duration {
    if d >= 0 then d / 2 else -((-d) / 2)
  }

  datatype Expiry = Unknown | Measured(at: Time) | Fallback(at: Time)

  /** The fallback lifetime, capped by the operator's maximum age when there is one. */
  function FallbackLifetime(fallback: Duration, maxAge: Duration): Duration {
    if maxAge > 0 && (fallback <= 0 || maxAge < fallback) then maxAge else fallback
  }

  function ExpectedExpiry(r: LifetimeRecord, fallback: Duration, maxAge: Duration): Expiry {
    if r.birth == ZERO_TIME then Unknown
    else match MeasuredLifetime(r)
      case Some(life) => Measured(r.birth + life)
      case None =>
        var life := FallbackLifetime(fallback, maxAge);
        if life <= 0 then Unknown else Fallback(r.birth + life)
  }

  function SafeRefreshInterval(r: LifetimeRecord, configured: Duration, maxAge: Duration): Duration {
    var learned := match MeasuredLifetime(r)
      case Some(life) => Max(Half(life), MIN_REFRESH)
      case None => configured;
    var capped := if maxAge > 0 then Min(learned, Max(Half(maxAge), MIN_REFRESH)) else learned;
    Max(capped, MIN_REFRESH)
  }

  /** draw is the random number below jitterMax, or None when no randomness was available. */
  function ApplyJitter(interval: Duration, jitterMax: Duration, draw: Option<nat>): Duration {
    if jitterMax <= 0 || draw.None? then interval else interval + draw.value - jitterMax / 2
  }

  predicate DrawOk(jitterMax: Duration, draw: Option<nat>) {
    jitterMax > 0 && draw.Some? ==> draw.value < jitterMax
  }

  /** When a timer set at `at` for the current registration goes off. */
  function DueTime(r: LifetimeRecord, fallback: Duration, maxAge: Duration, jitterMax: Duration,
                   at: Time, draw: Option<nat>): Time
  {
    var interval := ApplyJitter(SafeRefreshInterval(r, fallback, maxAge), jitterMax, draw);
    if r.birth == ZERO_TIME then at + interval else at + Max(r.birth + interval - at, MINUTE)
  }

  // ----- The persisted record -----

  function WithBirth(r: LifetimeRecord, now: Time): LifetimeRecord {
    r.(birth := now)
  }

  /** The loss is ignored when the birth is unknown or the age is not positive. */
  predicate Measurable(r: LifetimeRecord, now: Time) {
    r.birth != ZERO_TIME && now - r.birth > 0
  }

  function WholeSeconds(d: Duration): int
    requires d >= 0
  {
    d / SECOND
  }

  function WithLoss(r: LifetimeRecord, now: Time): LifetimeRecord
    requires Measurable(r, now)
  {
    LifetimeRecord(r.birth, LastN(r.observed + [WholeSeconds(now - r.birth)], MAX_OBSERVED), now)
  }

  datatype StoreIO = LoadFails | SaveFails | StoreOk

  /** A file whose content does not parse counts as a fresh record. */
  datatype Contents = Missing | Corrupt | Stored(record: LifetimeRecord)

  class LifetimeStore {
    var file: Contents

    constructor (file: Contents)
      ensures this.file == file
    {
      this.file := file;
    }

    function Record(): LifetimeRecord
      reads this
    {
      if file.Stored? then file.record else EMPTY_RECORD
    }

    method Load(readable: bool) returns (r: Option<LifetimeRecord>)
      ensures r == if readable then Some(Record()) else None
    {
      if !readable {
        return None;
      }
      match file
      case Missing => r := Some(EMPTY_RECORD);
      case Corrupt => r := Some(EMPTY_RECORD);
      case Stored(record) => r := Some(record);
    }

    method RecordNewRegistration(now: Time, io: StoreIO) returns (saved: bool)
      modifies this
      ensures saved == io.StoreOk?
      ensures Record() == if saved then WithBirth(old(Record()), now) else old(Record())
    {
      var loaded := Load(!io.LoadFails?);
      if loaded.None? {
        return false;
      }
      var rec := loaded.value;
      rec := rec.(birth := now);
      if io.SaveFails? {
        return false;
      }
      file := Stored(rec);
      saved := true;
    }

    method RecordObservedLoss(now: Time, io: StoreIO) returns (appended: Option<int>)
      modifies this
      ensures appended.Some? <==> io.StoreOk? && Measurable(old(Record()), now)
      ensures appended.Some? ==> appended.value == WholeSeconds(now - old(Record()).birth)
      ensures Record() == if appended.Some? then WithLoss(old(Record()), now) else old(Record())
    {
      var loaded := Load(!io.LoadFails?);
      if loaded.None? {
        return None;
      }
      var rec := loaded.value;
      var age := RegistrationAge(rec.birth, now);
      if age.None? || age.value <= 0 {
        return None;
      }
      var seconds := WholeSeconds(age.value);
      rec := rec.(observed := rec.observed + [seconds]);
      if |rec.observed| > MAX_OBSERVED {
        rec := rec.(observed := rec.observed[|rec.observed| - MAX_OBSERVED..]);
      }
      rec := rec.(lastLoss := now);
      if io.SaveFails? {
        return None;
      }
      file := Stored(rec);
      appended := Some(seconds);
    }
  }

  // ----- Any history of births and losses -----

  datatype StoreOp = Birth(at: Time) | Loss(at: Time)

  /** The record that a fresh store holds after the given operations. */
  function RecordAfter(ops: seq<StoreOp>): LifetimeRecord {
    if ops == [] then EMPTY_RECORD
    else
      var r := RecordAfter(ops[..|ops| - 1]);
      match ops[|ops| - 1]
      case Birth(at) => WithBirth(r, at)
      case Loss(at) => if Measurable(r, at) then WithLoss(r, at) else r
  }

  function LastBirth(ops: seq<StoreOp>): Time {
    if ops == [] then ZERO_TIME
    else match ops[|ops| - 1]
      case Birth(at) => at
      case Loss(_) => LastBirth(ops[..|ops| - 1])
  }

  /** Every age ever appended, oldest first, counted from the births alone. */
  function AgesAppended(ops: seq<StoreOp>): seq<int> {
    if ops == [] then []
    else
      var before := ops[..|ops| - 1];
      match ops[|ops| - 1]
      case Birth(_) => AgesAppended(before)
      case Loss(at) =>
        if LastBirth(before) != ZERO_TIME && at > LastBirth(before)
        then AgesAppended(before) + [(at - LastBirth(before)) / SECOND]
        else AgesAppended(before)
  }

  lemma LastNOfAppend<T>(xs: seq<T>, x: T, n: nat)
    requires n > 0
    ensures LastN(LastN(xs, n) + [x], n) == LastN(xs + [x], n)
  {
    if |xs| > n {
      assert (LastN(xs, n) + [x])[1..] == (xs + [x])[|xs| + 1 - n..];
    }
  }

  lemma MeasuredIsLeast(r: LifetimeRecord)
    ensures MeasuredLifetime(r).Some? <==> r.observed != []
    ensures forall a | a in r.observed :: MeasuredLifetime(r).value <= a * SECOND
    ensures r.observed != [] ==> exists a | a in r.observed :: MeasuredLifetime(r) == Some(a * SECOND)
  {
    if r.observed != [] {
      assert Shortest(r.observed) in r.observed;
    }
  }

  lemma {:induction false} WindowFollowsHistory(ops: seq<StoreOp>)
    ensures RecordAfter(ops).birth == LastBirth(ops)
    ensures RecordAfter(ops).observed == LastN(AgesAppended(ops), MAX_OBSERVED)
    ensures forall a | a in AgesAppended(ops) :: a >= 0
  {
    if ops != [] {
      var before, last := ops[..|ops| - 1], ops[|ops| - 1];
      WindowFollowsHistory(before);
      if last.Loss? && Measurable(RecordAfter(before), last.at) {
        LastNOfAppend(AgesAppended(before), (last.at - LastBirth(before)) / SECOND, MAX_OBSERVED);
      }
    }
  }

  /** The stored window is the last twenty ages ever appended, and the measured
      lifetime is the least of them. */
  lemma {:induction false} WindowIsLastTwenty(ops: seq<StoreOp>)
    ensures RecordAfter(ops).birth == LastBirth(ops)
    ensures RecordAfter(ops).observed == LastN(AgesAppended(ops), 20)
    ensures forall a | a in AgesAppended(ops) :: a >= 0
    ensures MeasuredLifetime(RecordAfter(ops)).Some? <==> AgesAppended(ops) != []
    ensures forall a | a in LastN(AgesAppended(ops), 20) ::
              MeasuredLifetime(RecordAfter(ops)).value <= a * SECOND
    ensures AgesAppended(ops) != [] ==>
              exists a | a in LastN(AgesAppended(ops), 20) ::
                MeasuredLifetime(RecordAfter(ops)) == Some(a * SECOND)
  {
    WindowFollowsHistory(ops);
    MeasuredIsLeast(RecordAfter(ops));
  }

  /** Every record with no negative age; WindowIsLastTwenty shows all reached records are such. */
  ghost predicate Sound(r: LifetimeRecord) {
    forall a | a in r.observed :: a >= 0
  }

  // ----- The cadence against the expiry -----

  /** The expiry that is reported: the birth plus the least stored age, or while there is
      none plus the configured lifetime, capped; and unknown exactly when the birth is
      unset, or no age is stored and no positive lifetime is configured. */
  lemma ExpiryExactly(r: LifetimeRecord, fallback: Duration, maxAge: Duration)
    ensures var e := ExpectedExpiry(r, fallback, maxAge);
            && (e.Unknown? <==> r.birth == ZERO_TIME || (r.observed == [] && fallback <= 0 && maxAge <= 0))
            && (e.Measured? <==> r.birth != ZERO_TIME && r.observed != [])
            && (e.Measured? ==>
                  && (exists a | a in r.observed :: e.at == r.birth + a * SECOND)
                  && forall a | a in r.observed :: e.at <= r.birth + a * SECOND)
            && (e.Fallback? ==>
                  e.at == r.birth + (if fallback > 0 && maxAge > 0 then Min(fallback, maxAge)
                                     else if maxAge > 0 then maxAge else fallback))
  {
    MeasuredIsLeast(r);
    if r.observed != [] {
      assert Shortest(r.observed) in r.observed;
    }
  }

  /** The cadence has a floor, and never outlasts the expiry that is reported
      unless that expiry lies below the floor. */
  lemma IntervalWithinExpiry(r: LifetimeRecord, fallback: Duration, maxAge: Duration)
    requires Sound(r)
    ensures SafeRefreshInterval(r, fallback, maxAge) >= MIN_REFRESH
    ensures var e := ExpectedExpiry(r, fallback, maxAge);
            !e.Unknown? ==> SafeRefreshInterval(r, fallback, maxAge) <= Max(MIN_REFRESH, e.at - r.birth)
    ensures maxAge > 0 ==> SafeRefreshInterval(r, fallback, maxAge) <= Max(MIN_REFRESH, maxAge / 2)
  {
    if r.observed != [] {
      assert Shortest(r.observed) >= 0;
    }
  }

  /** "At most half the measured lifetime" fails for short lifetimes, because of
      the thirty-minute floor: it holds exactly from one hour up. */
  lemma HalfLifetimeExactlyFromOneHour(r: LifetimeRecord, fallback: Duration, maxAge: Duration)
    requires Sound(r) && MeasuredLifetime(r).Some?
    ensures SafeRefreshInterval(r, fallback, maxAge) <= Half(MeasuredLifetime(r).value)
            <==> MeasuredLifetime(r).value >= HOUR
  {
    assert Shortest(r.observed) >= 0;
  }

  lemma HalfLifetimeFailsBelowOneHour()
    ensures var r := LifetimeRecord(HOUR, [2400], HOUR);
            MeasuredLifetime(r) == Some(40 * MINUTE) && SafeRefreshInterval(r, 12 * HOUR, 0) > 20 * MINUTE
  {
    assert Shortest([2400]) == 2400;
  }

  lemma EvenNanoseconds(seconds: int)
    ensures (seconds * SECOND) % 2 == 0
  {
  }

  /** A jitter offset is below half the range, rounded up. */
  lemma JitterBelowHalf(jitterMax: Duration, draw: Option<nat>)
    requires DrawOk(jitterMax, draw)
    ensures forall interval :: ApplyJitter(interval, jitterMax, draw) - interval < Max(1, (jitterMax + 1) / 2)
    ensures forall interval :: jitterMax > 0 ==> ApplyJitter(interval, jitterMax, draw) - interval >= -(jitterMax / 2)
  {
  }

  /** A timer set while more than a minute remains goes off before the measured
      expiry, whatever the jitter draw, when the lifetime is at least an hour and
      covers the jitter range. */
  lemma DueBeforeMeasuredExpiry(r: LifetimeRecord, fallback: Duration, maxAge: Duration,
                                jitterMax: Duration, at: Time, draw: Option<nat>)
    requires Sound(r) && r.birth != ZERO_TIME && MeasuredLifetime(r).Some? && DrawOk(jitterMax, draw)
    requires MeasuredLifetime(r).value >= HOUR && jitterMax <= MeasuredLifetime(r).value
    requires at + MINUTE < ExpectedExpiry(r, fallback, maxAge).at
    ensures DueTime(r, fallback, maxAge, jitterMax, at, draw) < ExpectedExpiry(r, fallback, maxAge).at
  {
    var life := MeasuredLifetime(r).value;
    EvenNanoseconds(Shortest(r.observed));
    HalfLifetimeExactlyFromOneHour(r, fallback, maxAge);
    JitterBelowHalf(jitterMax, draw);
    var interval := SafeRefreshInterval(r, fallback, maxAge);
    assert interval <= life / 2;
    assert ApplyJitter(interval, jitterMax, draw) < life;
  }

  /** With at most an hour of jitter, a timer set no later than the reported
      expiry goes off inside the default one-hour grace after it. */
  lemma DueWithinGrace(r: LifetimeRecord, fallback: Duration, maxAge: Duration,
                       jitterMax: Duration, at: Time, draw: Option<nat>)
    requires Sound(r) && DrawOk(jitterMax, draw) && jitterMax <= HOUR
    requires !ExpectedExpiry(r, fallback, maxAge).Unknown?
    requires at <= ExpectedExpiry(r, fallback, maxAge).at
    ensures DueTime(r, fallback, maxAge, jitterMax, at, draw) <= ExpectedExpiry(r, fallback, maxAge).at + HOUR
  {
    IntervalWithinExpiry(r, fallback, maxAge);
    if r.observed != [] {
      assert Shortest(r.observed) >= 0;
    }
  }
}
