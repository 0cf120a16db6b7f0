/** When the proactive refresh really happens, over every jitter draw, against what
    the documentation promises: at most half the lifetime, at least half an hour. */
module Cadence {
  import opened Common
  import opened Lifetime

  /** The settings that decide the cadence of one registration. */
  datatype Settings = Settings(fallback: Duration, maxAge: Duration, jitterMax: Duration)

  function Due(r: LifetimeRecord, c: Settings, at: Time, draw: Option<nat>): Time {
    DueTime(r, c.fallback, c.maxAge, c.jitterMax, at, draw)
  }

  function Interval(r: LifetimeRecord, c: Settings): Duration {
    SafeRefreshInterval(r, c.fallback, c.maxAge)
  }

  /** The furthest a draw can push a refresh back, and the furthest it can pull it forward. */
  function Latest(jitterMax: Duration): Duration {
    if jitterMax > 0 then jitterMax - 1 - jitterMax / 2 else 0
  }

  function Earliest(jitterMax: Duration): Duration {
    if jitterMax > 0 then jitterMax / 2 else 0
  }

  /** Whatever the draw, a timer set at `at` goes off by the limit. */
  ghost predicate AlwaysBy(r: LifetimeRecord, c: Settings, at: Time, limit: Time) {
    forall draw | DrawOk(c.jitterMax, draw) :: Due(r, c, at, draw) <= limit
  }

  /** Whatever the draw, it goes off no sooner than the limit. */
  ghost predicate AlwaysFrom(r: LifetimeRecord, c: Settings, at: Time, limit: Time) {
    forall draw | DrawOk(c.jitterMax, draw) :: Due(r, c, at, draw) >= limit
  }

  /** The latest draw decides the upper limit, and the one-minute clamp does. */
  lemma ByExactly(r: LifetimeRecord, c: Settings, at: Time, limit: Time)
    requires r.birth != ZERO_TIME
    ensures AlwaysBy(r, c, at, limit) <==>
            at + MINUTE <= limit && r.birth + Interval(r, c) + Latest(c.jitterMax) <= limit
  {
    var worst: Option<nat> := if c.jitterMax > 0 then Some(c.jitterMax - 1) else None;
    assert DrawOk(c.jitterMax, worst);
    assert Due(r, c, at, worst) == at + Max(r.birth + Interval(r, c) + Latest(c.jitterMax) - at, MINUTE);
    assert AlwaysBy(r, c, at, limit) ==> Due(r, c, at, worst) <= limit;
  }

  lemma FromExactly(r: LifetimeRecord, c: Settings, at: Time, limit: Time)
    requires r.birth != ZERO_TIME
    ensures AlwaysFrom(r, c, at, limit) <==>
            at + MINUTE >= limit || r.birth + Interval(r, c) - Earliest(c.jitterMax) >= limit
  {
    var worst: Option<nat> := if c.jitterMax > 0 then Some(0) else None;
    assert DrawOk(c.jitterMax, worst);
    assert Due(r, c, at, worst) == at + Max(r.birth + Interval(r, c) - Earliest(c.jitterMax) - at, MINUTE);
    assert AlwaysFrom(r, c, at, limit) ==> Due(r, c, at, worst) >= limit;
  }

  /** What the measured lifetime leaves of a maximum age; no maximum leaves all of it. */
  function Capped(life: Duration, maxAge: Duration): Duration {
    if maxAge > 0 then Min(life, maxAge) else life
  }

  /** What the floor is applied to: half the measured lifetime, or the configured interval
      while none is measured, and no more than half the maximum age. */
  function Wanted(r: LifetimeRecord, c: Settings): Duration {
    match MeasuredLifetime(r)
    case Some(life) => Capped(life, c.maxAge) / 2
    case None => if c.maxAge > 0 then Min(c.fallback, c.maxAge / 2) else c.fallback
  }

  lemma IntervalIsWanted(r: LifetimeRecord, c: Settings)
    requires Sound(r)
    ensures Interval(r, c) == Max(MIN_REFRESH, Wanted(r, c))
  {
    if r.observed != [] {
      assert Shortest(r.observed) >= 0;
    }
  }

  /** "At most half the shortest measured lifetime", for a timer set at the birth: it
      holds for every draw exactly when the lifetime is an hour or more and the jitter
      fits between half the capped lifetime and half the lifetime. So without a maximum
      age below the lifetime any jitter of three nanoseconds or more breaks it. */
  lemma HalfLifetimeExactly(r: LifetimeRecord, c: Settings)
    requires Sound(r) && r.birth != ZERO_TIME && MeasuredLifetime(r).Some?
    ensures var life := MeasuredLifetime(r).value;
            AlwaysBy(r, c, r.birth, r.birth + Half(life)) <==>
            Max(MIN_REFRESH, Capped(life, c.maxAge) / 2) + Latest(c.jitterMax) <= Half(life)
    ensures var life := MeasuredLifetime(r).value;
            c.maxAge <= 0 || c.maxAge >= life ==>
              (AlwaysBy(r, c, r.birth, r.birth + Half(life)) <==> life >= HOUR && c.jitterMax <= 2)
  {
    assert Shortest(r.observed) >= 0;
    IntervalIsWanted(r, c);
    EvenNanoseconds(Shortest(r.observed));
    ByExactly(r, c, r.birth, r.birth + Half(MeasuredLifetime(r).value));
  }

  /** "At most half the maximum registration age" likewise: exactly when that half leaves
      room for the floor and the jitter, and what is wanted leaves room for the jitter. So
      a lifetime as long as the maximum allows no jitter, and a maximum under an hour never. */
  lemma HalfMaxAgeExactly(r: LifetimeRecord, c: Settings)
    requires Sound(r) && r.birth != ZERO_TIME && c.maxAge > 0
    ensures AlwaysBy(r, c, r.birth, r.birth + Half(c.maxAge)) <==>
            && MIN_REFRESH + Latest(c.jitterMax) <= c.maxAge / 2
            && Wanted(r, c) + Latest(c.jitterMax) <= c.maxAge / 2
    ensures MeasuredLifetime(r).Some? && MeasuredLifetime(r).value >= c.maxAge ==>
              (AlwaysBy(r, c, r.birth, r.birth + Half(c.maxAge)) <==> c.maxAge >= HOUR && c.jitterMax <= 2)
  {
    IntervalIsWanted(r, c);
    ByExactly(r, c, r.birth, r.birth + Half(c.maxAge));
  }

  /** "Never more often than every thirty minutes": a timer set at the birth leaves at
      least that for every draw exactly when there is no real jitter, or what is wanted
      exceeds the floor by half the jitter. */
  lemma HalfHourExactly(r: LifetimeRecord, c: Settings)
    requires Sound(r) && r.birth != ZERO_TIME
    ensures AlwaysFrom(r, c, r.birth, r.birth + MIN_REFRESH) <==>
            c.jitterMax <= 1 || Wanted(r, c) >= MIN_REFRESH + c.jitterMax / 2
  {
    IntervalIsWanted(r, c);
    FromExactly(r, c, r.birth, r.birth + MIN_REFRESH);
  }

  /** The default settings: twelve hours before a lifetime is known, half an hour of jitter. */
  const DEFAULTS := Settings(12 * HOUR, 0, 30 * MINUTE)

  /** A lifetime of two hours is refreshed after 74 minutes when the draw is 29 minutes. */
  lemma DefaultsPassHalf()
    ensures var r := LifetimeRecord(HOUR, [7200], HOUR);
            && MeasuredLifetime(r) == Some(2 * HOUR) && DrawOk(DEFAULTS.jitterMax, Some(29 * MINUTE))
            && Due(r, DEFAULTS, HOUR, Some(29 * MINUTE)) == r.birth + 74 * MINUTE
  {
    assert Shortest([7200]) == 7200;
  }

  /** A lifetime of one hour is refreshed after a quarter of one when the draw is zero. */
  lemma DefaultsPassTheFloor()
    ensures var r := LifetimeRecord(HOUR, [3600], HOUR);
            && MeasuredLifetime(r) == Some(HOUR) && DrawOk(DEFAULTS.jitterMax, Some(0))
            && Due(r, DEFAULTS, HOUR, Some(0)) == r.birth + 15 * MINUTE
  {
    assert Shortest([3600]) == 3600;
  }
}
