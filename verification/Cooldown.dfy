/** No registration storm: while the tunnel stays down, applied reactive recoveries
    are ever further apart. */
module Cooldown {
  import opened Common
  import opened RefreshModel

  /** A reactive recovery that applied a configuration: from its decision to its end. */
  datatype Recovery = Recovery(since: Time, at: Time)

  function RecoveriesIn(events: seq<Event>): seq<Recovery> {
    if events == [] then []
    else match events[|events| - 1]
      case RecoveryApplied(since, at) => RecoveriesIn(events[..|events| - 1]) + [Recovery(since, at)]
      case _ => RecoveriesIn(events[..|events| - 1])
  }

  predicate HealthySample(e: Event) {
    e.Sampled? && e.healthy
  }

  /** The recoveries applied since the last healthy sample. */
  function Streak(trace: seq<Event>): seq<Recovery> {
    if trace == [] then []
    else
      var before := Streak(trace[..|trace| - 1]);
      match trace[|trace| - 1]
      case Sampled(_, healthy, _) => if healthy then [] else before
      case RecoveryApplied(since, at) => before + [Recovery(since, at)]
      case _ => before
  }

  /** The daemon's flag that its last recovery did not help, told from the run. */
  ghost predicate StreakFits(m: Machine) {
    && (PreviousIneffective(m.s) <==> Streak(m.trace) != [])
    && (m.s.recoveries.count == 0 ==> Streak(m.trace) == [])
  }

  lemma StepKeepsStreak(cfg: Config, b: Machine, m: Machine, e: Event)
    requires StreakFits(b) && Enabled(cfg, b.s, e)
    requires m.s == Apply(cfg, b.s, e) && m.trace == b.trace + [e]
    ensures StreakFits(m)
  {
    assert m.trace[..|b.trace|] == b.trace;
  }

  lemma {:induction false} StreakAlwaysFits(cfg: Config, m: Machine)
    requires Lawful(cfg, m)
    ensures StreakFits(m)
    decreases |m.trace|
  {
    if m.trace != [] {
      BeforeIsLawful(cfg, m);
      StreakAlwaysFits(cfg, Before(cfg, m));
      StepKeepsStreak(cfg, Before(cfg, m), m, m.trace[|m.trace| - 1]);
    }
  }

  /** In every lawful run a recovery counts an earlier one as fruitless exactly when
      one was applied since the last healthy sample. */
  lemma {:induction false} IneffectiveExactly(cfg: Config, m: Machine, k: nat)
    requires Lawful(cfg, m) && k < |m.trace| && m.trace[k].Accounted?
    ensures m.trace[k].ineffective <==> Streak(m.trace[..k]) != []
    decreases |m.trace|
  {
    BeforeIsLawful(cfg, m);
    var b := Before(cfg, m);
    if k == |m.trace| - 1 {
      StreakAlwaysFits(cfg, b);
    } else {
      IneffectiveExactly(cfg, b, k);
      assert b.trace[..k] == m.trace[..k];
    }
  }

  /** The sum of the first n escalating cooldowns. */
  function TotalCooldown(cfg: Config, n: nat): Duration {
    if n == 0 then 0 else TotalCooldown(cfg, n - 1) + CooldownAfter(cfg, n - 1)
  }

  lemma {:induction false} DoubledIsPower(d: Duration, n: nat)
    ensures Doubled(d, n) == d * Pow2(n)
  {
    if n > 0 {
      DoubledIsPower(d, n - 1);
      var p := Pow2(n - 1);
      assert 2 * (d * p) == d * (2 * p);
    }
  }

  lemma {:induction false} CooldownIsPower(cfg: Config, n: nat)
    ensures CooldownAfter(cfg, n) == Min(BaseCooldown(cfg) * Pow2(n), COOLDOWN_CAP)
  {
    DoubledIsPower(BaseCooldown(cfg), n);
  }

  lemma {:induction false} DoubledGrows(d: Duration, i: nat, j: nat)
    requires i <= j && d > 0
    ensures 0 < Doubled(d, i) <= Doubled(d, j)
    decreases i + j
  {
    if i < j {
      DoubledGrows(d, i, j - 1);
    } else if i > 0 {
      DoubledGrows(d, i - 1, i - 1);
    }
  }

  lemma CooldownGrows(cfg: Config, i: nat, j: nat)
    requires i <= j
    ensures 0 < CooldownAfter(cfg, i) <= CooldownAfter(cfg, j)
  {
    DoubledGrows(BaseCooldown(cfg), i, j);
  }

  ghost predicate Spaced(cfg: Config, q: seq<Recovery>) {
    forall i, j | 0 <= i < j < |q| :: q[j].since >= q[i].at + TotalCooldown(cfg, j - i)
  }

  ghost predicate Inv(cfg: Config, m: Machine) {
    var q, s := Streak(m.trace), m.s;
    && Spaced(cfg, q)
    && (s.phase.Idle? || s.phase.since <= s.clock)
    && (q != [] ==>
          && PreviousIneffective(s)
          && s.recoveries.last == q[|q| - 1].at && 0 < s.recoveries.last <= s.clock
          && q[|q| - 1].since <= q[|q| - 1].at
          && s.recoveries.ineffective >= |q| - 1
          && (s.phase.Began? ==> s.phase.since >= s.recoveries.last + CooldownAfter(cfg, |q| - 1))
          && (s.phase.Recovering? ==>
                s.recoveries.ineffective >= |q| &&
                s.phase.since >= s.recoveries.last + CooldownAfter(cfg, |q| - 1)))
  }

  lemma SpacedExtends(cfg: Config, q: seq<Recovery>, r: Recovery)
    requires Spaced(cfg, q)
    requires q != [] ==> q[|q| - 1].since <= q[|q| - 1].at
    requires q != [] ==> r.since >= q[|q| - 1].at + CooldownAfter(cfg, |q| - 1)
    ensures Spaced(cfg, q + [r])
  {
    forall i | 0 <= i < |q|
      ensures r.since >= q[i].at + TotalCooldown(cfg, |q| - i)
    {
      CooldownGrows(cfg, |q| - 1 - i, |q| - 1);
      if i < |q| - 1 {
        assert q[|q| - 1].since >= q[i].at + TotalCooldown(cfg, |q| - 1 - i);
      }
    }
  }

  lemma StepKeepsInv(cfg: Config, b: Machine, m: Machine, e: Event)
    requires Inv(cfg, b) && Enabled(cfg, b.s, e) && Timely(cfg, b.s, e)
    requires m.s == Apply(cfg, b.s, e) && m.trace == b.trace + [e]
    ensures Inv(cfg, m)
  {
    assert m.trace[..|m.trace| - 1] == b.trace;
    var q := Streak(b.trace);
    match e
    case RecoveryBegan(at) =>
      if q != [] {
        CooldownGrows(cfg, |q| - 1, b.s.recoveries.ineffective);
      }
    case RecoveryApplied(since, at) => SpacedExtends(cfg, q, Recovery(since, at));
    case _ =>
  }

  lemma {:induction false} AlwaysInv(cfg: Config, m: Machine)
    requires Real(cfg, m)
    ensures Inv(cfg, m)
    decreases |m.trace|
  {
    if m.trace != [] {
      BeforeIsReal(cfg, m);
      AlwaysInv(cfg, Before(cfg, m));
      StepKeepsInv(cfg, Before(cfg, m), m, m.trace[|m.trace| - 1]);
    }
  }

  lemma {:induction false} StreakSplits(trace: seq<Event>, i: nat, j: nat)
    requires i <= j <= |trace|
    requires forall k | i <= k < j :: !HealthySample(trace[k])
    ensures Streak(trace[..j]) == Streak(trace[..i]) + RecoveriesIn(trace[i..j])
    decreases j
  {
    if i < j {
      StreakSplits(trace, i, j - 1);
      assert trace[..j][..j - 1] == trace[..j - 1];
      assert trace[i..j][..j - 1 - i] == trace[i..j - 1];
    }
  }

  lemma StreakPositions(trace: seq<Event>, i: nat, j: nat)
    requires i < j < |trace| && trace[i].RecoveryApplied? && trace[j].RecoveryApplied?
    requires forall k | i <= k <= j :: !HealthySample(trace[k])
    ensures var q, a := Streak(trace[..j + 1]), |Streak(trace[..i])|;
            && a + |RecoveriesIn(trace[i..j])| == |q| - 1 && a < |q| - 1
            && q[a] == Recovery(trace[i].since, trace[i].at)
            && q[|q| - 1] == Recovery(trace[j].since, trace[j].at)
  {
    assert trace[..i + 1][..i] == trace[..i];
    assert trace[..j + 1][..j] == trace[..j];
    StreakSplits(trace, i, j);
    StreakSplits(trace, i + 1, j);
  }

  lemma StreakIsSpaced(cfg: Config, m: Machine, k: nat)
    requires Real(cfg, m) && k <= |m.trace|
    ensures Spaced(cfg, Streak(m.trace[..k]))
  {
    UptoIsReal(cfg, m, k);
    AlwaysInv(cfg, Upto(cfg, m, k));
  }

  lemma SpacedApart(cfg: Config, q: seq<Recovery>, a: nat)
    requires Spaced(cfg, q) && a < |q| - 1
    ensures q[|q| - 1].since >= q[a].at + TotalCooldown(cfg, |q| - 1 - a)
  {
  }

  /** In any run, from the end of one applied reactive recovery to the decision for
      a later one, with no healthy sample between, at least the sum of the first n
      escalating cooldowns passes, where n counts the recoveries from the first up
      to the later one. Proactive refreshes and failed attempts may interleave freely. */
  lemma {:induction false} NoRegistrationStorm(cfg: Config, m: Machine, i: nat, j: nat)
    requires Real(cfg, m)
    requires i < j < |m.trace| && m.trace[i].RecoveryApplied? && m.trace[j].RecoveryApplied?
    requires forall k | i <= k <= j :: !HealthySample(m.trace[k])
    ensures m.trace[j].since >= m.trace[i].at + TotalCooldown(cfg, |RecoveriesIn(m.trace[i..j])|)
  {
    StreakIsSpaced(cfg, m, j + 1);
    StreakPositions(m.trace, i, j);
    SpacedApart(cfg, Streak(m.trace[..j + 1]), |Streak(m.trace[..i])|);
  }

  /** After four fruitless recoveries with the default cooldown the daemon is at one
      recovery per half hour: n recoveries need at least n half hours, less 75 minutes. */
  lemma {:induction false} DefaultRate(cfg: Config, n: nat)
    requires cfg.cooldown <= 0 || cfg.cooldown == DEFAULT_COOLDOWN
    ensures TotalCooldown(cfg, n) >= n * COOLDOWN_CAP - 75 * MINUTE
    ensures n >= 4 ==> TotalCooldown(cfg, n) == n * COOLDOWN_CAP - 75 * MINUTE
  {
    var d := BaseCooldown(cfg);
    assert Doubled(d, 1) == 2 * d && Doubled(d, 2) == 4 * d && Doubled(d, 3) == 8 * d && Doubled(d, 4) == 16 * d;
    assert TotalCooldown(cfg, 1) == 3 * MINUTE && TotalCooldown(cfg, 2) == 9 * MINUTE;
    assert TotalCooldown(cfg, 3) == 21 * MINUTE && TotalCooldown(cfg, 4) == 45 * MINUTE;
    if n > 4 {
      DefaultRate(cfg, n - 1);
      CooldownGrows(cfg, 4, n - 1);
    }
  }
}
