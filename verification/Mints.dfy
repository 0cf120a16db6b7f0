/** How many registrations one regeneration may mint, and how fast. */
module Mints {
  import opened Common
  import opened RefreshModel
  import opened RefreshSpec
  import opened RefreshReal

  /** The births of the registrations minted by the first n attempts. */
  function NewBirths(env: RegenEnv, n: nat): seq<Time>
    requires n <= |env.attempts|
  {
    if n == 0 then []
    else NewBirths(env, n - 1) + (if env.attempts[n - 1].generates then [env.attempts[n - 1].start] else [])
  }

  /** How many attempts are reached: up to the first success, at most six. */
  function Reached(cfg: Config, env: RegenEnv): nat
    requires Enough(env)
  {
    Min(FirstSuccess(cfg, env, 0) + 1, MAX_ATTEMPTS)
  }

  lemma AttemptMints(cfg: Config, m: Machine, env: AttemptEnv, i: nat)
    ensures RegenerateOnce(cfg, m, env).s.disk.births == m.s.disk.births + (if env.generates then [env.start] else [])
    ensures FailedAttempt(cfg, m, env, i).s.disk.births == RegenerateOnce(cfg, m, env).s.disk.births
    ensures !env.generates ==>
              FailedAttempt(cfg, m, env, i).s.disk == m.s.disk && FailedAttempt(cfg, m, env, i).s.rec == m.s.rec
    ensures FailedAttempt(cfg, m, env, i).s.health == m.s.health
  {
  }

  lemma OneMoreBirth(births: seq<Time>, env: RegenEnv, k: nat, after: seq<Time>)
    requires k < |env.attempts|
    requires after == births + NewBirths(env, k) + (if env.attempts[k].generates then [env.attempts[k].start] else [])
    ensures after == births + NewBirths(env, k + 1)
  {
  }

  lemma {:induction false} NextFailureMints(cfg: Config, m: Machine, env: RegenEnv, i: nat, before: Machine)
    returns (after: Machine)
    requires i < |env.attempts| && before == AfterFailures(cfg, m, env, i)
    requires before.s.disk.births == m.s.disk.births + NewBirths(env, i)
    ensures after == AfterFailures(cfg, m, env, i + 1)
    ensures after.s.disk.births == m.s.disk.births + NewBirths(env, i + 1)
  {
    after := FailedAttempt(cfg, before, env.attempts[i], i);
    AttemptMints(cfg, before, env.attempts[i], i);
    OneMoreBirth(m.s.disk.births, env, i, after.s.disk.births);
    OneMoreFailure(cfg, m, env, i, before, after);
  }

  lemma {:induction false} FailuresMint(cfg: Config, m: Machine, env: RegenEnv, n: nat) returns (after: Machine)
    requires n <= |env.attempts|
    ensures after == AfterFailures(cfg, m, env, n)
    ensures after.s.disk.births == m.s.disk.births + NewBirths(env, n)
  {
    after := m;
    for i := 0 to n
      invariant after == AfterFailures(cfg, m, env, i)
      invariant after.s.disk.births == m.s.disk.births + NewBirths(env, i)
    {
      after := NextFailureMints(cfg, m, env, i, after);
    }
  }

  lemma {:induction false} MintedExactly(env: RegenEnv, n: nat)
    requires n <= |env.attempts|
    ensures |NewBirths(env, n)| <= n
    ensures |NewBirths(env, n)| == n <==> forall i | 0 <= i < n :: env.attempts[i].generates
    ensures |NewBirths(env, n)| == 0 <==> forall i | 0 <= i < n :: !env.attempts[i].generates
  {
    if n > 0 {
      MintedExactly(env, n - 1);
    }
  }

  lemma SuccessMints(cfg: Config, before: Machine, reactive: bool, env: AttemptEnv, at: Time)
    ensures NoteSuccess(cfg, RegenerateOnce(cfg, before, env), reactive, at).s.disk.births ==
            before.s.disk.births + (if env.generates then [env.start] else [])
  {
  }

  lemma GiveUpMints(cfg: Config, before: Machine, reactive: bool)
    ensures GiveUp(cfg, before, reactive).s.disk.births == before.s.disk.births
  {
  }

  /** One regeneration mints one registration for each attempt it reaches whose
      generation succeeds, and no other. */
  lemma {:induction false} RegenerateMints(cfg: Config, m: Machine, reactive: bool, env: RegenEnv)
    requires Enough(env)
    ensures Regenerate(cfg, m, reactive, env).s.disk.births == m.s.disk.births + NewBirths(env, Reached(cfg, env))
  {
    var k := FirstSuccess(cfg, env, 0);
    var before := FailuresMint(cfg, m, env, k);
    if k < MAX_ATTEMPTS {
      AttemptDecides(cfg, m, reactive, env, k);
      SuccessMints(cfg, AfterFailures(cfg, m, env, k), reactive, env.attempts[k], env.endAt);
      OneMoreBirth(m.s.disk.births, env, k, Regenerate(cfg, m, reactive, env).s.disk.births);
    } else {
      GiveUpMints(cfg, AfterFailures(cfg, m, env, k), reactive);
    }
  }

  /** So never more than six, and six exactly when none of the first five attempts
      succeeds although all six obtain a key. */
  lemma {:induction false} AtMostSix(cfg: Config, env: RegenEnv)
    requires Enough(env)
    ensures |NewBirths(env, Reached(cfg, env))| <= MAX_ATTEMPTS
    ensures |NewBirths(env, Reached(cfg, env))| == MAX_ATTEMPTS <==>
            && (forall i | 0 <= i < MAX_ATTEMPTS :: env.attempts[i].generates)
            && (forall i | 0 <= i < MAX_ATTEMPTS - 1 :: !Succeeds(cfg, env.attempts[i]))
  {
    var n := Reached(cfg, env);
    MintedExactly(env, n);
    assert n == MAX_ATTEMPTS <==> forall i | 0 <= i < MAX_ATTEMPTS - 1 :: !Succeeds(cfg, env.attempts[i]);
  }

  /** The pauses between attempt i and attempt j. */
  function Pauses(cfg: Config, i: nat, j: nat): Duration
    requires i <= j
  {
    if i == j then 0 else Pauses(cfg, i, j - 1) + Max(0, Backoff(cfg, j - 1))
  }

  /** Registrations of one regeneration are at least the pauses between them apart. */
  lemma {:induction false} MintsAreSpaced(cfg: Config, clock: Time, reactive: bool, env: RegenEnv, i: nat, j: nat)
    requires Enough(env) && RegenInTime(cfg, clock, reactive, env) && i <= j < Reached(cfg, env)
    ensures env.attempts[j].start >= env.attempts[i].start + Pauses(cfg, i, j)
    decreases j
  {
    if i < j {
      MintsAreSpaced(cfg, clock, reactive, env, i, j - 1);
      ReachedInTime(cfg, clock, reactive, env, j - 1);
      ReachedInTime(cfg, clock, reactive, env, j);
    }
  }

  lemma DoubledProduct(a: int, p: int)
    ensures 2 * (a * p) == a * (2 * p)
  {
  }

  /** With a pause that is neither negative nor above its cap the pauses are the
      doubled minimum, capped. */
  lemma {:induction false} BackoffIsPower(cfg: Config, i: nat)
    requires 0 <= cfg.backoffMin <= cfg.backoffMax
    ensures Backoff(cfg, i) == Min(cfg.backoffMin * Pow2(i), cfg.backoffMax)
  {
    if i == 0 {
      assert Pow2(0) == 1;
    } else {
      BackoffIsPower(cfg, i - 1);
      DoubledProduct(cfg.backoffMin, Pow2(i - 1));
      assert cfg.backoffMin * Pow2(i) == 2 * (cfg.backoffMin * Pow2(i - 1));
    }
  }

  /** Attempts that obtain no key leave the files alone. */
  lemma {:induction false} FailuresWithoutKey(cfg: Config, m: Machine, env: RegenEnv, n: nat)
    requires n <= |env.attempts| && forall i | 0 <= i < n :: !env.attempts[i].generates
    ensures var s := AfterFailures(cfg, m, env, n).s;
            s.disk == m.s.disk && s.rec == m.s.rec && s.health == m.s.health
  {
    if n > 0 {
      FailuresWithoutKey(cfg, m, env, n - 1);
      AttemptMints(cfg, AfterFailures(cfg, m, env, n - 1), env.attempts[n - 1], n - 1);
    }
  }
}
