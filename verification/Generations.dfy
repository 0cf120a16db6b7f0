/** Which registration is where: minted, written, handed over, running, recorded. */
module Generations {
  import opened Common
  import opened Lifetime
  import opened Alerts
  import opened RefreshModel

  /** births[g-1] bounds from below every instant at which registration g was in use. */
  function BirthOf(s: State, g: nat): Time {
    if 0 < g <= |s.disk.births| then s.disk.births[g - 1] else ZERO_TIME
  }

  ghost predicate Ordered(births: seq<Time>) {
    forall i, j | 0 <= i <= j < |births| :: births[i] <= births[j]
  }

  /** What the stage of an attempt says about the newest registration. */
  ghost predicate StageFits(cfg: Config, s: State) {
    var newest := |s.disk.births|;
    match s.stage
    case Resting => true
    case Trying(start) => forall b | b in s.disk.births :: b <= start
    case HasKey(start) => newest > 0 && s.disk.births[newest - 1] == start
    case Written(start) => newest > 0 && s.disk.births[newest - 1] == start && s.disk.config == newest
    case Recorded(start) => newest > 0 && s.disk.births[newest - 1] == start && s.disk.config == newest
    case Handed(start) => newest > 0 && s.disk.births[newest - 1] == start && s.disk.config == newest == s.disk.pending
    case Reloaded(start) =>
      newest > 0 && s.disk.births[newest - 1] == start && s.disk.running == s.disk.config == newest &&
      (cfg.portForwarding ==> s.disk.pending == newest)
  }

  ghost predicate Inv(cfg: Config, s: State) {
    && s.disk.running <= s.disk.config <= |s.disk.births|
    && (cfg.portForwarding ==> s.disk.running <= s.disk.pending <= s.disk.config)
    && s.disk.recorded <= s.disk.config
    && (s.disk.recorded > 0 ==> s.rec.birth == BirthOf(s, s.disk.recorded))
    && Ordered(s.disk.births) && (forall b | b in s.disk.births :: b <= s.clock)
    && (!s.stage.Resting? ==> s.stage.start <= s.clock) && StageFits(cfg, s)
  }

  lemma MintKeepsOrder(births: seq<Time>, at: Time)
    requires Ordered(births) && forall b | b in births :: b <= at
    ensures Ordered(births + [at])
    ensures forall b | b in births + [at] :: b <= at
  {
    var longer := births + [at];
    assert forall b | b in longer :: b in births || b == at;
    forall i, j | 0 <= i <= j < |longer|
      ensures longer[i] <= longer[j]
    {
      assert longer[i] in longer;
      if j < |births| {
        assert births[i] <= births[j];
      }
    }
  }

  lemma AttemptKeepsInv(cfg: Config, s: State, e: Event)
    requires Inv(cfg, s) && Enabled(cfg, s, e) && Timely(cfg, s, e)
    requires e.AttemptBegan? || e.Minted? || e.ConfigWritten? || e.BirthRecorded? || e.BirthLost?
    ensures Inv(cfg, Apply(cfg, s, e))
  {
    if e.Minted? {
      MintKeepsOrder(s.disk.births, e.at);
    }
  }

  lemma StepKeepsInv(cfg: Config, s: State, e: Event)
    requires Inv(cfg, s) && Enabled(cfg, s, e) && Timely(cfg, s, e)
    ensures Inv(cfg, Apply(cfg, s, e))
  {
    if e.AttemptBegan? || e.Minted? || e.ConfigWritten? || e.BirthRecorded? || e.BirthLost? {
      AttemptKeepsInv(cfg, s, e);
    }
  }

  lemma {:induction false} AlwaysInv(cfg: Config, m: Machine)
    requires Real(cfg, m) && Inv(cfg, m.init)
    ensures Inv(cfg, m.s)
    decreases |m.trace|
  {
    if m.trace != [] {
      BeforeIsReal(cfg, m);
      AlwaysInv(cfg, Before(cfg, m));
      StepKeepsInv(cfg, Before(cfg, m).s, m.trace[|m.trace| - 1]);
    }
  }

  /** Whatever fails, at whatever step of whatever sequence of attempts: running <=
      pending <= config <= newest minted; and gluetun is only ever restarted onto
      the newest registration, with its key already in the pending file. */
  lemma NeverAheadOfTheHandOver(cfg: Config, m: Machine, k: nat)
    requires Real(cfg, m) && Inv(cfg, m.init) && cfg.portForwarding
    requires k <= |m.trace|
    ensures var s := Upto(cfg, m, k).s;
            && s.disk.running <= s.disk.pending <= s.disk.config <= |s.disk.births|
            && (k < |m.trace| && m.trace[k].Restarted? ==>
                  s.disk.pending == s.disk.config == |s.disk.births| &&
                  Upto(cfg, m, k + 1).s.disk.running == s.disk.pending)
  {
    UptoIsReal(cfg, m, k);
    AlwaysInv(cfg, Upto(cfg, m, k));
  }
}
