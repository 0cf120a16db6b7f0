/** The refresh daemon and the pf daemon side by side: what pf works for is never ahead
    of what refresh handed over. */
module TwoDaemons {
  import opened Common
  import RefreshModel
  import Generations
  import opened PortForwardDaemon

  datatype System = System(refresh: RefreshModel.Machine, pf: State)

  /** Either daemon moves. When refresh writes the pending file, that is pf's hand-over
      of the newest registration, stamped with the time of the write. */
  datatype Move = Refreshes(event: RefreshModel.Event, at: Time) | Polls(step: Step)

  function PfStep(sys: System, move: Move): Step {
    match move
    case Polls(step) => step
    case Refreshes(event, at) =>
      if event.PendingWritten? then HandOver(Pending(at, |sys.refresh.s.disk.births|)) else Renew
  }

  function Moved(cfg: RefreshModel.Config, sys: System, move: Move): System {
    System(if move.Refreshes? then RefreshModel.Emit(cfg, sys.refresh, move.event) else sys.refresh,
           Next(sys.pf, PfStep(sys, move)))
  }

  ghost predicate Allowed(cfg: RefreshModel.Config, sys: System, move: Move) {
    && LaterIfHandedOver(sys.pf, PfStep(sys, move))
    && (move.Polls? ==> !move.step.HandOver?)
    && (move.Refreshes? ==>
          RefreshModel.Enabled(cfg, sys.refresh.s, move.event) && RefreshModel.Timely(cfg, sys.refresh.s, move.event))
  }

  function AllMoved(cfg: RefreshModel.Config, sys: System, moves: seq<Move>): System {
    if moves == [] then sys else Moved(cfg, AllMoved(cfg, sys, moves[..|moves| - 1]), moves[|moves| - 1])
  }

  ghost predicate AllAllowed(cfg: RefreshModel.Config, sys: System, moves: seq<Move>) {
    moves == [] ||
    (AllAllowed(cfg, sys, moves[..|moves| - 1]) &&
     Allowed(cfg, AllMoved(cfg, sys, moves[..|moves| - 1]), moves[|moves| - 1]))
  }

  /** The pending file holds the key of the registration that refresh takes it to hold,
      and nothing later was ever handed over. */
  ghost predicate FilesAgree(sys: System) {
    var handed := sys.refresh.s.disk.pending;
    && (sys.pf.pending.Some? ==> sys.pf.pending.value.key == handed)
    && (forall p | p in sys.pf.written :: p.key <= handed)
  }

  ghost predicate Inv(cfg: RefreshModel.Config, sys: System) {
    && RefreshModel.Real(cfg, sys.refresh) && Generations.Inv(cfg, sys.refresh.s)
    && FilesFit(sys.pf) && ProcessFits(sys.pf) && FilesAgree(sys)
  }

  ghost predicate Starts(cfg: RefreshModel.Config, sys: System) {
    && cfg.portForwarding && RefreshModel.Real(cfg, sys.refresh) && Generations.Inv(cfg, sys.refresh.s)
    && Initial(sys.pf) && FilesAgree(sys)
  }

  lemma MoveKeepsFiles(cfg: RefreshModel.Config, sys: System, move: Move)
    requires cfg.portForwarding && Generations.Inv(cfg, sys.refresh.s) && FilesAgree(sys) && Allowed(cfg, sys, move)
    ensures FilesAgree(Moved(cfg, sys, move))
  {
    var sys' := Moved(cfg, sys, move);
    assert sys'.refresh.s.disk.pending ==
           if move.Refreshes? && move.event.PendingWritten? then |sys.refresh.s.disk.births|
           else sys.refresh.s.disk.pending;
  }

  lemma MoveKeepsInv(cfg: RefreshModel.Config, sys: System, move: Move)
    requires cfg.portForwarding && Inv(cfg, sys) && Allowed(cfg, sys, move)
    ensures Inv(cfg, Moved(cfg, sys, move))
  {
    StepKeepsFits(sys.pf, PfStep(sys, move));
    MoveKeepsFiles(cfg, sys, move);
    if move.Refreshes? {
      RefreshModel.EmitKeepsLawful(cfg, sys.refresh, move.event);
      Generations.StepKeepsInv(cfg, sys.refresh.s, move.event);
    }
  }

  lemma {:induction false} AlwaysInv(cfg: RefreshModel.Config, sys: System, moves: seq<Move>)
    requires Starts(cfg, sys) && AllAllowed(cfg, sys, moves)
    ensures Inv(cfg, AllMoved(cfg, sys, moves))
  {
    if moves == [] {
      InitialFits(sys.pf);
    } else {
      AlwaysInv(cfg, sys, moves[..|moves| - 1]);
      MoveKeepsInv(cfg, AllMoved(cfg, sys, moves[..|moves| - 1]), moves[|moves| - 1]);
    }
  }

  /** A registration of the given number was handed over at that time. */
  ghost predicate HandedOver(written: seq<Pending>, created: Time, generation: nat) {
    exists p :: p in written && p.created == created && p.key == generation
  }

  /** In every interleaving of the two daemons, whatever fails: pf's active registration,
      and the one it is acquiring, are ones refresh handed over, and no later than the one
      in the pending file, which is no later than the one in the configuration; nor is
      the one gluetun runs. */
  lemma {:induction false} PfNeverAheadOfRefresh(cfg: RefreshModel.Config, sys: System, moves: seq<Move>)
    requires Starts(cfg, sys) && AllAllowed(cfg, sys, moves)
    ensures var t := AllMoved(cfg, sys, moves);
            var disk := t.refresh.s.disk;
            && (t.pf.active != ZERO_TIME ==>
                  exists g: nat :: HandedOver(t.pf.written, t.pf.active, g) && g <= disk.pending)
            && (t.pf.busy.Some? ==> t.pf.busy.value in t.pf.written && t.pf.busy.value.key <= disk.pending)
            && (t.pf.pending.Some? ==> t.pf.pending.value.key == disk.pending)
            && disk.running <= disk.pending <= disk.config <= |disk.births|
  {
    AlwaysInv(cfg, sys, moves);
    var t := AllMoved(cfg, sys, moves);
    if t.pf.active != ZERO_TIME {
      var p :| p in t.pf.written && p.created == t.pf.active;
      assert HandedOver(t.pf.written, t.pf.active, p.key);
    }
  }
}
