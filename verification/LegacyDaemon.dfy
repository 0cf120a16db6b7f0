/** The original daemon: it restarts gluetun, exits, and rejoins the new network
    namespace with the port-forwarding key left for it in a pending file. */
module LegacyDaemon {
  import opened Common

  /** Settings that stay the same over every restart of the process. */
  datatype Flags = Flags(portForwarding: bool, restarts: bool)

  /** Registrations are numbered as they are minted; config is the one in wg0.conf.
      The lease and the last port belong to the process, the rest outlives it. */
  datatype State = State(
    minted: nat, config: nat, pending: Option<nat>, forwardedPort: Option<string>,
    lastPort: string, leaseKey: Option<nat>, trace: seq<Event>)

  datatype Event =
    | Generated(key: nat)
    | ConfigWritten(key: nat)
    | Restarted(key: nat)
    | PendingWritten(key: nat)
    | Bound(key: nat)
    | PortWritten(port: string)
    | PendingRemoved
    | Exited
    | Joined

  /** What the environment answers in one turn of the loop. */
  datatype Env = Env(
    client: bool, pendingReadable: bool, acquires: Option<string>, savesPort: bool, removes: bool,
    generates: bool, writes: bool, hook: bool, restart: bool, savesPending: bool, gateway: bool)

  // ----- One turn of the loop -----

  function Log(s: State, more: seq<Event>): State {
    s.(trace := s.trace + more)
  }

  function Unlease(s: State): State {
    s.(leaseKey := None)
  }

  /** The key is bound, its port written, and the lease renewed from it. */
  function Leased(s: State, key: nat, port: string): State {
    s.(forwardedPort := Some(port), lastPort := port, leaseKey := Some(key),
       trace := s.trace + [Bound(key), PortWritten(port)])
  }

  function Removed(s: State): State {
    s.(pending := None, trace := s.trace + [PendingRemoved])
  }

  /** Binding the key left by an earlier process. */
  function Resume(s: State, key: nat, env: Env): State {
    if env.acquires.None? then Unlease(s)
    else if !env.savesPort then Log(s, [Bound(key)])
    else if env.removes then Removed(Leased(s, key, env.acquires.value))
    else Leased(s, key, env.acquires.value)
  }

  /** Binding a key without a restart in between. */
  function BindFresh(s: State, key: nat, env: Env): State {
    if !env.gateway || env.acquires.None? then Unlease(s)
    else if !env.savesPort then Log(s, [Bound(key)])
    else Leased(s, key, env.acquires.value)
  }

  function Minted(s: State, key: nat): State {
    s.(minted := key, trace := s.trace + [Generated(key)])
  }

  function Written(s: State, key: nat): State {
    s.(config := key, trace := s.trace + [ConfigWritten(key)])
  }

  function Reloaded(s: State, key: nat): State {
    s.(trace := s.trace + [Restarted(key)])
  }

  function LeftPending(s: State, key: nat): State {
    s.(pending := Some(key), trace := s.trace + [PendingWritten(key), Exited])
  }

  function Refresh(flags: Flags, s: State, env: Env): (State, bool) {
    if !env.generates then (s, false)
    else
      var key := s.minted + 1;
      if !env.writes then (Minted(s, key), false)
      else
        var written := Written(Minted(s, key), key);
        if !env.hook then (Unlease(written), false)
        else if !flags.restarts then (if flags.portForwarding then BindFresh(written, key, env) else written, false)
        else if !env.restart then (Unlease(written), false)
        else if !flags.portForwarding then (Reloaded(written, key), false)
        else if !env.savesPending then (Unlease(Reloaded(written, key)), false)
        else (LeftPending(Reloaded(written, key), key), true)
  }

  /** The state after one turn, and whether the process exits. */
  function Turn(flags: Flags, s: State, env: Env): (State, bool) {
    if !env.client then (s, false)
    else if flags.portForwarding && !env.pendingReadable then (s, false)
    else if flags.portForwarding && s.pending.Some? then (Resume(s, s.pending.value, env), false)
    else Refresh(flags, s, env)
  }

  /** A new process over the same files. */
  function Join(s: State): State {
    s.(lastPort := "", leaseKey := None, trace := s.trace + [Joined])
  }

  class Daemon {
    const flags: Flags
    var minted: nat
    var config: nat
    var pending: Option<nat>
    var forwardedPort: Option<string>
    var lastPort: string
    var leaseKey: Option<nat>
    ghost var trace: seq<Event>

    ghost function View(): State
      reads this
    {
      State(minted, config, pending, forwardedPort, lastPort, leaseKey, trace)
    }

    constructor (flags: Flags, earlier: State)
      ensures this.flags == flags && View() == Join(earlier)
    {
      this.flags := flags;
      minted, config, pending, forwardedPort := earlier.minted, earlier.config, earlier.pending, earlier.forwardedPort;
      lastPort, leaseKey, trace := "", None, earlier.trace + [Joined];
    }

    method ResumePending(key: nat, env: Env)
      modifies this
      ensures View() == Resume(old(View()), key, env)
    {
      if env.acquires.None? {
        leaseKey := None;
        return;
      }
      var port := env.acquires.value;
      trace := trace + [Bound(key)];
      if !env.savesPort {
        return;
      }
      forwardedPort := Some(port);
      trace := trace + [PortWritten(port)];
      if port != lastPort {
        lastPort := port;
      }
      leaseKey := Some(key);
      if env.removes {
        pending, trace := None, trace + [PendingRemoved];
      }
    }

    method RefreshOnce(env: Env) returns (exited: bool)
      modifies this
      ensures (View(), exited) == Refresh(flags, old(View()), env)
    {
      if !env.generates {
        return false;
      }
      minted := minted + 1;
      var key := minted;
      trace := trace + [Generated(key)];
      if !env.writes {
        return false;
      }
      config, trace := key, trace + [ConfigWritten(key)];

      var failed := false;
      if !env.hook {
        failed, leaseKey := true, None;
      }
      if !failed && flags.restarts {
        if !env.restart {
          failed, leaseKey := true, None;
        } else {
          trace := trace + [Restarted(key)];
          if flags.portForwarding {
            if !env.savesPending {
              failed, leaseKey := true, None;
            } else {
              pending, trace := Some(key), trace + [PendingWritten(key), Exited];
              return true;
            }
          }
        }
      }
      if !failed && flags.portForwarding {
        if !env.gateway {
          failed, leaseKey := true, None;
        }
      }
      if !failed && flags.portForwarding {
        if env.acquires.None? {
          leaseKey := None;
        } else {
          var port := env.acquires.value;
          if env.savesPort {
            forwardedPort := Some(port);
            trace := trace + [Bound(key), PortWritten(port)];
            if port != lastPort {
              lastPort := port;
            }
            leaseKey := Some(key);
          } else {
            trace := trace + [Bound(key)];
          }
        }
      }
      exited := false;
    }

    method Iterate(env: Env) returns (exited: bool)
      modifies this
      ensures (View(), exited) == Turn(flags, old(View()), env)
    {
      if !env.client {
        return false;
      }
      if flags.portForwarding {
        if !env.pendingReadable {
          return false;
        }
        if pending.Some? {
          ResumePending(pending.value, env);
          return false;
        }
      }
      exited := RefreshOnce(env);
    }
  }

  // ----- Any number of turns and processes -----

  /** A step is a turn of the loop, or a new process taking over. */
  datatype Step = Loop(env: Env) | Rejoin

  function Next(flags: Flags, s: State, step: Step): State {
    match step
    case Loop(env) => Turn(flags, s, env).0
    case Rejoin => Join(s)
  }

  function After(flags: Flags, s: State, steps: seq<Step>): State {
    if steps == [] then s else Next(flags, After(flags, s, steps[..|steps| - 1]), steps[|steps| - 1])
  }

  /** Blank files, or a pending key that is that of the configuration on disk. */
  predicate Initial(s: State) {
    s.trace == [] && (s.pending.Some? ==> s.pending == Some(s.config))
  }

  predicate Touches(e: Event) {
    e.Generated? || e.ConfigWritten? || e.PendingWritten?
  }

  /** At l the key is bound and next its port written, with nothing generated,
      written or handed over since i. */
  ghost predicate BoundAt(trace: seq<Event>, key: nat, i: int, l: int) {
    && 0 <= i < l < |trace| - 1 && trace[l] == Bound(key) && trace[l + 1].PortWritten?
    && forall k | i < k <= l :: !Touches(trace[k])
  }

  ghost predicate Honoured(trace: seq<Event>, i: int)
    requires 0 <= i < |trace| && trace[i].PendingWritten?
  {
    exists l :: BoundAt(trace, trace[i].key, i, l)
  }

  /** The pending write at i is still outstanding: nothing was touched since. */
  ghost predicate Outstanding(s: State, i: int) {
    0 <= i < |s.trace| && s.trace[i].PendingWritten? && s.pending == Some(s.trace[i].key)
    && forall k | i < k < |s.trace| :: !Touches(s.trace[k])
  }

  ghost predicate Inv(s: State) {
    && (s.pending.Some? ==> s.pending == Some(s.config))
    && forall i | 0 <= i < |s.trace| && s.trace[i].PendingWritten? :: Honoured(s.trace, i) || Outstanding(s, i)
  }

  lemma HonouredStays(trace: seq<Event>, more: seq<Event>, i: int)
    requires 0 <= i < |trace| && trace[i].PendingWritten? && Honoured(trace, i)
    ensures Honoured(trace + more, i)
  {
    var l :| BoundAt(trace, trace[i].key, i, l);
    assert (trace + more)[i] == trace[i];
    assert BoundAt(trace + more, trace[i].key, i, l);
  }

  /** Steps that touch nothing and leave the pending file alone keep the invariant. */
  lemma UntouchedKeepsInv(s: State, s': State, more: seq<Event>)
    requires Inv(s) && s'.trace == s.trace + more && s'.pending == s.pending && s'.config == s.config
    requires forall e | e in more :: !Touches(e)
    ensures Inv(s')
  {
    assert forall k | |s.trace| <= k < |s'.trace| :: s'.trace[k] in more;
    forall i | 0 <= i < |s'.trace| && s'.trace[i].PendingWritten?
      ensures Honoured(s'.trace, i) || Outstanding(s', i)
    {
      if Honoured(s.trace, i) {
        HonouredStays(s.trace, more, i);
      }
    }
  }

  lemma RemovalKeepsInv(s: State, s': State, port: string)
    requires Inv(s) && s.pending.Some? && s'.pending.None? && s'.config == s.config
    requires s'.trace == s.trace + [Bound(s.pending.value), PortWritten(port), PendingRemoved]
    ensures Inv(s')
  {
    var n := |s.trace|;
    assert s'.trace[n] == Bound(s.pending.value) && s'.trace[n + 1].PortWritten?;
    forall i | 0 <= i < |s'.trace| && s'.trace[i].PendingWritten?
      ensures Honoured(s'.trace, i)
    {
      if Honoured(s.trace, i) {
        HonouredStays(s.trace, s'.trace[n..], i);
        assert s'.trace == s.trace + s'.trace[n..];
      } else {
        assert Outstanding(s, i);
        assert BoundAt(s'.trace, s.pending.value, i, n);
      }
    }
  }

  /** With no key pending every earlier pending write has been honoured. */
  lemma RefreshKeepsInv(s: State, s': State, more: seq<Event>)
    requires Inv(s) && s.pending.None? && s'.trace == s.trace + more
    requires s'.pending.Some? ==>
               s'.pending == Some(s'.config) && |more| >= 2 &&
               more[|more| - 2] == PendingWritten(s'.config) && more[|more| - 1].Exited?
    requires forall k | 0 <= k < |more| && more[k].PendingWritten? :: s'.pending.Some? && k == |more| - 2
    ensures Inv(s')
  {
    forall i | 0 <= i < |s'.trace| && s'.trace[i].PendingWritten?
      ensures Honoured(s'.trace, i) || Outstanding(s', i)
    {
      if i < |s.trace| {
        assert Honoured(s.trace, i);
        HonouredStays(s.trace, more, i);
      } else {
        assert more[i - |s.trace|].PendingWritten?;
        assert s'.trace[|s'.trace| - 1] == more[|more| - 1];
      }
    }
  }

  lemma ResumeKeepsInv(s: State, env: Env)
    requires Inv(s) && s.pending.Some?
    ensures Inv(Resume(s, s.pending.value, env))
  {
    var s' := Resume(s, s.pending.value, env);
    if env.acquires.Some? && env.savesPort && env.removes {
      RemovalKeepsInv(s, s', env.acquires.value);
    } else {
      UntouchedKeepsInv(s, s', s'.trace[|s.trace|..]);
    }
  }

  lemma FreshKeepsInv(flags: Flags, s: State, env: Env)
    requires Inv(s) && s.pending.None?
    ensures Inv(Refresh(flags, s, env).0)
  {
    var s' := Refresh(flags, s, env).0;
    RefreshKeepsInv(s, s', s'.trace[|s.trace|..]);
  }

  lemma {:induction false} AlwaysInv(flags: Flags, s: State, steps: seq<Step>)
    requires Initial(s) && flags.portForwarding
    ensures Inv(After(flags, s, steps))
  {
    if steps != [] {
      AlwaysInv(flags, s, steps[..|steps| - 1]);
      var before := After(flags, s, steps[..|steps| - 1]);
      var after := After(flags, s, steps);
      match steps[|steps| - 1]
      case Rejoin => UntouchedKeepsInv(before, after, [Joined]);
      case Loop(env) =>
        if !env.client || !env.pendingReadable {
        } else if before.pending.Some? {
          ResumeKeepsInv(before, env);
        } else {
          FreshKeepsInv(flags, before, env);
        }
    }
  }

  /** What a step may do while a key is pending. */
  ghost predicate KeepsOrBinds(t: State, t': State, step: Step) {
    && t.pending == Some(t.config)
    && t'.minted == t.minted && t'.config == t.config
    && t.trace <= t'.trace && (forall e | e in t'.trace[|t.trace|..] :: !Touches(e))
    && (t'.pending != t.pending ==>
          && step.Loop? && step.env.acquires.Some?
          && t'.trace == t.trace + [Bound(t.config), PortWritten(step.env.acquires.value), PendingRemoved]
          && t'.forwardedPort == step.env.acquires && t'.leaseKey == Some(t.config))
  }

  lemma ResumeKeepsOrBinds(t: State, env: Env)
    requires t.pending == Some(t.config)
    ensures KeepsOrBinds(t, Resume(t, t.config, env), Loop(env))
  {
  }

  lemma StepKeepsOrBinds(flags: Flags, t: State, step: Step)
    requires flags.portForwarding && t.pending == Some(t.config)
    ensures KeepsOrBinds(t, Next(flags, t, step), step)
  {
    if step.Loop? && step.env.client && step.env.pendingReadable {
      ResumeKeepsOrBinds(t, step.env);
    }
  }

  /** Across any number of exits and restarts with port forwarding on: the pending
      key is that of the configuration on disk; while it waits, no turn generates
      or writes a configuration; and it goes away only in a turn that bound that
      very key and wrote forwarded_port. */
  lemma {:induction false} PendingIsKeptUntilBound(flags: Flags, s: State, steps: seq<Step>, step: Step)
    requires Initial(s) && flags.portForwarding
    requires After(flags, s, steps).pending.Some?
    ensures KeepsOrBinds(After(flags, s, steps), Next(flags, After(flags, s, steps), step), step)
  {
    AlwaysInv(flags, s, steps);
    StepKeepsOrBinds(flags, After(flags, s, steps), step);
  }

  /** Two pending writes are always separated by a successful bind for the first,
      with its port written, before anything is generated again. */
  lemma {:induction false} PendingWritesAreSeparatedByABind(flags: Flags, s: State, steps: seq<Step>, i: int, j: int)
    requires Initial(s) && flags.portForwarding
    requires var trace := After(flags, s, steps).trace;
             0 <= i < j < |trace| && trace[i].PendingWritten? && trace[j].PendingWritten?
    ensures var trace := After(flags, s, steps).trace;
            exists l :: l < j && BoundAt(trace, trace[i].key, i, l)
  {
    AlwaysInv(flags, s, steps);
    var t := After(flags, s, steps);
    assert Touches(t.trace[j]);
    assert Honoured(t.trace, i);
    var l :| BoundAt(t.trace, t.trace[i].key, i, l);
    assert l < j;
  }

  // ----- What one turn does, step by step of its environment -----

  /** A turn that goes on to generate: no key waits, or none can. */
  predicate Regenerates(flags: Flags, s: State, env: Env) {
    env.client && (flags.portForwarding ==> env.pendingReadable && s.pending.None?)
  }

  /** The process exits exactly when a key is handed to the next one: every step up to and
      including the pending write has worked, with port forwarding and a container to restart. */
  lemma ExitsExactly(flags: Flags, s: State, env: Env)
    ensures Turn(flags, s, env).1 <==>
            && env.client && env.pendingReadable && s.pending.None? && env.generates && env.writes && env.hook
            && flags.restarts && env.restart && flags.portForwarding && env.savesPending
  {
  }

  /** A turn that writes a configuration: the pending file changes only when it exits; a
      failed hook, restart, pending write, gateway or bind disables the lease; a direct
      bind renews it when its port is written, and leaves it when that write fails. */
  lemma WritingTurnExactly(flags: Flags, s: State, env: Env)
    requires Regenerates(flags, s, env) && env.generates && env.writes
    ensures var key, t := s.minted + 1, Turn(flags, s, env).0;
            var handsOver := flags.portForwarding && flags.restarts;
            var binds := flags.portForwarding && !flags.restarts && env.hook && env.gateway && env.acquires.Some?;
            && t.minted == t.config == key
            && t.pending == (if handsOver && env.hook && env.restart && env.savesPending then Some(key) else s.pending)
            && t.leaseKey ==
               (if !env.hook || (flags.restarts && !env.restart) || (handsOver && !env.savesPending) then None
                else if flags.restarts || !flags.portForwarding then s.leaseKey
                else if !env.gateway || env.acquires.None? then None
                else if env.savesPort then Some(key) else s.leaseKey)
            && t.forwardedPort == (if binds && env.savesPort then env.acquires else s.forwardedPort)
            && t.lastPort == (if binds && env.savesPort then env.acquires.value else s.lastPort)
  {
  }

  /** A turn that binds a waiting key: a failed acquisition disables the lease; otherwise,
      when its port is written, the lease is of that key and the file goes if it can. */
  lemma BindingTurnExactly(flags: Flags, s: State, env: Env)
    requires env.client && flags.portForwarding && env.pendingReadable && s.pending.Some?
    ensures var key, t := s.pending.value, Turn(flags, s, env).0;
            var bound := env.acquires.Some? && env.savesPort;
            && t.minted == s.minted && t.config == s.config
            && t.pending == (if bound && env.removes then None else s.pending)
            && t.leaseKey == (if env.acquires.None? then None else if bound then Some(key) else s.leaseKey)
            && t.forwardedPort == (if bound then env.acquires else s.forwardedPort)
            && t.lastPort == (if bound then env.acquires.value else s.lastPort)
  {
  }

  /** Every other turn leaves everything, but for a key that was minted and not written. */
  lemma IdleTurnExactly(flags: Flags, s: State, env: Env)
    requires !env.client || (flags.portForwarding && !env.pendingReadable) ||
             (Regenerates(flags, s, env) && !(env.generates && env.writes))
    ensures var t := Turn(flags, s, env).0;
            if Regenerates(flags, s, env) && env.generates
            then t == s.(minted := s.minted + 1, trace := s.trace + [Generated(s.minted + 1)])
            else t == s
  {
  }

  /** A new process finds the files as they were, with no lease and no port of its own. */
  lemma RejoinExactly(flags: Flags, s: State)
    ensures var t := Next(flags, s, Rejoin);
            && t.leaseKey == None && t.lastPort == "" && t.pending == s.pending && t.config == s.config
            && t.minted == s.minted && t.forwardedPort == s.forwardedPort
  {
  }

  // ----- When a key may be left pending -----

  /** The configuration of the key written and gluetun restarted onto it right before, and
      the exit of the process right after. */
  ghost predicate LeftProperly(trace: seq<Event>, i: int)
    requires 0 <= i < |trace| && trace[i].PendingWritten?
  {
    && 2 <= i < |trace| - 1
    && trace[i - 2] == ConfigWritten(trace[i].key) && trace[i - 1] == Restarted(trace[i].key) && trace[i + 1] == Exited
  }

  ghost predicate AllLeftProperly(trace: seq<Event>) {
    && (forall i | 0 <= i < |trace| && trace[i].PendingWritten? :: LeftProperly(trace, i))
    && (forall i | 0 <= i < |trace| && trace[i].Exited? :: i > 0 && trace[i - 1].PendingWritten?)
  }

  lemma JoinedProperly(a: seq<Event>, b: seq<Event>)
    requires AllLeftProperly(a) && AllLeftProperly(b)
    ensures AllLeftProperly(a + b)
  {
    var c := a + b;
    forall i | 0 <= i < |c| && c[i].PendingWritten?
      ensures LeftProperly(c, i)
    {
      if i < |a| {
        assert LeftProperly(a, i);
      } else {
        assert LeftProperly(b, i - |a|);
      }
    }
  }

  lemma RefreshIsProper(flags: Flags, s: State, env: Env)
    ensures var t := Refresh(flags, s, env).0;
            s.trace <= t.trace && AllLeftProperly(t.trace[|s.trace|..])
  {
  }

  lemma TurnIsProper(flags: Flags, s: State, env: Env)
    ensures var t := Turn(flags, s, env).0;
            s.trace <= t.trace && AllLeftProperly(t.trace[|s.trace|..])
  {
    RefreshIsProper(flags, s, env);
  }

  /** In every run each pending write comes directly after its configuration was written and
      gluetun restarted onto it, and directly before the process exits; and it exits nowhere else. */
  lemma {:induction false} PendingIsLeftProperly(flags: Flags, s: State, steps: seq<Step>)
    requires Initial(s)
    ensures AllLeftProperly(After(flags, s, steps).trace)
  {
    if steps != [] {
      var before, last := After(flags, s, steps[..|steps| - 1]), steps[|steps| - 1];
      PendingIsLeftProperly(flags, s, steps[..|steps| - 1]);
      match last
      case Rejoin => JoinedProperly(before.trace, [Joined]);
      case Loop(env) =>
        var after := Turn(flags, before, env).0;
        TurnIsProper(flags, before, env);
        JoinedProperly(before.trace, after.trace[|before.trace|..]);
        assert after.trace == before.trace + after.trace[|before.trace|..];
    }
  }
}
