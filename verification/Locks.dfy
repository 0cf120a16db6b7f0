/** The locks of the refresh daemon under any number of goroutines. */
module Locks {
  import opened Common

  datatype Lock = FlightMu | StateMu | PolicyMu

  /** What a goroutine does that others can notice: take or release a lock, enter or
      leave regenerateOnce, or write to the alert queue, which never waits. */
  datatype Action = Acquire(lock: Lock) | Release(lock: Lock) | EnterRegen | LeaveRegen | SendAlert

  // ----- The code as action sequences -----

  const STATE_BLOCK := [Acquire(StateMu), Release(StateMu)]
  const POLICY_BLOCK := [Acquire(PolicyMu), Release(PolicyMu)]

  /** flushStatus: buildStatus snapshots the policy first and then reads the state. */
  const FLUSH := POLICY_BLOCK + STATE_BLOCK

  const ARM := STATE_BLOCK + FLUSH

  function NoteFailed(fires: bool): seq<Action> {
    POLICY_BLOCK + if fires then [SendAlert] else []
  }

  function ObserveActions(healthy: bool, recovered: bool): seq<Action> {
    STATE_BLOCK + (if healthy then POLICY_BLOCK + (if recovered then [SendAlert] else []) else []) + FLUSH
  }

  /** One attempt inside the retry loop. */
  datatype Attempt = Succeeded(reactive: bool) | Failed(fires: bool)

  function AttemptActions(a: Attempt): seq<Action> {
    match a
    case Succeeded(reactive) =>
      [EnterRegen] + STATE_BLOCK + ARM + [LeaveRegen] + if reactive then STATE_BLOCK + FLUSH else []
    case Failed(fires) => [EnterRegen, LeaveRegen] + STATE_BLOCK + FLUSH + NoteFailed(fires)
  }

  function AttemptsActions(attempts: seq<Attempt>): seq<Action> {
    if attempts == [] then [] else AttemptActions(attempts[0]) + AttemptsActions(attempts[1..])
  }

  function RegenerateActions(attempts: seq<Attempt>): seq<Action> {
    [Acquire(FlightMu)] + AttemptsActions(attempts) + [Release(FlightMu)]
  }

  /** What a goroutine runs: a regeneration, a health tick or a status flush. */
  datatype Call =
    | Regenerate(attempts: seq<Attempt>)
    | HealthyTick(recovered: bool)
    | UnhealthyTick
    | RecoveringTick(ineffective: bool, fires: bool, attempts: seq<Attempt>)
    | Flush

  function Program(c: Call): seq<Action> {
    match c
    case Regenerate(attempts) => RegenerateActions(attempts)
    case HealthyTick(recovered) => ObserveActions(true, recovered)
    case UnhealthyTick => ObserveActions(false, false) + STATE_BLOCK
    case RecoveringTick(ineffective, fires, attempts) =>
      ObserveActions(false, false) + STATE_BLOCK + STATE_BLOCK
      + (if ineffective then NoteFailed(fires) else []) + STATE_BLOCK + RegenerateActions(attempts)
    case Flush => FLUSH
  }

  // ----- The discipline the code follows -----

  predicate Permits(held: set<Lock>, inRegen: bool, a: Action) {
    match a
    case Acquire(FlightMu) => held == {}
    case Acquire(_) => held <= {FlightMu}
    case Release(FlightMu) => held == {FlightMu} && !inRegen
    case Release(lock) => lock in held
    case EnterRegen => held == {FlightMu} && !inRegen
    case LeaveRegen => held == {FlightMu} && inRegen
    case SendAlert => true
  }

  function Held(held: set<Lock>, a: Action): set<Lock> {
    match a
    case Acquire(lock) => held + {lock}
    case Release(lock) => held - {lock}
    case _ => held
  }

  function InRegen(inRegen: bool, a: Action): bool {
    match a
    case EnterRegen => true
    case LeaveRegen => false
    case _ => inRegen
  }

  /** The rest of a program is safe to run from here, and ends holding nothing. */
  predicate Disciplined(held: set<Lock>, inRegen: bool, rest: seq<Action>)
    decreases rest
  {
    if rest == [] then held == {} && !inRegen
    else Permits(held, inRegen, rest[0]) && Disciplined(Held(held, rest[0]), InRegen(inRegen, rest[0]), rest[1..])
  }

  /** A stretch that returns to what was held before it can be put in front. */
  predicate Neutral(held: set<Lock>, inRegen: bool, part: seq<Action>, now: set<Lock>, regen: bool)
    decreases part
  {
    if part == [] then held == now && inRegen == regen
    else Permits(now, regen, part[0]) && Neutral(held, inRegen, part[1..], Held(now, part[0]), InRegen(regen, part[0]))
  }

  lemma {:induction false} Prepend(held: set<Lock>, inRegen: bool, part: seq<Action>, now: set<Lock>,
                                   regen: bool, rest: seq<Action>)
    requires Neutral(held, inRegen, part, now, regen) && Disciplined(held, inRegen, rest)
    ensures Disciplined(now, regen, part + rest)
    decreases part
  {
    if part == [] {
      assert part + rest == rest;
    } else {
      Prepend(held, inRegen, part[1..], Held(now, part[0]), InRegen(regen, part[0]), rest);
      assert (part + rest)[0] == part[0] && (part + rest)[1..] == part[1..] + rest;
    }
  }

  lemma {:induction false} NeutralJoins(held: set<Lock>, inRegen: bool, a: seq<Action>, b: seq<Action>,
                                        now: set<Lock>, regen: bool)
    requires Neutral(held, inRegen, a, now, regen) && Neutral(held, inRegen, b, held, inRegen)
    ensures Neutral(held, inRegen, a + b, now, regen)
    decreases a
  {
    if a == [] {
      assert a + b == b;
    } else {
      NeutralJoins(held, inRegen, a[1..], b, Held(now, a[0]), InRegen(regen, a[0]));
      assert (a + b)[0] == a[0] && (a + b)[1..] == a[1..] + b;
    }
  }

  predicate Balanced(held: set<Lock>, inRegen: bool, part: seq<Action>) {
    Neutral(held, inRegen, part, held, inRegen)
  }

  lemma BlockIsBalanced(held: set<Lock>, inRegen: bool, lock: Lock)
    requires held <= {FlightMu} && lock != FlightMu
    ensures Balanced(held, inRegen, [Acquire(lock), Release(lock)])
  {
    var block := [Acquire(lock), Release(lock)];
    assert block[1..] == [Release(lock)] && block[1..][1..] == [];
    assert Held(Held(held, Acquire(lock)), Release(lock)) == held;
  }

  lemma SmallBlocks(held: set<Lock>, inRegen: bool)
    requires held <= {FlightMu}
    ensures Balanced(held, inRegen, STATE_BLOCK) && Balanced(held, inRegen, POLICY_BLOCK)
    ensures Balanced(held, inRegen, FLUSH) && Balanced(held, inRegen, ARM)
    ensures Balanced(held, inRegen, [SendAlert]) && Balanced(held, inRegen, [])
  {
    BlockIsBalanced(held, inRegen, StateMu);
    BlockIsBalanced(held, inRegen, PolicyMu);
    NeutralJoins(held, inRegen, POLICY_BLOCK, STATE_BLOCK, held, inRegen);
    NeutralJoins(held, inRegen, STATE_BLOCK, FLUSH, held, inRegen);
    assert [SendAlert][1..] == [];
  }

  lemma NoteFailedIsBalanced(held: set<Lock>, inRegen: bool, fires: bool)
    requires held <= {FlightMu}
    ensures Balanced(held, inRegen, NoteFailed(fires))
  {
    SmallBlocks(held, inRegen);
    NeutralJoins(held, inRegen, POLICY_BLOCK, if fires then [SendAlert] else [], held, inRegen);
  }

  lemma {:induction false} NeutralThen(held: set<Lock>, inRegen: bool, a: seq<Action>, now: set<Lock>, regen: bool,
                                       end: set<Lock>, endRegen: bool, b: seq<Action>)
    requires Neutral(held, inRegen, a, now, regen) && Neutral(end, endRegen, b, held, inRegen)
    ensures Neutral(end, endRegen, a + b, now, regen)
    decreases a
  {
    if a == [] {
      assert a + b == b;
    } else {
      NeutralThen(held, inRegen, a[1..], Held(now, a[0]), InRegen(regen, a[0]), end, endRegen, b);
      assert (a + b)[0] == a[0] && (a + b)[1..] == a[1..] + b;
    }
  }

  /** Entering and leaving regenerateOnce around a balanced stretch. */
  lemma RegenIsBalanced(inside: seq<Action>)
    requires Balanced({FlightMu}, true, inside)
    ensures Balanced({FlightMu}, false, [EnterRegen] + inside + [LeaveRegen])
  {
    var all := [EnterRegen] + inside + [LeaveRegen];
    assert all[0] == EnterRegen && all[1..] == inside + [LeaveRegen];
    assert [LeaveRegen][1..] == [];
    assert Neutral({FlightMu}, false, [LeaveRegen], {FlightMu}, true);
    NeutralThen({FlightMu}, true, inside, {FlightMu}, true, {FlightMu}, false, [LeaveRegen]);
  }

  lemma AttemptIsBalanced(a: Attempt)
    ensures Balanced({FlightMu}, false, AttemptActions(a))
  {
    var f := {FlightMu};
    SmallBlocks(f, true);
    SmallBlocks(f, false);
    match a
    case Succeeded(reactive) =>
      var inside := STATE_BLOCK + ARM;
      NeutralJoins(f, true, STATE_BLOCK, ARM, f, true);
      RegenIsBalanced(inside);
      var tail := if reactive then STATE_BLOCK + FLUSH else [];
      NeutralJoins(f, false, STATE_BLOCK, FLUSH, f, false);
      NeutralJoins(f, false, [EnterRegen] + inside + [LeaveRegen], tail, f, false);
      assert AttemptActions(a) == [EnterRegen] + inside + [LeaveRegen] + tail;
    case Failed(fires) =>
      RegenIsBalanced([]);
      NoteFailedIsBalanced(f, false, fires);
      NeutralJoins(f, false, STATE_BLOCK + FLUSH, NoteFailed(fires), f, false) by {
        NeutralJoins(f, false, STATE_BLOCK, FLUSH, f, false);
      }
      var tail := STATE_BLOCK + FLUSH + NoteFailed(fires);
      NeutralJoins(f, false, [EnterRegen] + [] + [LeaveRegen], tail, f, false);
      assert AttemptActions(a) == [EnterRegen] + [] + [LeaveRegen] + tail;
  }

  lemma {:induction false} AttemptsAreBalanced(attempts: seq<Attempt>)
    ensures Balanced({FlightMu}, false, AttemptsActions(attempts))
  {
    if attempts != [] {
      AttemptIsBalanced(attempts[0]);
      AttemptsAreBalanced(attempts[1..]);
      NeutralJoins({FlightMu}, false, AttemptActions(attempts[0]), AttemptsActions(attempts[1..]), {FlightMu}, false);
    }
  }

  lemma RegenerateIsBalanced(attempts: seq<Attempt>)
    ensures Balanced({}, false, RegenerateActions(attempts))
  {
    var inner, all := AttemptsActions(attempts), RegenerateActions(attempts);
    AttemptsAreBalanced(attempts);
    assert all[0] == Acquire(FlightMu) && all[1..] == inner + [Release(FlightMu)];
    assert [Release(FlightMu)][1..] == [];
    assert Held({FlightMu}, Release(FlightMu)) == {} && Held({}, Acquire(FlightMu)) == {FlightMu};
    assert Neutral({}, false, [Release(FlightMu)], {FlightMu}, false);
    NeutralThen({FlightMu}, false, inner, {FlightMu}, false, {}, false, [Release(FlightMu)]);
  }

  lemma ObserveIsBalanced(healthy: bool, recovered: bool)
    ensures Balanced({}, false, ObserveActions(healthy, recovered))
  {
    SmallBlocks({}, false);
    var sends := if recovered then [SendAlert] else [];
    var middle := if healthy then POLICY_BLOCK + sends else [];
    NeutralJoins({}, false, POLICY_BLOCK, sends, {}, false);
    NeutralJoins({}, false, STATE_BLOCK, middle, {}, false);
    NeutralJoins({}, false, STATE_BLOCK + middle, FLUSH, {}, false);
  }

  /** Every call of the daemon follows the discipline. */
  lemma CallsAreDisciplined(c: Call)
    ensures Disciplined({}, false, Program(c))
  {
    assert Balanced({}, false, Program(c)) by {
      SmallBlocks({}, false);
      match c
      case Regenerate(attempts) => RegenerateIsBalanced(attempts);
      case HealthyTick(recovered) => ObserveIsBalanced(true, recovered);
      case UnhealthyTick =>
        ObserveIsBalanced(false, false);
        NeutralJoins({}, false, ObserveActions(false, false), STATE_BLOCK, {}, false);
      case RecoveringTick(ineffective, fires, attempts) =>
        var noted := if ineffective then NoteFailed(fires) else [];
        ObserveIsBalanced(false, false);
        NoteFailedIsBalanced({}, false, fires);
        RegenerateIsBalanced(attempts);
        var a := ObserveActions(false, false) + STATE_BLOCK;
        NeutralJoins({}, false, ObserveActions(false, false), STATE_BLOCK, {}, false);
        NeutralJoins({}, false, a, STATE_BLOCK, {}, false);
        NeutralJoins({}, false, a + STATE_BLOCK, noted, {}, false);
        NeutralJoins({}, false, a + STATE_BLOCK + noted, STATE_BLOCK, {}, false);
        NeutralJoins({}, false, a + STATE_BLOCK + noted + STATE_BLOCK, RegenerateActions(attempts), {}, false);
      case Flush =>
    }
    Prepend({}, false, Program(c), {}, false, []);
    assert Program(c) + [] == Program(c);
  }

  // ----- Every interleaving -----

  datatype Thread = Thread(held: set<Lock>, inRegen: bool, rest: seq<Action>)

  type System = seq<Thread>

  function Spawned(calls: seq<Call>): System {
    seq(|calls|, i requires 0 <= i < |calls| => Thread({}, false, Program(calls[i])))
  }

  predicate Free(sys: System, lock: Lock) {
    forall t | t in sys :: lock !in t.held
  }

  /** A goroutine can move unless it is done or waits for a lock somebody holds. */
  predicate CanMove(sys: System, i: nat) {
    i < |sys| && sys[i].rest != [] && (sys[i].rest[0].Acquire? ==> Free(sys, sys[i].rest[0].lock))
  }

  function Moved(t: Thread): Thread
    requires t.rest != []
  {
    Thread(Held(t.held, t.rest[0]), InRegen(t.inRegen, t.rest[0]), t.rest[1..])
  }

  /** A goroutine that cannot move waits. */
  function Next(sys: System, i: nat): System {
    if CanMove(sys, i) then sys[i := Moved(sys[i])] else sys
  }

  function After(sys: System, schedule: seq<nat>): System {
    if schedule == [] then sys
    else Next(After(sys, schedule[..|schedule| - 1]), schedule[|schedule| - 1])
  }

  /** The state and policy locks are never held together, and regenerateOnce runs under FlightMu. */
  predicate Proper(t: Thread) {
    !(StateMu in t.held && PolicyMu in t.held) && (t.inRegen ==> FlightMu in t.held)
  }

  ghost predicate Sane(sys: System) {
    && (forall i | 0 <= i < |sys| :: Disciplined(sys[i].held, sys[i].inRegen, sys[i].rest) && Proper(sys[i]))
    && (forall i, j, lock | 0 <= i < j < |sys| && lock in sys[i].held :: lock !in sys[j].held)
  }

  lemma NextKeepsSane(sys: System, i: nat)
    requires Sane(sys)
    ensures Sane(Next(sys, i))
  {
    if CanMove(sys, i) {
      var t, t', sys' := sys[i], Moved(sys[i]), Next(sys, i);
      assert Permits(t.held, t.inRegen, t.rest[0]);
      assert Disciplined(t'.held, t'.inRegen, t'.rest) && Proper(t');
      forall j, lock | 0 <= j < |sys| && j != i && lock in t'.held
        ensures lock !in sys[j].held
      {
        if lock !in t.held {
          assert sys[j] in sys;
        }
      }
    }
  }

  lemma {:induction false} AlwaysSane(calls: seq<Call>, schedule: seq<nat>)
    ensures Sane(After(Spawned(calls), schedule))
  {
    if schedule == [] {
      forall i | 0 <= i < |calls|
        ensures Disciplined({}, false, Program(calls[i]))
      {
        CallsAreDisciplined(calls[i]);
      }
    } else {
      AlwaysSane(calls, schedule[..|schedule| - 1]);
      NextKeepsSane(After(Spawned(calls), schedule[..|schedule| - 1]), schedule[|schedule| - 1]);
    }
  }

  /** In every interleaving of any number of calls, at most one goroutine is inside
      regenerateOnce; none waits for FlightMu while holding another lock; and none
      holds both the state lock and the policy lock. */
  lemma {:induction false} SingleFlight(calls: seq<Call>, schedule: seq<nat>)
    ensures var sys := After(Spawned(calls), schedule);
            && (forall i, j | 0 <= i < |sys| && 0 <= j < |sys| && sys[i].inRegen && sys[j].inRegen :: i == j)
            && (forall t | t in sys && t.rest != [] && t.rest[0] == Acquire(FlightMu) :: t.held == {})
            && (forall t | t in sys :: !(StateMu in t.held && PolicyMu in t.held))
  {
    AlwaysSane(calls, schedule);
    var sys := After(Spawned(calls), schedule);
    forall i, j | 0 <= i < |sys| && 0 <= j < |sys| && sys[i].inRegen && sys[j].inRegen
      ensures i == j
    {
      assert FlightMu in sys[i].held && FlightMu in sys[j].held;
    }
    forall t | t in sys && t.rest != [] && t.rest[0] == Acquire(FlightMu)
      ensures t.held == {}
    {
      assert Permits(t.held, t.inRegen, t.rest[0]);
    }
  }

  lemma OnlyFlight(held: set<Lock>)
    requires held != {} && StateMu !in held && PolicyMu !in held
    ensures held == {FlightMu}
  {
    var lock :| lock in held;
    assert forall l | l in held :: l == FlightMu;
  }

  /** A goroutine that holds a lock other than FlightMu is about to do something
      that never waits; so is one that holds FlightMu, unless it wants a free lock. */
  lemma HolderMoves(sys: System, i: nat)
    requires Sane(sys) && i < |sys| && sys[i].held != {}
    requires sys[i].held == {FlightMu} ==> Free(sys, StateMu) && Free(sys, PolicyMu)
    ensures CanMove(sys, i)
  {
    var t := sys[i];
    assert t.rest != [] && Permits(t.held, t.inRegen, t.rest[0]);
    if StateMu !in t.held && PolicyMu !in t.held {
      OnlyFlight(t.held);
    }
  }

  /** No reachable state is deadlocked: while any goroutine has work left, some
      goroutine can move. */
  lemma {:induction false} NeverDeadlocked(calls: seq<Call>, schedule: seq<nat>)
    ensures var sys := After(Spawned(calls), schedule);
            (exists t | t in sys :: t.rest != []) ==> exists i :: CanMove(sys, i)
  {
    AlwaysSane(calls, schedule);
    var sys := After(Spawned(calls), schedule);
    if t :| t in sys && t.rest != [] {
      if !Free(sys, StateMu) || !Free(sys, PolicyMu) {
        var h :| h in sys && (StateMu in h.held || PolicyMu in h.held);
        var i :| 0 <= i < |sys| && sys[i] == h;
        HolderMoves(sys, i);
      } else if !Free(sys, FlightMu) {
        var h :| h in sys && FlightMu in h.held;
        var i :| 0 <= i < |sys| && sys[i] == h;
        OnlyFlight(h.held);
        HolderMoves(sys, i);
      } else {
        var i :| 0 <= i < |sys| && sys[i] == t;
        assert CanMove(sys, i);
      }
    }
  }
}
