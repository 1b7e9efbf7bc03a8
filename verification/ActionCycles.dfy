/** Dependency cycles: when they can run again, and runs that come to them. */
module ActionCycles {
  import opened ActionScheduler
  import opened ActionWaiting
  import opened ActionClock

  /** Scheduled actions that each depend on the next one round. */
  predicate Cycle(s: Core, ids: seq<nat>) {
    ids != [] && forall i :: 0 <= i < |ids| ==> ids[i] in s.schedule && After(ids, i) in s.schedule[ids[i]].deps
  }

  function After(ids: seq<nat>, i: nat): (n: nat)
    requires i < |ids|
    ensures n in ids
  {
    if i + 1 < |ids| then ids[i + 1] else ids[0]
  }

  predicate SomeDone(s: Core, ids: seq<nat>) {
    exists i :: 0 <= i < |ids| && Done(s, ids[i])
  }

  lemma CycleIsStuck(s: Core, ids: seq<nat>)
    requires Cycle(s, ids) && Calm(s) && !SomeDone(s, ids)
    ensures Stuck(s, set i | i in ids)
  {
    var c := set i | i in ids;
    forall id | id in c ensures id < s.nextId && !Done(s, id) && WaitsFor(s, id, c) {
      var i :| 0 <= i < |ids| && ids[i] == id;
      assert After(ids, i) in s.schedule[id].deps && After(ids, i) in c;
    }
  }

  /** In every run, a cycle of actions none of which has completed yet never runs. */
  lemma CycleNeverRuns(ops: seq<Op>, more: seq<Op>, ids: seq<nat>)
    requires Cycle(Run(ops).0, ids) && !SomeDone(Run(ops).0, ids)
    ensures GoesOn(Run(ops).1, Run(ops + more).1, set i | i in ids)
  {
    CalmRun(ops);
    CycleIsStuck(Run(ops).0, ids);
    StuckForever(ops, more, set i | i in ids);
  }

  /** One of the actions runs in what follows the run. */
  predicate RunsOneIn(ops: seq<Op>, more: seq<Op>, ids: seq<nat>) {
    !GoesOn(Run(ops).1, Run(ops + more).1, set i | i in ids)
  }

  lemma RunsOneHas(ops: seq<Op>, more: seq<Op>, ids: seq<nat>) returns (i: nat)
    requires RunsOneIn(ops, more, ids)
    ensures i < |ids| && RunsIn(ops, more, ids[i])
  {
    var log := Play(Run(ops).0, more).1;
    GoesOnIs(ops, more, set i | i in ids);
    var k :| 0 <= k < |log| && log[k].id in ids;
    i :| 0 <= i < |ids| && ids[i] == log[k].id;
    assert InLog(log, ids[i]);
    RunsInIs(ops, more, ids[i]);
  }

  lemma RunsInOne(ops: seq<Op>, more: seq<Op>, ids: seq<nat>, i: nat)
    requires i < |ids| && RunsIn(ops, more, ids[i])
    ensures RunsOneIn(ops, more, ids)
  {
    GoesOnIs(ops, more, set i | i in ids);
    RunsInIs(ops, more, ids[i]);
  }

  ghost predicate CanRunAgain(ops: seq<Op>, ids: seq<nat>) {
    exists more :: RunsOneIn(ops, more, ids)
  }

  ghost predicate CanRunAgainFrom(ops: seq<Op>, now: int, ids: seq<nat>) {
    exists more, times :: Steady(more, times) && times[0] == now && RunsOneIn(ops, more, ids)
  }

  /** Nothing that the scheduled action waits for is stuck. */
  ghost predicate Unblocked(s: Core, x: nat) {
    x in s.schedule && forall d :: d in s.schedule[x].deps ==> !Hopeless(s, d)
  }

  lemma CycleUnblocked(ops: seq<Op>, more: seq<Op>, ids: seq<nat>) returns (i: nat)
    requires Cycle(Run(ops).0, ids) && RunsOneIn(ops, more, ids)
    ensures i < |ids| && Unblocked(Run(ops).0, ids[i])
  {
    i := RunsOneHas(ops, more, ids);
    assert CanRun(ops, ids[i]);
    CanRunIff(ops, ids[i]);
  }

  lemma UnblockedCycle(ops: seq<Op>, ids: seq<nat>, i: nat) returns (more: seq<Op>)
    requires i < |ids| && Unblocked(Run(ops).0, ids[i])
    ensures RunsOneIn(ops, more, ids)
  {
    CanRunIff(ops, ids[i]);
    more :| RunsIn(ops, more, ids[i]);
    RunsInOne(ops, more, ids, i);
  }

  ghost predicate SomeUnblocked(s: Core, ids: seq<nat>) {
    exists i :: 0 <= i < |ids| && Unblocked(s, ids[i])
  }

  /** In every run, a dependency cycle can run again exactly when one of its actions waits for nothing that is stuck. */
  lemma CycleRunsIff(ops: seq<Op>, ids: seq<nat>)
    requires Cycle(Run(ops).0, ids)
    ensures CanRunAgain(ops, ids) <==> SomeUnblocked(Run(ops).0, ids)
  {
    if CanRunAgain(ops, ids) {
      var more :| RunsOneIn(ops, more, ids);
      var i := CycleUnblocked(ops, more, ids);
    }
    if SomeUnblocked(Run(ops).0, ids) {
      var i :| 0 <= i < |ids| && Unblocked(Run(ops).0, ids[i]);
      var more := UnblockedCycle(ops, ids, i);
    }
  }

  lemma CycleInstant(ops: seq<Op>, now: int, more: seq<Op>, times: seq<int>, ids: seq<nat>) returns (i: nat)
    requires Cycle(Run(ops).0, ids) && Steady(more, times) && times[0] == now && RunsOneIn(ops, more, ids)
    ensures i < |ids| && ids[i] in Run(ops).0.schedule && HasInstant(Run(ops).0, now, ids[i])
  {
    i := RunsOneHas(ops, more, ids);
    assert CanRunFrom(ops, now, ids[i]);
    CanRunFromIff(ops, now, ids[i]);
  }

  lemma InstantCycle(ops: seq<Op>, now: int, ids: seq<nat>, i: nat) returns (more: seq<Op>, times: seq<int>)
    requires i < |ids| && ids[i] in Run(ops).0.schedule && HasInstant(Run(ops).0, now, ids[i])
    ensures Steady(more, times) && times[0] == now && RunsOneIn(ops, more, ids)
  {
    CanRunFromIff(ops, now, ids[i]);
    more, times :| Steady(more, times) && times[0] == now && RunsIn(ops, more, ids[i]);
    RunsInOne(ops, more, ids, i);
  }

  ghost predicate SomeInstant(s: Core, now: int, ids: seq<nat>) {
    exists i :: 0 <= i < |ids| && ids[i] in s.schedule && HasInstant(s, now, ids[i])
  }

  /** And on a clock that never goes back, exactly when one of them has an instant at which it can run. */
  lemma CycleRunsFromIff(ops: seq<Op>, now: int, ids: seq<nat>)
    requires Cycle(Run(ops).0, ids)
    ensures CanRunAgainFrom(ops, now, ids) <==> SomeInstant(Run(ops).0, now, ids)
  {
    if CanRunAgainFrom(ops, now, ids) {
      var more, times :| Steady(more, times) && times[0] == now && RunsOneIn(ops, more, ids);
      var i := CycleInstant(ops, now, more, times, ids);
    }
    if SomeInstant(Run(ops).0, now, ids) {
      var i :| 0 <= i < |ids| && ids[i] in Run(ops).0.schedule && HasInstant(Run(ops).0, now, ids[i]);
      var more, times := InstantCycle(ops, now, ids, i);
    }
  }

  /** A cycle of actions with no other dependency. */
  predicate PlainCycle(s: Core, ids: seq<nat>) {
    Cycle(s, ids) && forall i :: 0 <= i < |ids| ==> s.schedule[ids[i]].deps == [After(ids, i)]
  }

  lemma AfterBefore(ids: seq<nat>, i: nat) returns (j: nat)
    requires i < |ids|
    ensures j < |ids| && After(ids, j) == ids[i]
  {
    j := if i > 0 then i - 1 else |ids| - 1;
  }

  lemma OneDoneUnblocks(s: Core, x: nat, d: nat)
    requires x in s.schedule && s.schedule[x].deps == [d] && Done(s, d)
    ensures Unblocked(s, x)
  {
    forall c | Stuck(s, c) ensures d !in c {}
  }

  lemma DoneUnblocks(s: Core, ids: seq<nat>)
    requires PlainCycle(s, ids) && SomeDone(s, ids)
    ensures SomeUnblocked(s, ids)
  {
    var i :| 0 <= i < |ids| && Done(s, ids[i]);
    var j := AfterBefore(ids, i);
    OneDoneUnblocks(s, ids[j], ids[i]);
  }

  lemma NoneDoneBlocks(s: Core, ids: seq<nat>)
    requires Cycle(s, ids) && Calm(s) && !SomeDone(s, ids)
    ensures !SomeUnblocked(s, ids)
  {
    CycleIsStuck(s, ids);
    forall i | 0 <= i < |ids| ensures !Unblocked(s, ids[i]) {
      assert Hopeless(s, After(ids, i));
    }
  }

  /** Without other dependencies, a cycle can run again exactly when one of its actions is recorded as completed. */
  lemma PlainCycleRunsIff(ops: seq<Op>, ids: seq<nat>)
    requires PlainCycle(Run(ops).0, ids)
    ensures CanRunAgain(ops, ids) <==> SomeDone(Run(ops).0, ids)
  {
    CycleRunsIff(ops, ids);
    CalmRun(ops);
    if SomeDone(Run(ops).0, ids) { DoneUnblocks(Run(ops).0, ids); } else { NoneDoneBlocks(Run(ops).0, ids); }
  }

  // ---- Runs that come to such cycles

  /** A periodic action that is due when it is scheduled. */
  function Periodic(now: int): Action {
    Action("", now, 0, [], [], 0, true, 1)
  }

  /** One run of action 1 at instant 0; it is due again at 1, when action 2 is scheduled. */
  function OneCompleted(): Core {
    Core(map[1 := Periodic(1), 2 := Periodic(1)], map[], map[1 := Completed], 3, 1000)
  }

  lemma ScheduledOne(op: Op)
    requires op == ScheduleOp(Periodic(0), true)
    ensures Run([op]).0 == Core(map[1 := Periodic(0)], map[], map[], 2, 1000)
  {
    RunAppend([], op);
    assert [] + [op] == [op];
    assert Run([op]).0.schedule == map[1 := Periodic(0)];
  }

  lemma TickOfOne(s: Core, readings: map<nat, int>, x: Slot)
    requires s == Core(map[1 := Periodic(0)], map[], map[], 2, 1000)
    requires readings == map[1 := 0] && x == Slot(1, 0, Completed, 0)
    ensures DueOrder(s, readings, [x])
    ensures Tick(s, [x]).0 == Core(map[1 := Periodic(1)], map[], map[1 := Completed], 2, 1000)
  {
    assert [x][..0] == [];
    assert Turns(Progress(s, {}, []), [x]) == Turn(Progress(s, {}, []), x);
    assert [x][0].id == 1;
    assert Tick(s, [x]).0.schedule == map[1 := Periodic(1)];
  }

  lemma ScheduledTwo(ops: seq<Op>, op: Op)
    requires Run(ops).0 == Core(map[1 := Periodic(1)], map[], map[1 := Completed], 2, 1000)
    requires op == ScheduleOp(Periodic(1), true)
    ensures Run(ops + [op]).0 == OneCompleted()
  {
    RunAppend(ops, op);
    assert Run(ops + [op]).0.schedule == OneCompleted().schedule;
  }

  /** Schedule an action, run it, and schedule another, on a clock that reads 0 and then 1. */
  lemma ReachOneCompleted() returns (ops: seq<Op>)
    ensures Run(ops).0 == OneCompleted() && Steady(ops, [0, 0, 0, 1])
  {
    var first, readings, x := ScheduleOp(Periodic(0), true), map[1 := 0], Slot(1, 0, Completed, 0);
    var tick, second := TickOp(readings, [x]), ScheduleOp(Periodic(1), true);
    ScheduledOne(first);
    TickOfOne(Run([first]).0, readings, x);
    RunAppend([first], tick);
    ScheduledTwo([first] + [tick], second);
    ops := [first] + [tick] + [second];
    FirstSteady(first, tick, second, readings, x);
  }

  lemma FirstSteady(first: Op, tick: Op, second: Op, readings: map<nat, int>, x: Slot)
    requires first == ScheduleOp(Periodic(0), true) && second == ScheduleOp(Periodic(1), true)
    requires tick == TickOp(readings, [x]) && readings == map[1 := 0] && x == Slot(1, 0, Completed, 0)
    ensures Steady([first] + [tick] + [second], [0, 0, 0, 1])
  {
    assert OpSteady(first, 0, 0) && OpSteady(second, 0, 1);
    assert TickSteady(readings, [x], 0, 0);
    assert OpSteady(tick, 0, 0);
  }

  /** The two wait for each other. */
  function Entangled(): Core {
    OneCompleted().(schedule := map[1 := Periodic(1).(deps := [2]), 2 := Periodic(1).(deps := [1])])
  }

  lemma Entangle(ops: seq<Op>) returns (more: seq<Op>)
    requires Run(ops).0 == OneCompleted()
    ensures more == [DependOp(1, 2)] + [DependOp(2, 1)] && Run(ops + more).0 == Entangled()
  {
    more := [DependOp(1, 2)] + [DependOp(2, 1)];
    RunAppend(ops, DependOp(1, 2));
    RunAppend(ops + [DependOp(1, 2)], DependOp(2, 1));
    assert ops + more == (ops + [DependOp(1, 2)]) + [DependOp(2, 1)];
    EntangledState(OneCompleted(), Depend(OneCompleted(), 1, 2));
  }

  lemma EntangledState(s: Core, once: Core)
    requires s == OneCompleted() && once == Depend(s, 1, 2)
    ensures Depend(once, 2, 1) == Entangled()
  {
    var a := Periodic(1);
    assert a.deps + [2] == [2] && a.deps + [1] == [1];
    assert once.schedule == map[1 := a.(deps := [2]), 2 := a];
    assert Depend(once, 2, 1).schedule == Entangled().schedule;
  }

  lemma TwoInACycle(s: Core, a: nat, b: nat)
    requires a in s.schedule && s.schedule[a].deps == [b] && b in s.schedule && s.schedule[b].deps == [a]
    ensures PlainCycle(s, [a, b])
  {
    var ids := [a, b];
    assert b in s.schedule[a].deps && a in s.schedule[b].deps;
    forall i | 0 <= i < |ids|
      ensures ids[i] in s.schedule && s.schedule[ids[i]].deps == [After(ids, i)]
      ensures After(ids, i) in s.schedule[ids[i]].deps
    {
    }
  }

  /**
   Two periodic actions, one of which completes before the other is scheduled and each is made to depend on the other,
   can run again; the clock of this run never goes back.
   */
  lemma ReachedCycle() returns (ops: seq<Op>)
    ensures Steady(ops, [0, 0, 0, 1, 1, 1]) && PlainCycle(Run(ops).0, [1, 2]) && CanRunAgainFrom(ops, 1, [1, 2])
  {
    var first := ReachOneCompleted();
    var more := Entangle(first);
    ops := first + more;
    StillSteady(first, more);
    var s := Run(ops).0;
    TwoInACycle(s, 1, 2);
    EntangledRuns(ops, s);
  }

  lemma StillSteady(ops: seq<Op>, more: seq<Op>)
    requires Steady(ops, [0, 0, 0, 1]) && |more| == 2 && AllAt(more, 1)
    ensures Steady(ops + more, [0, 0, 0, 1, 1, 1])
  {
    var times, ts := [0, 0, 0, 1, 1, 1], [0, 0, 0, 1];
    forall i | 0 <= i < 5 ensures OpSteady((ops + more)[i], times[i], times[i + 1]) {
      if i < 3 { assert OpSteady(ops[i], ts[i], ts[i + 1]); } else { assert OpSteady(more[i - 3], 1, 1); }
    }
  }

  lemma EntangledRuns(ops: seq<Op>, s: Core)
    requires s == Run(ops).0 == Entangled() && Cycle(s, [1, 2])
    ensures CanRunAgainFrom(ops, 1, [1, 2])
  {
    OneDoneUnblocks(s, 2, 1);
    CanRunWithoutDeadlines(ops, 1, 2);
    var more, times :| Steady(more, times) && times[0] == 1 && RunsIn(ops, more, 2);
    RunsInOne(ops, more, [1, 2], 1);
  }

  /** The second also waits for a third, which was cancelled. */
  function Blocked(): Core {
    OneCompleted().(schedule := map[1 := Periodic(1).(deps := [2]), 2 := Periodic(1).(deps := [1, 3])],
                    completed := map[1 := Completed, 3 := Cancelled], nextId := 4)
  }

  lemma BlockedState(add: Core, dep: Core)
    requires add == Schedule(Entangled(), Periodic(1), true).0 && dep == Depend(add, 2, 3)
    ensures Cancel(dep, 3) == Blocked()
  {
    var a := Periodic(1);
    assert a.deps + [2] == [2] && [1] + [3] == [1, 3];
    assert add.schedule == map[1 := a.(deps := [2]), 2 := a.(deps := [1]), 3 := a];
    assert dep.schedule == map[1 := a.(deps := [2]), 2 := a.(deps := [1, 3]), 3 := a];
    assert Cancel(dep, 3).schedule == Blocked().schedule;
  }

  lemma ReachBlocked(ops: seq<Op>) returns (more: seq<Op>)
    requires Run(ops).0 == Entangled()
    ensures Run(more).0 == Blocked()
  {
    var add, dep, cancel := ScheduleOp(Periodic(1), true), DependOp(2, 3), CancelOp(3);
    RunAppend(ops, add);
    RunAppend(ops + [add], dep);
    RunAppend(ops + [add] + [dep], cancel);
    more := ops + [add] + [dep] + [cancel];
    var added := Schedule(Entangled(), Periodic(1), true).0;
    BlockedState(added, Depend(added, 2, 3));
  }

  lemma BlockedIsStuck(s: Core)
    requires s == Blocked()
    ensures Stuck(s, {2, 3})
  {
    assert 3 in s.schedule[2].deps by { assert s.schedule[2].deps[1] == 3; }
  }

  lemma BlockedIsCycle(s: Core)
    requires s == Blocked()
    ensures Cycle(s, [1, 2]) && SomeDone(s, [1, 2])
    ensures 2 in s.schedule[1].deps && 3 in s.schedule[2].deps
  {
    var ids := [1, 2];
    assert s.schedule[1].deps[0] == 2 && s.schedule[2].deps[0] == 1 && s.schedule[2].deps[1] == 3;
    assert Done(s, ids[0]);
  }

  lemma TwoBlocked(s: Core, a: nat, d: nat, b: nat, e: nat)
    requires a in s.schedule && d in s.schedule[a].deps && Hopeless(s, d)
    requires b in s.schedule && e in s.schedule[b].deps && Hopeless(s, e)
    ensures !SomeUnblocked(s, [a, b])
  {
    assert !Unblocked(s, a) && !Unblocked(s, b);
  }

  /** A completed action on a cycle is not enough: if one of the cycle also waits for a cancelled action, none runs. */
  lemma CompletedNotEnough() returns (ops: seq<Op>)
    ensures Cycle(Run(ops).0, [1, 2]) && SomeDone(Run(ops).0, [1, 2]) && !CanRunAgain(ops, [1, 2])
  {
    var first := ReachOneCompleted();
    var more := Entangle(first);
    ops := ReachBlocked(first + more);
    var s := Run(ops).0;
    BlockedIsStuck(s);
    BlockedIsCycle(s);
    assert Hopeless(s, 2) && Hopeless(s, 3);
    TwoBlocked(s, 1, 2, 2, 3);
    CycleRunsIff(ops, [1, 2]);
  }
}
