/**
 The action scheduler: dependencies, resource locks and ticks, and what its runs keep. The executor's outcomes and the
 clock's readings are inputs of a tick.
 */
module ActionScheduler {
  datatype Status = Pending | Executing | Completed | Failed | Cancelled | TimedOut

  /** A deadline of 0 is none. */
  datatype Action = Action(kind: string, due: int, deadline: int, deps: seq<nat>, needs: seq<string>, priority: int,
                           periodic: bool, period: int)

  datatype Core = Core(schedule: map<nat, Action>, locks: map<string, nat>, completed: map<nat, Status>, nextId: nat,
                       maxScheduled: nat)

  /** One due action's turn in a tick: the reading for its deadline, its outcome if it runs, and the reading after. */
  datatype Slot = Slot(id: nat, at: int, outcome: Status, after: int)

  /** A run of an action, with what it was then and the reading for its deadline. */
  datatype Entry = Entry(id: nat, action: Action, at: int, outcome: Status)

  // ---- Operations

  /** Schedules an action; 0 is a refusal. */
  function Schedule(s: Core, a: Action, known: bool): (Core, nat) {
    if |s.schedule| >= s.maxScheduled || !known || (a.periodic && a.period <= 0) then (s, 0)
    else (s.(schedule := s.schedule[s.nextId := a], nextId := s.nextId + 1), s.nextId)
  }

  function Depend(s: Core, dependent: nat, prerequisite: nat): Core {
    if dependent !in s.schedule then s
    else
      var a := s.schedule[dependent];
      s.(schedule := s.schedule[dependent := a.(deps := a.deps + [prerequisite])])
  }

  function Acquire(locks: map<string, nat>, r: string, id: nat): map<string, nat> {
    if r in locks then locks else locks[r := id]
  }

  function Release(locks: map<string, nat>, r: string, id: nat): map<string, nat> {
    if r in locks && locks[r] == id then locks - {r} else locks
  }

  function AcquireAll(locks: map<string, nat>, rs: seq<string>, id: nat): map<string, nat> {
    if rs == [] then locks else Acquire(AcquireAll(locks, rs[..|rs| - 1], id), rs[|rs| - 1], id)
  }

  function ReleaseAll(locks: map<string, nat>, rs: seq<string>, id: nat): map<string, nat> {
    if rs == [] then locks else Release(ReleaseAll(locks, rs[..|rs| - 1], id), rs[|rs| - 1], id)
  }

  function Cancel(s: Core, id: nat): Core {
    if id !in s.schedule then s else s.(completed := s.completed[id := Cancelled], schedule := s.schedule - {id})
  }

  predicate Met(s: Core, a: Action) {
    forall i :: 0 <= i < |a.deps| ==> a.deps[i] in s.completed && s.completed[a.deps[i]] == Completed
  }

  predicate Available(s: Core, id: nat, a: Action) {
    forall i :: 0 <= i < |a.needs| ==> a.needs[i] in s.locks ==> s.locks[a.needs[i]] == id
  }

  predicate PastDeadline(a: Action, now: int) {
    a.deadline > 0 && now > a.deadline
  }

  /** A tick under way: the state, the ids to remove at its end, and what has run. */
  datatype Progress = Progress(core: Core, gone: set<nat>, log: seq<Entry>)

  predicate Runs(s: Core, x: Slot)
    requires x.id in s.schedule
  {
    var a := s.schedule[x.id];
    !PastDeadline(a, x.at) && Met(s, a) && Available(s, x.id, a)
  }

  function Turn(p: Progress, x: Slot): Progress
    requires x.id in p.core.schedule
  {
    var s := p.core;
    var a := s.schedule[x.id];
    if PastDeadline(a, x.at) then Progress(s.(completed := s.completed[x.id := Failed]), p.gone + {x.id}, p.log)
    else if !Runs(s, x) then p
    else
      var again := a.periodic && x.outcome == Completed;
      Progress(s.(locks := ReleaseAll(AcquireAll(s.locks, a.needs, x.id), a.needs, x.id),
                  completed := s.completed[x.id := x.outcome],
                  schedule := if again then s.schedule[x.id := a.(due := x.after + a.period)] else s.schedule),
               if again then p.gone else p.gone + {x.id},
               p.log + [Entry(x.id, a, x.at, x.outcome)])
  }

  function Turns(p: Progress, xs: seq<Slot>): (r: Progress)
    requires forall i :: 0 <= i < |xs| ==> xs[i].id in p.core.schedule
    ensures r.core.schedule.Keys == p.core.schedule.Keys
  {
    if xs == [] then p
    else
      var r := Turns(p, xs[..|xs| - 1]);
      assert xs[|xs| - 1].id in r.core.schedule.Keys;
      Turn(r, xs[|xs| - 1])
  }

  /** No action comes twice, and none before one of greater priority. */
  predicate Ordered(s: Core, xs: seq<Slot>) {
    && (forall i :: 0 <= i < |xs| ==> xs[i].id in s.schedule)
    && (forall i, j :: 0 <= i < j < |xs| ==>
          xs[i].id != xs[j].id && s.schedule[xs[i].id].priority >= s.schedule[xs[j].id].priority)
  }

  lemma InsertedHas(xs: seq<Slot>, i: nat, x: Slot)
    requires i <= |xs|
    ensures forall y :: y in xs[..i] + [x] + xs[i..] <==> y in xs || y == x
  {
    assert xs == xs[..i] + xs[i..];
  }

  lemma InsertedIsOrdered(s: Core, xs: seq<Slot>, i: nat, x: Slot)
    requires Ordered(s, xs) && i <= |xs| && x.id in s.schedule && forall k :: 0 <= k < |xs| ==> xs[k].id != x.id
    requires forall k :: 0 <= k < i ==> s.schedule[xs[k].id].priority >= s.schedule[x.id].priority
    requires i < |xs| ==> s.schedule[xs[i].id].priority <= s.schedule[x.id].priority
    ensures var ys := xs[..i] + [x] + xs[i..]; Ordered(s, ys) && forall y :: y in ys <==> y in xs || y == x
  {
    var ys := xs[..i] + [x] + xs[i..];
    InsertedHas(xs, i, x);
    forall j, k | 0 <= j < k < |ys|
      ensures ys[j].id in s.schedule && ys[k].id in s.schedule
      ensures ys[j].id != ys[k].id && s.schedule[ys[j].id].priority >= s.schedule[ys[k].id].priority
    {
      var a, b := if j < i then j else j - 1, if k < i then k else k - 1;
      if j != i { assert ys[j] == xs[a]; }
      if k != i { assert ys[k] == xs[b]; }
      if j != i && k != i { assert a < b; }
    }
  }

  /** The turns are those of the due actions, one each, by descending priority; equals may come in any order. */
  predicate DueOrder(s: Core, readings: map<nat, int>, xs: seq<Slot>) {
    && readings.Keys == s.schedule.Keys
    && (forall i :: 0 <= i < |xs| ==> xs[i].id in s.schedule && readings[xs[i].id] >= s.schedule[xs[i].id].due)
    && (forall id :: id in s.schedule && readings[id] >= s.schedule[id].due ==>
         exists i :: 0 <= i < |xs| && xs[i].id == id)
    && Ordered(s, xs)
  }

  /** A reading of the clock and a slot for each scheduled action. */
  predicate Readings(s: Core, readings: map<nat, int>, slots: map<nat, Slot>) {
    && readings.Keys == s.schedule.Keys && slots.Keys == s.schedule.Keys
    && forall id :: id in s.schedule ==> id < s.nextId && slots[id].id == id
  }

  lemma AllCollected(s: Core, readings: map<nat, int>, slots: map<nat, Slot>, xs: seq<Slot>)
    requires Readings(s, readings, slots) && Ordered(s, xs)
    requires forall y :: y in xs <==> y.id in s.schedule && y == slots[y.id] && readings[y.id] >= s.schedule[y.id].due
    ensures DueOrder(s, readings, xs)
  {
    forall i | 0 <= i < |xs| ensures readings[xs[i].id] >= s.schedule[xs[i].id].due { assert xs[i] in xs; }
    forall id | id in s.schedule && readings[id] >= s.schedule[id].due
      ensures exists i :: 0 <= i < |xs| && xs[i].id == id {
      assert slots[id] in xs;
    }
  }

  function Tick(s: Core, xs: seq<Slot>): (Core, seq<Entry>)
    requires forall i :: 0 <= i < |xs| ==> xs[i].id in s.schedule
  {
    var p := Turns(Progress(s, {}, []), xs);
    (p.core.(schedule := p.core.schedule - p.gone), p.log)
  }

  // ---- The object

  class Scheduler {
    var schedule: map<nat, Action>
    var locks: map<string, nat>
    var completed: map<nat, Status>
    var nextId: nat
    var maxScheduled: nat

    function State(): Core
      reads this
    {
      Core(schedule, locks, completed, nextId, maxScheduled)
    }

    constructor ()
      ensures State() == Core(map[], map[], map[], 1, 1000)
    {
      schedule, locks, completed, nextId, maxScheduled := map[], map[], map[], 1, 1000;
    }

    method ScheduleAt(kind: string, when: int, priority: int, known: bool) returns (id: nat)
      modifies this
      ensures (State(), id) == Schedule(old(State()), Action(kind, when, 0, [], [], priority, false, 0), known)
    {
      if |schedule| >= maxScheduled { return 0; }
      if !known { return 0; }
      id := nextId;
      nextId := nextId + 1;
      schedule := schedule[id := Action(kind, when, 0, [], [], priority, false, 0)];
    }

    method ScheduleBefore(kind: string, deadline: int, priority: int, known: bool, now: int) returns (id: nat)
      modifies this
      ensures (State(), id) == Schedule(old(State()), Action(kind, now, deadline, [], [], priority, false, 0), known)
    {
      if |schedule| >= maxScheduled { return 0; }
      if !known { return 0; }
      id := nextId;
      nextId := nextId + 1;
      schedule := schedule[id := Action(kind, now, deadline, [], [], priority, false, 0)];
    }

    method SchedulePeriodic(kind: string, period: int, priority: int, known: bool, now: int) returns (id: nat)
      modifies this
      ensures (State(), id) == Schedule(old(State()), Action(kind, now, 0, [], [], priority, true, period), known)
    {
      if |schedule| >= maxScheduled { return 0; }
      if !known { return 0; }
      if period <= 0 { return 0; }
      id := nextId;
      nextId := nextId + 1;
      schedule := schedule[id := Action(kind, now, 0, [], [], priority, true, period)];
    }

    method AddDependency(dependent: nat, prerequisite: nat) returns (ok: bool)
      modifies this
      ensures ok <==> dependent in old(schedule)
      ensures State() == Depend(old(State()), dependent, prerequisite)
      ensures State() == old(State()).(schedule := schedule)
      ensures schedule == if ok then var a := old(schedule)[dependent];
                                     old(schedule)[dependent := a.(deps := a.deps + [prerequisite])]
                          else old(schedule)
    {
      if dependent !in schedule { return false; }
      var a := schedule[dependent];
      schedule := schedule[dependent := a.(deps := a.deps + [prerequisite])];
      ok := true;
    }

    method AcquireResource(r: string, id: nat) returns (ok: bool)
      modifies this`locks
      ensures ok <==> r !in old(locks)
      ensures locks == Acquire(old(locks), r, id)
      ensures locks == if ok then old(locks)[r := id] else old(locks)
    {
      if r in locks { return false; }
      locks := locks[r := id];
      ok := true;
    }

    method ReleaseResource(r: string, id: nat)
      modifies this`locks
      ensures locks == Release(old(locks), r, id)
      ensures locks == if (r, id) in old(locks).Items then old(locks) - {r} else old(locks)
    {
      if r in locks && locks[r] == id { locks := locks - {r}; }
    }

    method AreDependenciesMet(a: Action) returns (met: bool)
      ensures met <==> Met(State(), a)
    {
      for i := 0 to |a.deps|
        invariant forall k :: 0 <= k < i ==> a.deps[k] in completed && completed[a.deps[k]] == Completed
      {
        if a.deps[i] !in completed { return false; }
        if completed[a.deps[i]] != Completed { return false; }
      }
      met := true;
    }

    method AreResourcesAvailable(id: nat, a: Action) returns (free: bool)
      ensures free <==> Available(State(), id, a)
    {
      for i := 0 to |a.needs|
        invariant forall k :: 0 <= k < i ==> a.needs[k] in locks ==> locks[a.needs[k]] == id
      {
        if a.needs[i] in locks && locks[a.needs[i]] != id { return false; }
      }
      free := true;
    }

    method CancelAction(id: nat) returns (ok: bool)
      modifies this
      ensures ok <==> id in old(schedule)
      ensures State() == Cancel(old(State()), id)
      ensures State() == if ok then old(State()).(completed := old(completed)[id := Cancelled],
                                                  schedule := old(schedule) - {id})
                         else old(State())
    {
      if id !in schedule { return false; }
      completed := completed[id := Cancelled];
      schedule := schedule - {id};
      ok := true;
    }

    /** Handles one due action; says whether it ran and whether it leaves the schedule. */
    method Handle(x: Slot, ghost p: Progress) returns (ran: bool, leaves: bool)
      requires x.id in schedule && p.core == State()
      modifies this
      ensures var q := Turn(p, x);
              && State() == q.core && q.gone == (if leaves then p.gone + {x.id} else p.gone)
              && |q.log| == |p.log| + if ran then 1 else 0
    {
      var a := schedule[x.id];
      if PastDeadline(a, x.at) {
        completed := completed[x.id := Failed];
        return false, true;
      }
      var met := AreDependenciesMet(a);
      var free := AreResourcesAvailable(x.id, a);
      if !met || !free { return false, false; }
      ghost var before := locks;
      for i := 0 to |a.needs|
        invariant locks == AcquireAll(before, a.needs[..i], x.id)
        invariant State() == old(State()).(locks := locks)
      {
        assert a.needs[..i + 1][..i] == a.needs[..i];
        var got := AcquireResource(a.needs[i], x.id);
      }
      assert a.needs[..|a.needs|] == a.needs;
      completed := completed[x.id := x.outcome];
      ghost var held := locks;
      ghost var during := State();
      for i := 0 to |a.needs|
        invariant locks == ReleaseAll(held, a.needs[..i], x.id)
        invariant State() == during.(locks := locks)
      {
        assert a.needs[..i + 1][..i] == a.needs[..i];
        ReleaseResource(a.needs[i], x.id);
      }
      if a.periodic && x.outcome == Completed {
        schedule := schedule[x.id := a.(due := x.after + a.period)];
        return true, false;
      }
      return true, true;
    }

    /** Puts a slot before the first one of smaller priority. */
    method InsertDue(xs: seq<Slot>, x: Slot) returns (ys: seq<Slot>)
      requires Ordered(State(), xs) && x.id in schedule && forall i :: 0 <= i < |xs| ==> xs[i].id != x.id
      ensures Ordered(State(), ys) && forall y :: y in ys <==> y in xs || y == x
    {
      var i := 0;
      while i < |xs| && schedule[xs[i].id].priority >= schedule[x.id].priority
        invariant i <= |xs|
        invariant forall k :: 0 <= k < i ==> schedule[xs[k].id].priority >= schedule[x.id].priority
      {
        i := i + 1;
      }
      ys := xs[..i] + [x] + xs[i..];
      InsertedIsOrdered(State(), xs, i, x);
    }

    /** The due actions' slots, collected by id and sorted by priority. */
    method CollectDue(readings: map<nat, int>, slots: map<nat, Slot>) returns (xs: seq<Slot>)
      requires Readings(State(), readings, slots)
      ensures DueOrder(State(), readings, xs)
      ensures forall y :: y in xs ==> y.id in schedule && y == slots[y.id]
    {
      xs := [];
      for id := 0 to nextId
        invariant Ordered(State(), xs)
        invariant forall y :: y in xs <==>
          y.id < id && y.id in schedule && y == slots[y.id] && readings[y.id] >= schedule[y.id].due
      {
        if id in schedule && readings[id] >= schedule[id].due {
          xs := InsertDue(xs, slots[id]);
        }
      }
      AllCollected(State(), readings, slots, xs);
    }

    /** The loop over the due actions. */
    method RunDue(xs: seq<Slot>) returns (executed: nat)
      requires forall i :: 0 <= i < |xs| ==> xs[i].id in schedule
      modifies this
      ensures State() == Tick(old(State()), xs).0
      ensures executed == |Tick(old(State()), xs).1|
    {
      executed := 0;
      var toRemove := {};
      ghost var p := Progress(State(), {}, []);
      ghost var q := p;
      for i := 0 to |xs|
        invariant q == Turns(p, xs[..i]) && q.core == State() && q.gone == toRemove && |q.log| == executed
        invariant schedule.Keys == p.core.schedule.Keys
      {
        assert xs[..i + 1][..i] == xs[..i];
        assert xs[i].id in p.core.schedule.Keys;
        var ran, leaves := Handle(xs[i], q);
        q := Turn(q, xs[i]);
        if ran { executed := executed + 1; }
        if leaves { toRemove := toRemove + {xs[i].id}; }
      }
      assert xs[..|xs|] == xs;
      schedule := schedule - toRemove;
    }

    method TickOnce(readings: map<nat, int>, slots: map<nat, Slot>) returns (executed: nat, xs: seq<Slot>)
      requires Readings(State(), readings, slots)
      modifies this
      ensures DueOrder(old(State()), readings, xs)
      ensures forall y :: y in xs ==> y == slots[y.id]
      ensures State() == Tick(old(State()), xs).0
      ensures executed == |Tick(old(State()), xs).1|
    {
      xs := CollectDue(readings, slots);
      executed := RunDue(xs);
    }
  }

  // ---- Runs

  datatype Op =
    | ScheduleOp(a: Action, known: bool)
    | DependOp(dependent: nat, prerequisite: nat)
    | AcquireOp(r: string, id: nat)
    | ReleaseOp(r: string, id: nat)
    | CancelOp(id: nat)
    | LimitOp(n: nat)
    | TickOp(readings: map<nat, int>, xs: seq<Slot>)

  /** New actions have no dependencies yet, periodic ones no deadline; a tick takes the due actions in order. */
  predicate Legal(s: Core, op: Op) {
    match op
    case ScheduleOp(a, _) => a.deps == [] && a.needs == [] && (a.periodic ==> a.deadline == 0)
    case TickOp(readings, xs) => DueOrder(s, readings, xs)
    case _ => true
  }

  /** The state after an operation and what ran in it. */
  function Apply(s: Core, op: Op): (Core, seq<Entry>)
    requires Legal(s, op)
  {
    match op
    case ScheduleOp(a, known) => (Schedule(s, a, known).0, [])
    case DependOp(d, p) => (Depend(s, d, p), [])
    case AcquireOp(r, id) => (s.(locks := Acquire(s.locks, r, id)), [])
    case ReleaseOp(r, id) => (s.(locks := Release(s.locks, r, id)), [])
    case CancelOp(id) => (Cancel(s, id), [])
    case LimitOp(n) => (s.(maxScheduled := n), [])
    case TickOp(_, xs) => Tick(s, xs)
  }

  const START := Core(map[], map[], map[], 1, 1000)

  /** One operation more; one that is not legal when its turn comes is left out. */
  function Stepped(s: Core, log: seq<Entry>, op: Op): (Core, seq<Entry>) {
    if Legal(s, op) then (Apply(s, op).0, log + Apply(s, op).1) else (s, log)
  }

  /** The state and log after a run. */
  function Run(ops: seq<Op>): (Core, seq<Entry>)
    decreases |ops|
  {
    if |ops| == 0 then (START, [])
    else
      var (s, log) := Run(ops[..|ops| - 1]);
      Stepped(s, log, ops[|ops| - 1])
  }

  lemma RunAppend(ops: seq<Op>, op: Op)
    ensures Run(ops + [op]) == Stepped(Run(ops).0, Run(ops).1, op)
  {
    var more := ops + [op];
    assert more[..|more| - 1] == ops && more[|more| - 1] == op;
  }

  // ---- What runs keep

  /** The last run of the id is the i-th. */
  predicate LastRun(log: seq<Entry>, id: nat, i: nat) {
    i < |log| && log[i].id == id && forall j :: i < j < |log| ==> log[j].id != id
  }

  /** The action has run, and completed the last time it did. */
  ghost predicate CompletedLast(log: seq<Entry>, id: nat) {
    exists i: nat :: LastRun(log, id, i) && log[i].outcome == Completed
  }

  /** Every dependency of the k-th run completed the last time it ran before. */
  ghost predicate DepsRan(log: seq<Entry>, k: nat)
    requires k < |log|
  {
    forall d :: d in log[k].action.deps ==> CompletedLast(log[..k], d)
  }

  ghost predicate Known(s: Core, log: seq<Entry>) {
    && s.nextId > 0
    && (forall id :: id in s.schedule ==> 0 < id < s.nextId)
    && (forall id :: id in s.completed ==> id < s.nextId)
    && (forall i :: 0 <= i < |log| ==> log[i].id < s.nextId)
  }

  /** What is recorded as completed completed the last time it ran. */
  ghost predicate Recorded(s: Core, log: seq<Entry>) {
    forall d :: d in s.completed && s.completed[d] == Completed ==> CompletedLast(log, d)
  }

  /** Only a periodic action that completed is still scheduled after a run. */
  predicate Again(s: Core, log: seq<Entry>, gone: set<nat>) {
    forall i :: 0 <= i < |log| && log[i].id in s.schedule && log[i].id !in gone ==>
      log[i].outcome == Completed && log[i].action.periodic && s.schedule[log[i].id].periodic
  }

  predicate RanAgain(log: seq<Entry>) {
    forall i, j :: 0 <= i < j < |log| && log[i].id == log[j].id ==>
      log[i].outcome == Completed && log[i].action.periodic
  }

  ghost predicate Safe(s: Core, log: seq<Entry>, gone: set<nat>) {
    && Known(s, log) && Recorded(s, log) && Again(s, log, gone) && RanAgain(log)
    && forall k :: 0 <= k < |log| ==> DepsRan(log, k)
  }

  lemma LogMore(log: seq<Entry>, e: Entry)
    requires forall k :: 0 <= k < |log| ==> DepsRan(log, k)
    requires forall d :: d in e.action.deps ==> CompletedLast(log, d)
    ensures forall k :: 0 <= k < |log| + 1 ==> DepsRan(log + [e], k)
  {
    var more := log + [e];
    forall k | 0 <= k < |more| ensures DepsRan(more, k) {
      assert more[..k] == log[..k];
      assert log[..|log|] == log;
      if k < |log| { assert DepsRan(log, k); }
    }
  }

  lemma RecordedMore(s: Core, log: seq<Entry>, e: Entry, completed: map<nat, Status>)
    requires Recorded(s, log) && completed == s.completed[e.id := e.outcome]
    ensures Recorded(s.(completed := completed), log + [e])
  {
    var more := log + [e];
    forall d | d in completed && completed[d] == Completed
      ensures CompletedLast(more, d)
    {
      if d == e.id {
        assert LastRun(more, d, |log|);
      } else {
        var i: nat :| LastRun(log, d, i) && log[i].outcome == Completed;
        assert LastRun(more, d, i);
      }
    }
  }

  /** One turn of a tick keeps the run safe; `early` ran before the tick. */
  lemma TurnSafe(p: Progress, x: Slot, early: seq<Entry>)
    requires x.id in p.core.schedule && x.id !in p.gone && Safe(p.core, early + p.log, p.gone)
    ensures var q := Turn(p, x); Safe(q.core, early + q.log, q.gone)
  {
    var s, log := p.core, early + p.log;
    var a := s.schedule[x.id];
    if !PastDeadline(a, x.at) && Runs(s, x) {
      var e := Entry(x.id, a, x.at, x.outcome);
      assert early + (p.log + [e]) == log + [e];
      RecordedMore(s, log, e, s.completed[x.id := x.outcome]);
      forall d | d in a.deps ensures CompletedLast(log, d) {
        var i :| 0 <= i < |a.deps| && a.deps[i] == d;
        assert d in s.completed && s.completed[d] == Completed;
      }
      LogMore(log, e);
    }
  }

  lemma {:induction false} TurnGone(p: Progress, xs: seq<Slot>, id: nat)
    requires forall i :: 0 <= i < |xs| ==> xs[i].id in p.core.schedule && xs[i].id != id
    ensures id in Turns(p, xs).gone <==> id in p.gone
  {
    if xs != [] { TurnGone(p, xs[..|xs| - 1], id); }
  }

  lemma {:induction false} TurnsSafe(p: Progress, xs: seq<Slot>, early: seq<Entry>)
    requires p.gone == {} && Safe(p.core, early + p.log, {})
    requires forall i :: 0 <= i < |xs| ==> xs[i].id in p.core.schedule
    requires forall i, j :: 0 <= i < j < |xs| ==> xs[i].id != xs[j].id
    ensures var q := Turns(p, xs); Safe(q.core, early + q.log, q.gone)
  {
    if xs != [] {
      var init, x := xs[..|xs| - 1], xs[|xs| - 1];
      TurnsSafe(p, init, early);
      TurnGone(p, init, x.id);
      assert x.id in Turns(p, init).core.schedule.Keys;
      TurnSafe(Turns(p, init), x, early);
    }
  }

  lemma TickSafe(s: Core, xs: seq<Slot>, readings: map<nat, int>, early: seq<Entry>)
    requires DueOrder(s, readings, xs) && Safe(s, early, {})
    ensures Safe(Tick(s, xs).0, early + Tick(s, xs).1, {})
  {
    assert early + [] == early;
    TurnsSafe(Progress(s, {}, []), xs, early);
  }

  lemma ApplySafe(s: Core, op: Op, early: seq<Entry>)
    requires Safe(s, early, {}) && Legal(s, op)
    ensures Safe(Apply(s, op).0, early + Apply(s, op).1, {})
  {
    assert early + [] == early;
    match op
    case TickOp(readings, xs) => TickSafe(s, xs, readings, early);
    case _ =>
  }

  lemma {:induction false} RunSafe(ops: seq<Op>)
    ensures Safe(Run(ops).0, Run(ops).1, {})
    decreases |ops|
  {
    if |ops| > 0 {
      var init, op := ops[..|ops| - 1], ops[|ops| - 1];
      RunSafe(init);
      if Legal(Run(init).0, op) { ApplySafe(Run(init).0, op, Run(init).1); }
    }
  }

  /** In every run, an action runs only when each of its dependencies completed the last time it ran before. */
  lemma DependenciesComeFirst(ops: seq<Op>, k: nat, d: nat)
    requires k < |Run(ops).1| && d in Run(ops).1[k].action.deps
    ensures CompletedLast(Run(ops).1[..k], d)
  {
    RunSafe(ops);
    assert DepsRan(Run(ops).1, k);
  }

  /** In every run, an action runs again only if it is periodic and has completed every time so far. */
  lemma RunsAgainOnlyIf(ops: seq<Op>, i: nat, j: nat)
    requires i < j < |Run(ops).1| && Run(ops).1[i].id == Run(ops).1[j].id
    ensures Run(ops).1[i].action.periodic && Run(ops).1[i].outcome == Completed
  {
    RunSafe(ops);
  }

  // ---- Locks

  lemma {:induction false} AcquiredAll(locks: map<string, nat>, rs: seq<string>, id: nat, r: string)
    ensures var l := AcquireAll(locks, rs, id);
            && (r in locks ==> r in l && l[r] == locks[r])
            && (r !in locks ==> (r in l <==> r in rs) && (r in l ==> l[r] == id))
  {
    if rs != [] {
      AcquiredAll(locks, rs[..|rs| - 1], id, r);
      assert rs == rs[..|rs| - 1] + [rs[|rs| - 1]];
    }
  }

  lemma {:induction false} ReleasedAll(locks: map<string, nat>, rs: seq<string>, id: nat, r: string)
    ensures var l := ReleaseAll(locks, rs, id);
            && (r in l <==> r in locks && !(r in rs && locks[r] == id))
            && (r in l ==> l[r] == locks[r])
  {
    if rs != [] {
      ReleasedAll(locks, rs[..|rs| - 1], id, r);
      assert rs == rs[..|rs| - 1] + [rs[|rs| - 1]];
    }
  }

  /**
   A run leaves every resource that its action needs free, even one the action held before, and no other lock
   changes; an action that does not run changes no lock.
   */
  lemma TurnLocks(p: Progress, x: Slot, r: string)
    requires x.id in p.core.schedule
    ensures var was, now := p.core.locks, Turn(p, x).core.locks;
            var a := p.core.schedule[x.id];
            if Runs(p.core, x) then (r in now <==> r in was && r !in a.needs) && (r in now ==> now[r] == was[r])
            else now == was
  {
    var s := p.core;
    var a := s.schedule[x.id];
    if Runs(s, x) {
      AcquiredAll(s.locks, a.needs, x.id, r);
      ReleasedAll(AcquireAll(s.locks, a.needs, x.id), a.needs, x.id, r);
      if r in a.needs {
        var i :| 0 <= i < |a.needs| && a.needs[i] == r;
        assert r in s.locks ==> s.locks[r] == x.id;
      }
    }
  }

  /** No scheduled action needs a resource: nothing sets that field. */
  predicate NeedsNothing(s: Core) {
    forall id :: id in s.schedule ==> s.schedule[id].needs == []
  }

  lemma {:induction false} TurnsKeepLocks(p: Progress, xs: seq<Slot>)
    requires NeedsNothing(p.core) && forall i :: 0 <= i < |xs| ==> xs[i].id in p.core.schedule
    ensures NeedsNothing(Turns(p, xs).core) && Turns(p, xs).core.locks == p.core.locks
  {
    if xs != [] {
      TurnsKeepLocks(p, xs[..|xs| - 1]);
      var q := Turns(p, xs[..|xs| - 1]);
      assert xs[|xs| - 1].id in q.core.schedule.Keys;
      assert AcquireAll(q.core.locks, [], xs[|xs| - 1].id) == q.core.locks;
    }
  }

  /**
   In every run a lock passes only by the holder's own release: a cancelled, failed or finished action keeps what was
   acquired for it.
   */
  lemma {:induction false} LockStays(ops: seq<Op>, more: seq<Op>, r: string, id: nat)
    requires r in Run(ops).0.locks && Run(ops).0.locks[r] == id
    requires forall i :: 0 <= i < |more| ==> more[i] != ReleaseOp(r, id)
    ensures r in Run(ops + more).0.locks && Run(ops + more).0.locks[r] == id
    decreases |more|
  {
    if |more| == 0 {
      assert ops + more == ops;
    } else {
      var init, op := more[..|more| - 1], more[|more| - 1];
      LockStays(ops, init, r, id);
      RunNeedsNothing(ops + init);
      StepKeepsLock(Run(ops + init).0, Run(ops + init).1, op, r, id);
      assert ops + more == (ops + init) + [op];
      RunAppend(ops + init, op);
    }
  }

  lemma StepKeepsLock(s: Core, log: seq<Entry>, op: Op, r: string, id: nat)
    requires NeedsNothing(s) && r in s.locks && s.locks[r] == id && op != ReleaseOp(r, id)
    ensures r in Stepped(s, log, op).0.locks && Stepped(s, log, op).0.locks[r] == id
  {
    if op.TickOp? && Legal(s, op) {
      TurnsKeepLocks(Progress(s, {}, []), op.xs);
    }
  }

  lemma {:induction false} RunNeedsNothing(ops: seq<Op>)
    ensures NeedsNothing(Run(ops).0)
    decreases |ops|
  {
    if |ops| > 0 {
      RunNeedsNothing(ops[..|ops| - 1]);
      var s, op := Run(ops[..|ops| - 1]).0, ops[|ops| - 1];
      if op.TickOp? && Legal(s, op) {
        TurnsKeepLocks(Progress(s, {}, []), op.xs);
      }
    }
  }
}
