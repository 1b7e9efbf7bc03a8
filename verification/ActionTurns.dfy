/** What a turn, a tick and a whole run make of deadlines, readiness, due times and priorities. */
module ActionTurns {
  import opened ActionScheduler

  // ---- One turn

  /** Each action that it waits for is recorded as completed, and nobody else holds a resource that it needs. */
  predicate Ready(s: Core, id: nat, a: Action) {
    && (forall d :: d in a.deps ==> d in s.completed && s.completed[d] == Completed)
    && (forall r :: r in a.needs && r in s.locks ==> s.locks[r] == id)
  }

  lemma ReadyIs(s: Core, id: nat, a: Action)
    ensures Ready(s, id, a) <==> Met(s, a) && Available(s, id, a)
  {
    if Met(s, a) && Available(s, id, a) {
      forall d | d in a.deps ensures d in s.completed && s.completed[d] == Completed {
        var i :| 0 <= i < |a.deps| && a.deps[i] == d;
      }
      forall r | r in a.needs && r in s.locks ensures s.locks[r] == id {
        var i :| 0 <= i < |a.needs| && a.needs[i] == r;
      }
    }
    if Ready(s, id, a) {
      assert forall i :: 0 <= i < |a.deps| ==> a.deps[i] in a.deps;
      assert forall i :: 0 <= i < |a.needs| ==> a.needs[i] in a.needs;
    }
  }

  /** After its deadline an action does not run: it is recorded as failed and leaves the schedule with the tick. */
  lemma LateFails(p: Progress, x: Slot)
    requires x.id in p.core.schedule && 0 < p.core.schedule[x.id].deadline < x.at
    ensures Turn(p, x).log == p.log && Turn(p, x).gone == p.gone + {x.id}
    ensures Turn(p, x).core == p.core.(completed := p.core.completed[x.id := Failed])
  {
  }

  /**
   Without a deadline, or up to it, an action runs exactly when it is ready. Then its outcome is recorded; it is
   scheduled again, a period after its run, exactly when it is periodic and completed. If it is not ready nothing
   changes, so it is never failed here but by its own outcome.
   */
  lemma TimelyRunsIff(p: Progress, x: Slot)
    requires x.id in p.core.schedule
    requires p.core.schedule[x.id].deadline <= 0 || x.at <= p.core.schedule[x.id].deadline
    ensures var s, q, a := p.core, Turn(p, x), p.core.schedule[x.id];
            && (!Ready(s, x.id, a) <==> q.log == p.log) && (!Ready(s, x.id, a) ==> q == p)
            && (Ready(s, x.id, a) ==>
                 && q.log == p.log + [Entry(x.id, a, x.at, x.outcome)]
                 && q.core.completed == s.completed[x.id := x.outcome]
                 && (a.periodic && x.outcome == Completed ==>
                      q.gone == p.gone && q.core.schedule == s.schedule[x.id := a.(due := x.after + a.period)])
                 && (!(a.periodic && x.outcome == Completed) ==>
                      q.gone == p.gone + {x.id} && q.core.schedule == s.schedule))
  {
    ReadyIs(p.core, x.id, p.core.schedule[x.id]);
  }

  // ---- One tick

  function Start(s: Core): Progress {
    Progress(s, {}, [])
  }

  predicate HasTurn(xs: seq<Slot>, id: nat) {
    exists i :: 0 <= i < |xs| && xs[i].id == id
  }

  /** Nothing changes about an action between the turns of others. */
  lemma {:induction false} OthersKeep(p: Progress, xs: seq<Slot>, id: nat)
    requires forall i :: 0 <= i < |xs| ==> xs[i].id in p.core.schedule
    requires !HasTurn(xs, id)
    ensures var q := Turns(p, xs);
            && (id in q.gone <==> id in p.gone)
            && (id in p.core.schedule ==> id in q.core.schedule && q.core.schedule[id] == p.core.schedule[id])
            && (id in q.core.completed <==> id in p.core.completed)
            && (id in p.core.completed ==> q.core.completed[id] == p.core.completed[id])
    decreases |xs|
  {
    if xs != [] {
      var init, x := xs[..|xs| - 1], xs[|xs| - 1];
      assert forall i :: 0 <= i < |init| ==> init[i] == xs[i];
      OthersKeep(p, init, id);
      assert x.id != id;
      assert x.id in Turns(p, init).core.schedule.Keys;
    }
  }

  lemma {:induction false} TurnsConcat(p: Progress, xs: seq<Slot>, ys: seq<Slot>)
    requires forall i :: 0 <= i < |xs| ==> xs[i].id in p.core.schedule
    requires forall i :: 0 <= i < |ys| ==> ys[i].id in p.core.schedule
    ensures forall i :: 0 <= i < |ys| ==> ys[i].id in Turns(p, xs).core.schedule.Keys
    ensures Turns(p, xs + ys) == Turns(Turns(p, xs), ys)
    decreases |ys|
  {
    if ys == [] {
      assert xs + ys == xs;
    } else {
      assert (xs + ys)[..|xs + ys| - 1] == xs + ys[..|ys| - 1];
      TurnsConcat(p, xs, ys[..|ys| - 1]);
    }
  }

  /** What a tick leaves of a due action is what its own turn makes of it; its turn finds it as the tick did. */
  lemma TickIsTurns(s: Core, readings: map<nat, int>, xs: seq<Slot>, k: nat)
    requires DueOrder(s, readings, xs) && k < |xs|
    ensures forall i :: 0 <= i < k ==> xs[..k][i].id in s.schedule
    ensures var p, id := Turns(Start(s), xs[..k]), xs[k].id;
            && id in p.core.schedule && p.core.schedule[id] == s.schedule[id] && id !in p.gone
            && var q, t := Turn(p, xs[k]), Tick(s, xs).0;
               && (id in t.schedule <==> id !in q.gone)
               && (id in t.schedule ==> t.schedule[id] == q.core.schedule[id])
               && (id in t.completed <==> id in q.core.completed)
               && (id in t.completed ==> t.completed[id] == q.core.completed[id])
  {
    var pre, x, post := xs[..k], xs[k], xs[k + 1..];
    var p := Turns(Start(s), pre);
    assert !HasTurn(pre, x.id) && !HasTurn(post, x.id);
    OthersKeep(Start(s), pre, x.id);
    assert xs == (pre + [x]) + post && (pre + [x])[..k] == pre;
    assert Turns(Start(s), pre + [x]) == Turn(p, x);
    TurnsConcat(Start(s), pre + [x], post);
    OthersKeep(Turn(p, x), post, x.id);
  }

  /** An action that is not due is left alone by a tick. */
  lemma NotDueStays(s: Core, readings: map<nat, int>, xs: seq<Slot>, id: nat)
    requires DueOrder(s, readings, xs) && id in s.schedule && readings[id] < s.schedule[id].due
    ensures var t := Tick(s, xs).0;
            && id in t.schedule && t.schedule[id] == s.schedule[id]
            && (id in t.completed <==> id in s.completed) && (id in s.completed ==> t.completed[id] == s.completed[id])
  {
    OthersKeep(Start(s), xs, id);
  }

  /** The entry is of a slot's action, as scheduled, which was due and not past its deadline. */
  predicate InTime(s: Core, readings: map<nat, int>, xs: seq<Slot>, e: Entry) {
    && e.id in s.schedule && e.id in readings && e.action == s.schedule[e.id] && HasTurn(xs, e.id)
    && e.action.due <= readings[e.id] && (e.action.deadline > 0 ==> e.at <= e.action.deadline)
  }

  /** The log of the first n slots is that of the slots before the last, and perhaps an entry for the last. */
  lemma OneMoreEntry(s: Core, readings: map<nat, int>, xs: seq<Slot>, n: nat)
    requires DueOrder(s, readings, xs) && 0 < n <= |xs|
    ensures forall i :: 0 <= i < n ==> xs[..n][i].id in s.schedule
    ensures var p, q, x := Turns(Start(s), xs[..n - 1]), Turns(Start(s), xs[..n]), xs[n - 1];
            q.log == p.log
            || exists e :: q.log == p.log + [e] && e.id == x.id && InTime(s, readings, xs[..n], e)
  {
    var init, x := xs[..n - 1], xs[n - 1];
    assert xs[..n][..n - 1] == init && xs[..n][n - 1] == x;
    TickIsTurns(s, readings, xs, n - 1);
    var p := Turns(Start(s), init);
    if Turn(p, x).log != p.log {
      var e := Entry(x.id, s.schedule[x.id], x.at, x.outcome);
      assert Turn(p, x).log == p.log + [e] && InTime(s, readings, xs[..n], e);
    }
  }

  lemma {:induction false} TurnsInTime(s: Core, readings: map<nat, int>, xs: seq<Slot>, n: nat)
    requires DueOrder(s, readings, xs) && n <= |xs|
    ensures forall e :: e in Turns(Start(s), xs[..n]).log ==> InTime(s, readings, xs[..n], e)
  {
    if n > 0 {
      TurnsInTime(s, readings, xs, n - 1);
      OneMoreEntry(s, readings, xs, n);
      assert forall i :: 0 <= i < n - 1 ==> xs[..n][i] == xs[..n - 1][i];
      forall e | e in Turns(Start(s), xs[..n - 1]).log ensures InTime(s, readings, xs[..n], e) {
        var i :| 0 <= i < n - 1 && xs[..n - 1][i].id == e.id;
        assert xs[..n][i].id == e.id;
      }
    }
  }

  predicate ByPriority(log: seq<Entry>) {
    forall i, j :: 0 <= i < j < |log| ==> log[i].action.priority >= log[j].action.priority
  }

  lemma EarlierFirst(s: Core, readings: map<nat, int>, xs: seq<Slot>, n: nat)
    requires DueOrder(s, readings, xs) && n < |xs|
    ensures forall e :: e in Turns(Start(s), xs[..n]).log ==> e.action.priority >= s.schedule[xs[n].id].priority
  {
    TurnsInTime(s, readings, xs, n);
    forall e | e in Turns(Start(s), xs[..n]).log ensures e.action.priority >= s.schedule[xs[n].id].priority {
      assert InTime(s, readings, xs[..n], e);
      var i :| 0 <= i < n && xs[..n][i].id == e.id;
      assert xs[i].id == e.id;
    }
  }

  lemma {:induction false} TurnsByPriority(s: Core, readings: map<nat, int>, xs: seq<Slot>, n: nat)
    requires DueOrder(s, readings, xs) && n <= |xs|
    ensures ByPriority(Turns(Start(s), xs[..n]).log)
  {
    if n > 0 {
      TurnsByPriority(s, readings, xs, n - 1);
      OneMoreEntry(s, readings, xs, n);
      EarlierFirst(s, readings, xs, n - 1);
    }
  }

  /** Within a tick the actions run by descending priority. */
  lemma GreatestFirst(s: Core, readings: map<nat, int>, xs: seq<Slot>, i: nat, j: nat)
    requires DueOrder(s, readings, xs) && i < j < |Tick(s, xs).1|
    ensures Tick(s, xs).1[i].action.priority >= Tick(s, xs).1[j].action.priority
  {
    TurnsByPriority(s, readings, xs, |xs|);
    assert xs[..|xs|] == xs;
  }

  // ---- Whole runs

  /** A tick of the run found the action due. */
  predicate FoundDue(ops: seq<Op>, e: Entry) {
    exists i :: 0 <= i < |ops| && ops[i].TickOp? && e.id in ops[i].readings && e.action.due <= ops[i].readings[e.id]
  }

  /** In every run, no action runs after its deadline, and none before a tick has found it due. */
  lemma {:induction false} RunsInTime(ops: seq<Op>)
    ensures forall e :: e in Run(ops).1 ==> FoundDue(ops, e) && (e.action.deadline > 0 ==> e.at <= e.action.deadline)
    decreases |ops|
  {
    if |ops| > 0 {
      var init, op := ops[..|ops| - 1], ops[|ops| - 1];
      var (s, log) := Run(init);
      RunsInTime(init);
      forall e | e in log ensures FoundDue(ops, e) {
        var i :| 0 <= i < |init| && init[i].TickOp? && e.id in init[i].readings
                 && e.action.due <= init[i].readings[e.id];
        assert ops[i] == init[i];
      }
      if op.TickOp? && Legal(s, op) {
        TurnsInTime(s, op.readings, op.xs, |op.xs|);
        assert op.xs[..|op.xs|] == op.xs;
        forall e | e in Tick(s, op.xs).1 ensures FoundDue(ops, e) && InTime(s, op.readings, op.xs, e) {
          assert InTime(s, op.readings, op.xs, e) && ops[|ops| - 1] == op;
        }
      }
    }
  }

  // ---- Scheduling

  /** A refusal changes nothing; otherwise the action is scheduled under a number that nothing had before. */
  lemma ScheduledIff(ops: seq<Op>, a: Action, known: bool)
    ensures var (s, log), (t, id) := Run(ops), Schedule(Run(ops).0, a, known);
            && (id == 0 <==> |s.schedule| >= s.maxScheduled || !known || (a.periodic && a.period <= 0))
            && (id == 0 ==> t == s)
            && (id != 0 ==>
                 && id !in s.schedule && id !in s.completed && (forall k :: 0 <= k < |log| ==> log[k].id != id)
                 && t == s.(schedule := t.schedule, nextId := t.nextId) && t.nextId > id
                 && t.schedule == s.schedule[id := a])
  {
    RunSafe(ops);
  }
}
