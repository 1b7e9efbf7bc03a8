/**
 Which scheduled actions can still run, whatever the clock reads: those that wait for nothing that waits for itself.
 */
module ActionWaiting {
  import opened ActionScheduler

  // ---- Actions that never run

  predicate Done(s: Core, id: nat) {
    id in s.completed && s.completed[id] == Completed
  }

  /** None of c is recorded as completed, and each scheduled action of w, which has c in it, waits for one of c. */
  predicate Waiting(s: Core, c: set<nat>, w: set<nat>) {
    && (forall id :: id in c ==> id in w && !Done(s, id))
    && (forall id :: id in w ==> id < s.nextId && WaitsFor(s, id, c))
  }

  predicate WaitsFor(s: Core, id: nat, c: set<nat>) {
    id in s.schedule ==> exists d :: d in s.schedule[id].deps && d in c
  }

  /** Actions of which none is recorded as completed, and each that is scheduled waits for another of them. */
  predicate Stuck(s: Core, c: set<nat>) {
    Waiting(s, c, c)
  }

  lemma NotMet(s: Core, id: nat, d: nat)
    requires id in s.schedule && d in s.schedule[id].deps && !Done(s, d)
    ensures !Met(s, s.schedule[id])
  {
    var i :| 0 <= i < |s.schedule[id].deps| && s.schedule[id].deps[i] == d;
  }

  lemma MetIs(s: Core, a: Action)
    ensures Met(s, a) <==> forall d :: d in a.deps ==> Done(s, d)
  {
    if Met(s, a) {
      forall d | d in a.deps ensures Done(s, d) { var i :| 0 <= i < |a.deps| && a.deps[i] == d; }
    } else {
      var i :| 0 <= i < |a.deps| && !Done(s, a.deps[i]);
      assert a.deps[i] in a.deps;
    }
  }

  lemma WaitingTurn(p: Progress, x: Slot, c: set<nat>, w: set<nat>)
    requires x.id in p.core.schedule && Waiting(p.core, c, w)
    ensures Waiting(Turn(p, x).core, c, w)
    ensures Turn(p, x).log == p.log
         || (Turn(p, x).log == p.log + [Entry(x.id, p.core.schedule[x.id], x.at, x.outcome)] && x.id !in w)
  {
    if x.id in w {
      var d :| d in p.core.schedule[x.id].deps && d in c;
      NotMet(p.core, x.id, d);
    }
    forall id | id in w ensures WaitsFor(Turn(p, x).core, id, c) { assert WaitsFor(p.core, id, c); }
  }

  predicate NoneOf(log: seq<Entry>, c: set<nat>) {
    forall k :: 0 <= k < |log| ==> log[k].id !in c
  }

  lemma {:induction false} WaitingTurns(p: Progress, xs: seq<Slot>, c: set<nat>, w: set<nat>)
    requires Waiting(p.core, c, w) && NoneOf(p.log, w)
    requires forall i :: 0 <= i < |xs| ==> xs[i].id in p.core.schedule
    ensures Waiting(Turns(p, xs).core, c, w) && NoneOf(Turns(p, xs).log, w)
  {
    if xs != [] {
      var init, x := xs[..|xs| - 1], xs[|xs| - 1];
      WaitingTurns(p, init, c, w);
      assert x.id in Turns(p, init).core.schedule.Keys;
      WaitingTurn(Turns(p, init), x, c, w);
    }
  }

  lemma WaitingApply(s: Core, op: Op, c: set<nat>, w: set<nat>)
    requires Waiting(s, c, w) && Legal(s, op)
    ensures Waiting(Apply(s, op).0, c, w) && NoneOf(Apply(s, op).1, w)
  {
    if op.TickOp? { WaitingTurns(Progress(s, {}, []), op.xs, c, w); }
    var t := Apply(s, op).0;
    forall id | id in w ensures WaitsFor(t, id, c) {
      assert WaitsFor(s, id, c);
      if op.DependOp? && id in s.schedule {
        var e :| e in s.schedule[id].deps && e in c;
        assert e in t.schedule[id].deps;
      }
      if op.TickOp? { assert WaitsFor(Turns(Progress(s, {}, []), op.xs).core, id, c); }
    }
  }

  // ---- Going on from a state

  /** The state after some more operations, and what ran in them. */
  function Play(s: Core, ops: seq<Op>): (Core, seq<Entry>)
    decreases |ops|
  {
    if |ops| == 0 then (s, [])
    else
      var (t, log) := Play(s, ops[..|ops| - 1]);
      Stepped(t, log, ops[|ops| - 1])
  }

  lemma PlayAppend(s: Core, ops: seq<Op>, op: Op)
    ensures Play(s, ops + [op]) == Stepped(Play(s, ops).0, Play(s, ops).1, op)
  {
    var more := ops + [op];
    assert more[..|more| - 1] == ops && more[|more| - 1] == op;
  }

  lemma PlayOne(s: Core, op: Op)
    requires Legal(s, op)
    ensures Play(s, [op]) == Apply(s, op)
  {
    assert [op][..0] == [];
    assert [] + Apply(s, op).1 == Apply(s, op).1;
  }

  lemma {:induction false} PlayThen(s: Core, es: seq<Op>, fs: seq<Op>)
    ensures Play(s, es + fs).0 == Play(Play(s, es).0, fs).0
    ensures Play(s, es + fs).1 == Play(s, es).1 + Play(Play(s, es).0, fs).1
    decreases |fs|
  {
    if |fs| == 0 {
      assert es + fs == es;
    } else {
      var init, op := fs[..|fs| - 1], fs[|fs| - 1];
      PlayThen(s, es, init);
      assert es + fs == (es + init) + [op];
      PlayAppend(s, es + init, op);
    }
  }

  /** A longer run is a run that goes on from the state of the shorter. */
  lemma {:induction false} RunPlay(ops: seq<Op>, more: seq<Op>)
    ensures Run(ops + more).0 == Play(Run(ops).0, more).0
    ensures Run(ops + more).1 == Run(ops).1 + Play(Run(ops).0, more).1
    decreases |more|
  {
    if |more| == 0 {
      assert ops + more == ops;
    } else {
      var init, op := more[..|more| - 1], more[|more| - 1];
      RunPlay(ops, init);
      assert ops + more == (ops + init) + [op];
      RunAppend(ops + init, op);
    }
  }

  lemma {:induction false} WaitingPlay(s: Core, ops: seq<Op>, c: set<nat>, w: set<nat>)
    requires Waiting(s, c, w)
    ensures Waiting(Play(s, ops).0, c, w) && NoneOf(Play(s, ops).1, w)
    decreases |ops|
  {
    if |ops| > 0 {
      var init, op := ops[..|ops| - 1], ops[|ops| - 1];
      WaitingPlay(s, init, c, w);
      if Legal(Play(s, init).0, op) { WaitingApply(Play(s, init).0, op, c, w); }
    }
  }

  /** The later log goes on from the earlier one, with none of the actions. */
  predicate GoesOn(was: seq<Entry>, now: seq<Entry>, c: set<nat>) {
    |was| <= |now| && now[..|was|] == was && NoneOf(now[|was|..], c)
  }

  lemma GoesOnIs(ops: seq<Op>, more: seq<Op>, c: set<nat>)
    ensures GoesOn(Run(ops).1, Run(ops + more).1, c) <==> NoneOf(Play(Run(ops).0, more).1, c)
  {
    RunPlay(ops, more);
    var was, ran := Run(ops).1, Play(Run(ops).0, more).1;
    assert (was + ran)[..|was|] == was && (was + ran)[|was|..] == ran;
  }

  /** Stuck actions never run again, whatever happens later. */
  lemma StuckForever(ops: seq<Op>, more: seq<Op>, c: set<nat>)
    requires Stuck(Run(ops).0, c)
    ensures Stuck(Run(ops + more).0, c) && GoesOn(Run(ops).1, Run(ops + more).1, c)
  {
    WaitingPlay(Run(ops).0, more, c, c);
    GoesOnIs(ops, more, c);
    RunPlay(ops, more);
  }

  /** The action is one of some that are stuck together. */
  ghost predicate Hopeless(s: Core, id: nat) {
    exists c :: Stuck(s, c) && id in c
  }

  predicate InLog(log: seq<Entry>, id: nat) {
    exists k :: 0 <= k < |log| && log[k].id == id
  }

  /** An action that waits for a hopeless one never runs again, even if it completed before. */
  lemma HopelessNeverRuns(s: Core, x: nat, d: nat, ops: seq<Op>)
    requires x in s.schedule && x < s.nextId && d in s.schedule[x].deps && Hopeless(s, d)
    ensures !InLog(Play(s, ops).1, x)
  {
    var c :| Stuck(s, c) && d in c;
    forall id | id in c + {x} ensures id < s.nextId && WaitsFor(s, id, c) {}
    WaitingPlay(s, ops, c, c + {x});
  }

  // ---- A tick in which all that is due completes

  /**
   What holds in every run: ids and needs are in order, and an action that completed is scheduled only if periodic.
   */
  predicate Calm(s: Core) {
    && (forall id :: id in s.completed ==> id < s.nextId)
    && (forall id :: id in s.schedule ==> id < s.nextId && s.schedule[id].needs == [])
    && (forall id :: id in s.schedule && s.schedule[id].periodic ==> s.schedule[id].deadline == 0)
    && (forall id :: id in s.schedule && Done(s, id) ==> s.schedule[id].periodic)
  }

  /** The action is due at the instant, and its deadline not past, or not looked at. */
  predicate MayRun(a: Action, w: int, lenient: bool) {
    a.due <= w && (lenient || a.deadline <= 0 || w <= a.deadline)
  }

  /** A slot at the instant; a lenient one reads the deadline itself if that is past. */
  function SlotAt(id: nat, a: Action, w: int, lenient: bool): Slot {
    Slot(id, if lenient && PastDeadline(a, w) then a.deadline else w, Completed, w)
  }

  predicate SlotsAt(s: Core, xs: seq<Slot>, w: int, lenient: bool) {
    && (forall i :: 0 <= i < |xs| ==>
         xs[i].id in s.schedule && xs[i] == SlotAt(xs[i].id, s.schedule[xs[i].id], w, lenient))
    && (forall i, j :: 0 <= i < j < |xs| ==> xs[i].id != xs[j].id)
  }

  predicate SameButDue(a: Action, b: Action) {
    b == a.(due := b.due)
  }

  /** What the slots have made of one scheduled action. */
  predicate Treated(s: Core, p: Progress, id: nat, w: int, lenient: bool)
    requires id in s.schedule
  {
    var a := s.schedule[id];
    && id in p.core.schedule && SameButDue(a, p.core.schedule[id])
    && (InLog(p.log, id) || p.core.schedule[id] == a)
    && (id in p.gone ==> if InLog(p.log, id) then !a.periodic else !lenient && PastDeadline(a, w))
    && (InLog(p.log, id) && id !in p.gone ==> a.periodic)
  }

  /** A slot either ran, or its action was past its deadline, or waits for one that was not done at the start. */
  predicate Judged(s: Core, p: Progress, id: nat, w: int, lenient: bool)
    requires id in s.schedule
  {
    InLog(p.log, id) || (!lenient && PastDeadline(s.schedule[id], w)) || !Met(s, s.schedule[id])
  }

  predicate HasSlot(xs: seq<Slot>, id: nat) {
    exists i :: 0 <= i < |xs| && xs[i].id == id
  }

  /** What the slots have made of the schedule. */
  ghost predicate Handled(s: Core, xs: seq<Slot>, p: Progress, w: int, lenient: bool)
    requires SlotsAt(s, xs, w, lenient)
  {
    && p.core.nextId == s.nextId && p.core.schedule.Keys == s.schedule.Keys
    && (forall id {:trigger Treated(s, p, id, w, lenient)} :: id in s.schedule ==> Treated(s, p, id, w, lenient))
    && (forall id {:trigger Done(p.core, id)} :: Done(p.core, id) <==> Done(s, id) || InLog(p.log, id))
    && (forall i {:trigger xs[i]} :: 0 <= i < |xs| ==> Judged(s, p, xs[i].id, w, lenient))
    && (forall id {:trigger HasSlot(xs, id)} :: InLog(p.log, id) || id in p.gone ==> HasSlot(xs, id))
    && (forall id :: id in p.core.completed ==> id < s.nextId)
  }

  lemma InLogMore(log: seq<Entry>, e: Entry, id: nat)
    ensures InLog(log + [e], id) <==> InLog(log, id) || id == e.id
  {
    if k :| 0 <= k < |log| && log[k].id == id { assert (log + [e])[k].id == id; }
    if id == e.id { assert (log + [e])[|log|].id == id; }
  }

  lemma HasSlotMore(xs: seq<Slot>, x: Slot, id: nat)
    ensures HasSlot(xs + [x], id) <==> HasSlot(xs, id) || id == x.id
  {
    if i :| 0 <= i < |xs| && xs[i].id == id { assert (xs + [x])[i].id == id; }
    if id == x.id { assert (xs + [x])[|xs|].id == id; }
  }

  lemma StillMet(s: Core, t: Core, a: Action)
    requires Met(s, a) && forall id :: Done(s, id) ==> Done(t, id)
    ensures Met(t, a)
  {
    MetIs(s, a);
    MetIs(t, a);
  }

  lemma SlotInTime(a: Action, id: nat, w: int, lenient: bool)
    ensures PastDeadline(a, SlotAt(id, a, w, lenient).at) <==> !lenient && PastDeadline(a, w)
  {
  }

  /** What one more turn does, in the three cases. */
  lemma TurnCases(s: Core, xs: seq<Slot>, p: Progress, x: Slot, w: int, lenient: bool)
    requires Calm(s) && SlotsAt(s, xs + [x], w, lenient) && SlotsAt(s, xs, w, lenient) && Handled(s, xs, p, w, lenient)
    ensures x.id in s.schedule && x.id in p.core.schedule && !InLog(p.log, x.id) && x.id !in p.gone
    ensures p.core.schedule[x.id] == s.schedule[x.id]
    ensures var a, q := s.schedule[x.id], Turn(p, x);
            if !lenient && PastDeadline(a, w) then
              q == Progress(p.core.(completed := p.core.completed[x.id := Failed]), p.gone + {x.id}, p.log)
            else if !Met(p.core, a) then q == p
            else
              && q.core.schedule ==
                   (if a.periodic then p.core.schedule[x.id := a.(due := w + a.period)] else p.core.schedule)
              && q.core.nextId == p.core.nextId && q.core.completed == p.core.completed[x.id := Completed]
              && q.gone == (if a.periodic then p.gone else p.gone + {x.id})
              && q.log == p.log + [Entry(x.id, a, x.at, Completed)]
  {
    assert (xs + [x])[|xs|] == x;
    assert forall i :: 0 <= i < |xs| ==> (xs + [x])[i] == xs[i];
    assert Treated(s, p, x.id, w, lenient) && !HasSlot(xs, x.id);
    SlotInTime(s.schedule[x.id], x.id, w, lenient);
  }

  lemma HandledFailed(s: Core, xs: seq<Slot>, p: Progress, x: Slot, w: int)
    requires Calm(s) && SlotsAt(s, xs + [x], w, false) && SlotsAt(s, xs, w, false) && Handled(s, xs, p, w, false)
    requires x.id in s.schedule && PastDeadline(s.schedule[x.id], w) && !InLog(p.log, x.id)
    ensures Handled(s, xs + [x],
              Progress(p.core.(completed := p.core.completed[x.id := Failed]), p.gone + {x.id}, p.log), w, false)
  {
    var q := Progress(p.core.(completed := p.core.completed[x.id := Failed]), p.gone + {x.id}, p.log);
    assert (xs + [x])[|xs|] == x;
    forall id | id in s.schedule ensures Treated(s, q, id, w, false) { assert Treated(s, p, id, w, false); }
    forall id ensures Done(q.core, id) <==> Done(s, id) || InLog(q.log, id) {
      assert Done(p.core, id) <==> Done(s, id) || InLog(p.log, id);
    }
    forall i | 0 <= i < |xs + [x]| ensures Judged(s, q, (xs + [x])[i].id, w, false) {
      if i < |xs| { assert Judged(s, p, xs[i].id, w, false); }
    }
    forall id ensures HasSlot(xs + [x], id) <==> HasSlot(xs, id) || id == x.id { HasSlotMore(xs, x, id); }
  }

  lemma HandledWaits(s: Core, xs: seq<Slot>, p: Progress, x: Slot, w: int, lenient: bool)
    requires SlotsAt(s, xs + [x], w, lenient) && SlotsAt(s, xs, w, lenient) && Handled(s, xs, p, w, lenient)
    requires x.id in s.schedule && !Met(p.core, s.schedule[x.id])
    ensures Handled(s, xs + [x], p, w, lenient)
  {
    if Met(s, s.schedule[x.id]) {
      forall id | Done(s, id) ensures Done(p.core, id) {}
      StillMet(s, p.core, s.schedule[x.id]);
    }
    forall i | 0 <= i < |xs + [x]| ensures Judged(s, p, (xs + [x])[i].id, w, lenient) {
      if i < |xs| { assert Judged(s, p, xs[i].id, w, lenient); }
    }
    forall id ensures HasSlot(xs + [x], id) <==> HasSlot(xs, id) || id == x.id { HasSlotMore(xs, x, id); }
  }

  lemma HandledRan(s: Core, xs: seq<Slot>, p: Progress, x: Slot, q: Progress, w: int, lenient: bool)
    requires Calm(s) && SlotsAt(s, xs + [x], w, lenient) && SlotsAt(s, xs, w, lenient) && Handled(s, xs, p, w, lenient)
    requires x.id in s.schedule && x.id !in p.gone
    requires var a := s.schedule[x.id];
             && q.core.schedule ==
                  (if a.periodic then p.core.schedule[x.id := a.(due := w + a.period)] else p.core.schedule)
             && q.core.nextId == p.core.nextId && q.core.completed == p.core.completed[x.id := Completed]
             && q.gone == (if a.periodic then p.gone else p.gone + {x.id})
             && q.log == p.log + [Entry(x.id, a, x.at, Completed)]
    ensures Handled(s, xs + [x], q, w, lenient)
  {
    var e := Entry(x.id, s.schedule[x.id], x.at, Completed);
    forall id ensures InLog(q.log, id) <==> InLog(p.log, id) || id == x.id { InLogMore(p.log, e, id); }
    forall id | id in s.schedule ensures Treated(s, q, id, w, lenient) { assert Treated(s, p, id, w, lenient); }
    forall id ensures Done(q.core, id) <==> Done(s, id) || InLog(q.log, id) {
      assert Done(p.core, id) <==> Done(s, id) || InLog(p.log, id);
    }
    forall i | 0 <= i < |xs + [x]| ensures Judged(s, q, (xs + [x])[i].id, w, lenient) {
      if i < |xs| { assert Judged(s, p, xs[i].id, w, lenient); }
    }
    forall id ensures HasSlot(xs + [x], id) <==> HasSlot(xs, id) || id == x.id { HasSlotMore(xs, x, id); }
  }

  lemma {:induction false} AllHandled(s: Core, xs: seq<Slot>, w: int, lenient: bool)
    requires Calm(s) && SlotsAt(s, xs, w, lenient)
    ensures Handled(s, xs, Turns(Progress(s, {}, []), xs), w, lenient)
    decreases |xs|
  {
    var start := Progress(s, {}, []);
    if xs == [] {
      forall id | id in s.schedule ensures Treated(s, start, id, w, lenient) {}
    } else {
      var init, x := xs[..|xs| - 1], xs[|xs| - 1];
      assert xs == init + [x];
      assert forall i :: 0 <= i < |init| ==> init[i] == xs[i];
      AllHandled(s, init, w, lenient);
      var p := Turns(start, init);
      TurnCases(s, init, p, x, w, lenient);
      if !lenient && PastDeadline(s.schedule[x.id], w) {
        HandledFailed(s, init, p, x, w);
      } else if !Met(p.core, s.schedule[x.id]) {
        HandledWaits(s, init, p, x, w, lenient);
      } else {
        HandledRan(s, init, p, x, Turn(p, x), w, lenient);
      }
    }
  }

  lemma FindPlace(s: Core, xs: seq<Slot>, x: Slot, n: nat) returns (i: nat)
    requires Ordered(s, xs) && x.id in s.schedule && n <= |xs|
    requires forall k :: 0 <= k < n ==> s.schedule[xs[k].id].priority >= s.schedule[x.id].priority
    ensures i <= |xs| && forall k :: 0 <= k < i ==> s.schedule[xs[k].id].priority >= s.schedule[x.id].priority
    ensures i < |xs| ==> s.schedule[xs[i].id].priority <= s.schedule[x.id].priority
    decreases |xs| - n
  {
    i := n;
    if n < |xs| && s.schedule[xs[n].id].priority >= s.schedule[x.id].priority { i := FindPlace(s, xs, x, n + 1); }
  }

  /** The slots of some scheduled actions, in order of priority. */
  lemma {:induction false} OrderedSlots(s: Core, ids: set<nat>, w: int, lenient: bool) returns (xs: seq<Slot>)
    requires ids <= s.schedule.Keys
    ensures Ordered(s, xs) && SlotsAt(s, xs, w, lenient) &&
            forall id {:trigger HasSlot(xs, id)} :: HasSlot(xs, id) <==> id in ids
    decreases |ids|
  {
    if ids == {} {
      xs := [];
    } else {
      var id :| id in ids;
      var rest := OrderedSlots(s, ids - {id}, w, lenient);
      var x := SlotAt(id, s.schedule[id], w, lenient);
      assert !HasSlot(rest, id);
      var i := FindPlace(s, rest, x, 0);
      xs := rest[..i] + [x] + rest[i..];
      InsertedIsOrdered(s, rest, i, x);
      InsertedSlots(s, ids, rest, id, x, xs, w, lenient);
    }
  }

  lemma InsertedSlots(s: Core, ids: set<nat>, rest: seq<Slot>, id: nat, x: Slot, xs: seq<Slot>, w: int, lenient: bool)
    requires id in ids && ids <= s.schedule.Keys && x == SlotAt(id, s.schedule[id], w, lenient)
    requires SlotsAt(s, rest, w, lenient) &&
             forall k {:trigger HasSlot(rest, k)} :: HasSlot(rest, k) <==> k in ids - {id}
    requires Ordered(s, xs) && forall y :: y in xs <==> y in rest || y == x
    ensures SlotsAt(s, xs, w, lenient) && forall k {:trigger HasSlot(xs, k)} :: HasSlot(xs, k) <==> k in ids
  {
    forall i | 0 <= i < |xs|
      ensures xs[i].id in s.schedule && xs[i] == SlotAt(xs[i].id, s.schedule[xs[i].id], w, lenient)
    {
      assert xs[i] in xs;
    }
    forall k ensures HasSlot(xs, k) <==> k in ids {
      if HasSlot(xs, k) {
        var i :| 0 <= i < |xs| && xs[i].id == k;
        assert xs[i] in xs;
        if xs[i] in rest { assert HasSlot(rest, k); }
      }
      if k in ids {
        if k != id {
          assert HasSlot(rest, k);
          var j :| 0 <= j < |rest| && rest[j].id == k;
          assert rest[j] in xs;
        } else {
          assert x in xs;
        }
      }
    }
  }

  function ReadAt(s: Core, w: int): map<nat, int> {
    map id | id in s.schedule :: w
  }

  /** A tick at the instant. */
  ghost predicate TickAt(s: Core, op: Op, w: int, lenient: bool) {
    op.TickOp? && op.readings == ReadAt(s, w) && DueOrder(s, op.readings, op.xs) && SlotsAt(s, op.xs, w, lenient)
  }

  lemma SomeTick(s: Core, w: int, lenient: bool) returns (op: Op)
    ensures TickAt(s, op, w, lenient)
  {
    var ids := set id | id in s.schedule && s.schedule[id].due <= w;
    var xs := OrderedSlots(s, ids, w, lenient);
    op := TickOp(ReadAt(s, w), xs);
    forall id | id in s.schedule && op.readings[id] >= s.schedule[id].due
      ensures exists i :: 0 <= i < |xs| && xs[i].id == id {
      assert HasSlot(xs, id);
    }
    forall i | 0 <= i < |xs| ensures op.readings[xs[i].id] >= s.schedule[xs[i].id].due { assert HasSlot(xs, xs[i].id); }
  }

  /** What is left of one scheduled action after some ticks up to the instant, given what ran. */
  predicate Left(s: Core, t: Core, log: seq<Entry>, id: nat, w: int, lenient: bool)
    requires id in s.schedule
  {
    var a := s.schedule[id];
    if id in t.schedule then
      SameButDue(a, t.schedule[id]) && (if InLog(log, id) then a.periodic else t.schedule[id] == a)
    else InLog(log, id) || (!lenient && PastDeadline(a, w))
  }

  /** Ticks up to the instant, in which all that ran completed, have led from s to t. */
  ghost predicate Advanced(s: Core, t: Core, log: seq<Entry>, w: int, lenient: bool) {
    && t.nextId == s.nextId && t.schedule.Keys <= s.schedule.Keys
    && (forall id {:trigger Left(s, t, log, id, w, lenient)} :: id in s.schedule ==> Left(s, t, log, id, w, lenient))
    && (forall id {:trigger Done(t, id)} {:trigger Done(s, id)} :: Done(t, id) <==> Done(s, id) || InLog(log, id))
    && (forall id :: id in t.completed ==> id < s.nextId)
  }

  lemma AdvancedCalm(s: Core, t: Core, log: seq<Entry>, w: int, lenient: bool)
    requires Calm(s) && Advanced(s, t, log, w, lenient)
    ensures Calm(t)
  {
    forall id | id in t.schedule
      ensures id < t.nextId && t.schedule[id].needs == []
      ensures t.schedule[id].periodic ==> t.schedule[id].deadline == 0
      ensures Done(t, id) ==> t.schedule[id].periodic
    {
      assert Left(s, t, log, id, w, lenient);
    }
  }

  /** A tick at the instant runs every action that may run and waits for nothing. */
  lemma TickAdvances(s: Core, op: Op, w: int, lenient: bool)
    requires Calm(s) && TickAt(s, op, w, lenient)
    ensures Advanced(s, Tick(s, op.xs).0, Tick(s, op.xs).1, w, lenient)
    ensures forall id :: id in s.schedule && MayRun(s.schedule[id], w, lenient) && Met(s, s.schedule[id]) ==>
            InLog(Tick(s, op.xs).1, id)
  {
    AllHandled(s, op.xs, w, lenient);
    var p := Turns(Progress(s, {}, []), op.xs);
    var (t, log) := Tick(s, op.xs);
    forall id | id in s.schedule ensures Left(s, t, log, id, w, lenient) { assert Treated(s, p, id, w, lenient); }
    forall id ensures Done(t, id) <==> Done(s, id) || InLog(log, id) { assert Done(p.core, id) <==> Done(t, id); }
    forall id | id in s.schedule && MayRun(s.schedule[id], w, lenient) && Met(s, s.schedule[id])
      ensures InLog(log, id) {
      var i :| 0 <= i < |op.xs| && op.xs[i].id == id;
      assert Judged(s, p, op.xs[i].id, w, lenient);
    }
  }

  lemma AdvancedNothing(s: Core, w: int, lenient: bool)
    requires Calm(s)
    ensures Advanced(s, s, [], w, lenient)
  {
  }

  lemma InLogConcat(a: seq<Entry>, b: seq<Entry>, id: nat)
    ensures InLog(a + b, id) <==> InLog(a, id) || InLog(b, id)
  {
    if k :| 0 <= k < |a| && a[k].id == id { assert (a + b)[k].id == id; }
    if k :| 0 <= k < |b| && b[k].id == id { assert (a + b)[|a| + k].id == id; }
  }

  lemma LeftTwice(s: Core, t: Core, u: Core, a: seq<Entry>, b: seq<Entry>, id: nat, v: int, w: int, lenient: bool)
    requires id in s.schedule && Left(s, t, a, id, v, lenient) && v <= w
    requires id in t.schedule ==> Left(t, u, b, id, w, lenient)
    requires u.schedule.Keys <= t.schedule.Keys
    ensures Left(s, u, a + b, id, w, lenient)
  {
    InLogConcat(a, b, id);
  }

  lemma AdvancedTwice(s: Core, t: Core, u: Core, a: seq<Entry>, b: seq<Entry>, v: int, w: int, lenient: bool)
    requires Advanced(s, t, a, v, lenient) && Advanced(t, u, b, w, lenient) && v <= w
    ensures Advanced(s, u, a + b, w, lenient)
  {
    forall id | id in s.schedule ensures Left(s, u, a + b, id, w, lenient) {
      assert Left(s, t, a, id, v, lenient);
      if id in t.schedule { assert Left(t, u, b, id, w, lenient); }
      LeftTwice(s, t, u, a, b, id, v, w, lenient);
    }
    forall id ensures Done(u, id) <==> Done(s, id) || InLog(a + b, id) {
      InLogConcat(a, b, id);
      assert Done(t, id) <==> Done(s, id) || InLog(a, id);
    }
  }

  // ---- A clock that never goes back

  /**
   The clock's readings in one operation, in their order, lie between two instants: one for each scheduled action by id,
   then those of each due action. An action that is periodic or has a deadline is due when it is scheduled.
   */
  predicate OpSteady(op: Op, from: int, to: int) {
    from <= to &&
    match op
    case ScheduleOp(a, _) => a.periodic || a.deadline != 0 ==> from <= a.due <= to
    case TickOp(readings, xs) => TickSteady(readings, xs, from, to)
    case _ => true
  }

  predicate TickSteady(readings: map<nat, int>, xs: seq<Slot>, from: int, to: int) {
    && (forall id :: id in readings ==> from <= readings[id] <= to)
    && (forall i, j :: i in readings && j in readings && i < j ==> readings[i] <= readings[j])
    && (forall id, i :: id in readings && 0 <= i < |xs| ==> readings[id] <= xs[i].at)
    && (forall i :: 0 <= i < |xs| ==> from <= xs[i].at <= xs[i].after <= to)
    && (forall i, j :: 0 <= i < j < |xs| ==> xs[i].after <= xs[j].at)
  }

  /** The instants between the operations, with the first before and the last after all of them. */
  predicate Steady(ops: seq<Op>, times: seq<int>) {
    |times| == |ops| + 1 && forall i :: 0 <= i < |ops| ==> OpSteady(ops[i], times[i], times[i + 1])
  }

  predicate AllAt(ops: seq<Op>, w: int) {
    forall i :: 0 <= i < |ops| ==> OpSteady(ops[i], w, w)
  }

  lemma TickIsSteady(s: Core, op: Op, w: int)
    requires TickAt(s, op, w, false)
    ensures OpSteady(op, w, w)
  {
  }

  /** Operations at one instant may follow whatever ended before it. */
  lemma SteadyThen(es: seq<Op>, ts: seq<int>, fs: seq<Op>, w: int) returns (us: seq<int>)
    requires Steady(es, ts) && AllAt(fs, w) && ts[|ts| - 1] <= w
    ensures Steady(es + fs, us) && us[0] == ts[0] && us[|us| - 1] <= w
  {
    us := ts + seq(|fs|, _ => w);
    var ops := es + fs;
    forall i | 0 <= i < |ops| ensures OpSteady(ops[i], us[i], us[i + 1]) {
      if i < |es| { assert us[i] == ts[i] && us[i + 1] == ts[i + 1]; } else { assert OpSteady(fs[i - |es|], w, w); }
    }
  }

  // ---- Ticks until nothing more can complete

  function Undone(s: Core): set<nat> {
    set id | id in s.schedule && !Done(s, id)
  }

  /** At the instant every scheduled action that may run and waits for nothing has completed. */
  predicate Settled(s: Core, w: int, lenient: bool) {
    forall id :: id in s.schedule && MayRun(s.schedule[id], w, lenient) && Met(s, s.schedule[id]) ==> Done(s, id)
  }

  lemma UndoneShrinks(s: Core, t: Core, log: seq<Entry>, id: nat, w: int, lenient: bool)
    requires Advanced(s, t, log, w, lenient) && id in Undone(s) && InLog(log, id)
    ensures |Undone(t)| < |Undone(s)|
  {
    assert Done(t, id);
    forall k | k in Undone(t) ensures k in Undone(s) - {id} { assert Done(s, k) ==> Done(t, k); }
    Smaller(Undone(t), Undone(s), id);
  }

  lemma Smaller(a: set<nat>, b: set<nat>, x: nat)
    requires a <= b - {x} && x in b
    ensures |a| < |b|
  {
    assert b == a + (b - a);
    assert |b| == |a| + |b - a|;
    assert x in b - a;
  }

  /** One tick after which fewer are left. */
  lemma SettleOne(s: Core, w: int, lenient: bool) returns (op: Op)
    requires Calm(s) && !Settled(s, w, lenient)
    ensures Legal(s, op) && (!lenient ==> OpSteady(op, w, w))
    ensures var (t, log) := Apply(s, op);
            Advanced(s, t, log, w, lenient) && Calm(t) && |Undone(t)| < |Undone(s)|
  {
    var id :| id in s.schedule && MayRun(s.schedule[id], w, lenient) && Met(s, s.schedule[id]) && !Done(s, id);
    op := SomeTick(s, w, lenient);
    TickAdvances(s, op, w, lenient);
    var (t, log) := Tick(s, op.xs);
    AdvancedCalm(s, t, log, w, lenient);
    UndoneShrinks(s, t, log, id, w, lenient);
    if !lenient { TickIsSteady(s, op, w); }
  }

  /** The operations lead to a calm state in which nothing more can complete at the instant. */
  ghost predicate Settles(s: Core, ops: seq<Op>, w: int, lenient: bool) {
    var (t, log) := Play(s, ops);
    Advanced(s, t, log, w, lenient) && Calm(t) && Settled(t, w, lenient)
  }

  lemma SettlesMore(s: Core, op: Op, t: Core, log: seq<Entry>, rest: seq<Op>, w: int, lenient: bool)
    requires Legal(s, op) && (t, log) == Apply(s, op) && Advanced(s, t, log, w, lenient) && Settles(t, rest, w, lenient)
    ensures Settles(s, [op] + rest, w, lenient)
  {
    PlayOne(s, op);
    PlayThen(s, [op], rest);
    AdvancedTwice(s, t, Play(t, rest).0, log, Play(t, rest).1, w, w, lenient);
  }

  lemma {:induction false} Settle(s: Core, w: int, lenient: bool) returns (ops: seq<Op>)
    requires Calm(s)
    ensures Settles(s, ops, w, lenient) && (!lenient ==> AllAt(ops, w))
    decreases |Undone(s)|
  {
    if Settled(s, w, lenient) {
      ops := [];
      AdvancedNothing(s, w, lenient);
    } else {
      var op := SettleOne(s, w, lenient);
      var (t, log) := Apply(s, op);
      var rest := Settle(t, w, lenient);
      SettlesMore(s, op, t, log, rest, w, lenient);
      ops := [op] + rest;
    }
  }

  /** If all that x waits for is done by then, x has run, or runs in one more tick. */
  lemma RunsLast(s: Core, ops: seq<Op>, x: nat, w: int, lenient: bool) returns (op: Op)
    requires x in s.schedule && MayRun(s.schedule[x], w, lenient)
    requires var (t, log) := Play(s, ops);
             Advanced(s, t, log, w, lenient) && Calm(t) && forall d :: d in s.schedule[x].deps ==> Done(t, d)
    ensures InLog(Play(s, ops + [op]).1, x)
    ensures !lenient ==> OpSteady(op, w, w)
  {
    var (t, log) := Play(s, ops);
    op := SomeTick(t, w, lenient);
    TickAdvances(t, op, w, lenient);
    PlayAppend(s, ops, op);
    InLogConcat(log, Tick(t, op.xs).1, x);
    assert Left(s, t, log, x, w, lenient);
    if !InLog(log, x) { MetIs(t, t.schedule[x]); }
    if !lenient { TickIsSteady(t, op, w); }
  }

  // ---- Whatever the clock reads

  /** Every dependency of a scheduled action is an id that was given out. */
  predicate DepsGiven(s: Core) {
    forall id, d :: id in s.schedule && d in s.schedule[id].deps ==> d < s.nextId
  }

  lemma {:induction false} LastDue(s: Core, ids: set<nat>) returns (w: int)
    requires ids <= s.schedule.Keys
    ensures forall id :: id in ids ==> s.schedule[id].due <= w
    decreases |ids|
  {
    w := 0;
    if ids != {} {
      var id :| id in ids;
      w := LastDue(s, ids - {id});
      if w < s.schedule[id].due { w := s.schedule[id].due; }
    }
  }

  /** What has not completed when all that is due has been run is stuck. */
  lemma LeftIsStuck(s: Core, ops: seq<Op>, w: int)
    requires Calm(s) && DepsGiven(s) && Settles(s, ops, w, true)
    requires forall id :: id in s.schedule ==> s.schedule[id].due <= w
    ensures Stuck(s, set id: nat | id < s.nextId && !Done(Play(s, ops).0, id))
  {
    var (t, log) := Play(s, ops);
    var c := set id: nat | id < s.nextId && !Done(t, id);
    forall id | id in c ensures !Done(s, id) && WaitsFor(s, id, c) {
      assert !InLog(log, id) by { assert Done(t, id) <==> Done(s, id) || InLog(log, id); }
      if id in s.schedule {
        assert Left(s, t, log, id, w, true);
        MetIs(t, t.schedule[id]);
      }
    }
  }

  lemma RunsIfNoneHopeless(s: Core, x: nat) returns (ops: seq<Op>)
    requires Calm(s) && DepsGiven(s) && x in s.schedule && forall d :: d in s.schedule[x].deps ==> !Hopeless(s, d)
    ensures InLog(Play(s, ops).1, x)
  {
    var w := LastDue(s, s.schedule.Keys);
    var init := Settle(s, w, true);
    LeftIsStuck(s, init, w);
    var c := set id: nat | id < s.nextId && !Done(Play(s, init).0, id);
    forall d | d in s.schedule[x].deps ensures Done(Play(s, init).0, d) { assert d !in c; }
    var op := RunsLast(s, init, x, w, true);
    ops := init + [op];
  }

  /** The same state with more ids given out, to actions that wait for nothing. */
  predicate Filled(s: Core, t: Core, now: int) {
    && t.completed == s.completed && s.nextId <= t.nextId
    && (forall id :: id in s.schedule ==> id in t.schedule && t.schedule[id] == s.schedule[id])
    && (forall id :: id in t.schedule ==> id in s.schedule || s.nextId <= id < t.nextId)
    && (forall id :: s.nextId <= id < t.nextId ==> id in t.schedule && t.schedule[id] == Filler(now))
  }

  function Filler(now: int): Action {
    Action("", now, 0, [], [], 0, false, 0)
  }

  lemma FillerAdded(s: Core, now: int)
    requires Calm(s) && |s.schedule| < s.maxScheduled
    ensures var t := Schedule(s, Filler(now), true).0; Calm(t) && Filled(s, t, now) && t.nextId == s.nextId + 1
  {
  }

  lemma FillOne(s: Core, now: int) returns (ops: seq<Op>)
    requires Calm(s)
    ensures AllAt(ops, now) && Play(s, ops).1 == []
    ensures var t := Play(s, ops).0; Calm(t) && Filled(s, t, now) && t.nextId == s.nextId + 1
  {
    var limit, add := LimitOp(|s.schedule| + 1), ScheduleOp(Filler(now), true);
    var wide := s.(maxScheduled := |s.schedule| + 1);
    ops := [limit] + [add];
    PlayOne(s, limit);
    PlayAppend(s, [limit], add);
    assert Stepped(wide, [], add) == (Schedule(wide, Filler(now), true).0, []);
    FillerAdded(wide, now);
  }

  lemma FilledTwice(s: Core, t: Core, u: Core, now: int)
    requires Filled(s, t, now) && Filled(t, u, now)
    ensures Filled(s, u, now)
  {
  }

  lemma {:induction false} FillUp(s: Core, n: nat, now: int) returns (ops: seq<Op>)
    requires Calm(s)
    ensures AllAt(ops, now) && Play(s, ops).1 == []
    ensures var t := Play(s, ops).0; Calm(t) && Filled(s, t, now) && n <= t.nextId
    decreases n - s.nextId
  {
    if n <= s.nextId {
      ops := [];
    } else {
      var first := FillOne(s, now);
      var t := Play(s, first).0;
      var rest := FillUp(t, n, now);
      ops := first + rest;
      PlayThen(s, first, rest);
      FilledTwice(s, t, Play(t, rest).0, now);
    }
  }

  lemma FilledStuck(s: Core, t: Core, now: int, c: set<nat>)
    requires Filled(s, t, now) && Stuck(t, c)
    ensures Stuck(s, c)
  {
    forall id | id in c ensures id < s.nextId && !Done(s, id) && WaitsFor(s, id, c) { assert WaitsFor(t, id, c); }
  }

  lemma {:induction false} Above(deps: seq<nat>) returns (n: nat)
    ensures forall d :: d in deps ==> d < n
  {
    n := 0;
    if deps != [] {
      n := Above(deps[1..]);
      assert deps == [deps[0]] + deps[1..];
      if n <= deps[0] { n := deps[0] + 1; }
    }
  }

  lemma {:induction false} AboveAll(s: Core, ids: set<nat>) returns (n: nat)
    requires ids <= s.schedule.Keys
    ensures forall id, d :: id in ids && d in s.schedule[id].deps ==> d < n
    decreases |ids|
  {
    n := 0;
    if ids != {} {
      var id :| id in ids;
      n := AboveAll(s, ids - {id});
      var m := Above(s.schedule[id].deps);
      if n < m { n := m; }
    }
  }

  /** Enough ids can be given out for all dependencies, without anything else changing. */
  lemma GiveAll(s: Core, now: int) returns (ops: seq<Op>)
    requires Calm(s)
    ensures AllAt(ops, now) && Play(s, ops).1 == []
    ensures var t := Play(s, ops).0; Calm(t) && Filled(s, t, now) && DepsGiven(t)
  {
    var n := AboveAll(s, s.schedule.Keys);
    ops := FillUp(s, n, now);
    var t := Play(s, ops).0;
    forall id, d | id in t.schedule && d in t.schedule[id].deps ensures d < t.nextId {
      assert id in s.schedule;
    }
  }

  predicate PeriodicOpen(s: Core) {
    forall id :: id in s.schedule && s.schedule[id].periodic ==> s.schedule[id].deadline == 0
  }

  lemma {:induction false} RunPeriodic(ops: seq<Op>)
    ensures PeriodicOpen(Run(ops).0)
    decreases |ops|
  {
    if |ops| > 0 {
      var init, op := ops[..|ops| - 1], ops[|ops| - 1];
      RunPeriodic(init);
      var s := Run(init).0;
      if op.TickOp? && Legal(s, op) { TurnsPeriodic(Progress(s, {}, []), op.xs); }
      assert ops == init + [op];
      RunAppend(init, op);
    }
  }

  lemma {:induction false} TurnsPeriodic(p: Progress, xs: seq<Slot>)
    requires PeriodicOpen(p.core) && forall i :: 0 <= i < |xs| ==> xs[i].id in p.core.schedule
    ensures PeriodicOpen(Turns(p, xs).core)
  {
    if xs != [] {
      TurnsPeriodic(p, xs[..|xs| - 1]);
      assert xs[|xs| - 1].id in Turns(p, xs[..|xs| - 1]).core.schedule.Keys;
    }
  }

  lemma CalmRun(ops: seq<Op>)
    ensures Calm(Run(ops).0)
  {
    RunSafe(ops);
    RunNeedsNothing(ops);
    RunPeriodic(ops);
    var (s, log) := Run(ops);
    forall id | id in s.schedule && Done(s, id) ensures s.schedule[id].periodic {
      assert CompletedLast(log, id);
    }
  }

  /** The action runs in what follows the run. */
  predicate RunsIn(ops: seq<Op>, more: seq<Op>, x: nat) {
    !GoesOn(Run(ops).1, Run(ops + more).1, {x})
  }

  lemma RunsInIs(ops: seq<Op>, more: seq<Op>, x: nat)
    ensures RunsIn(ops, more, x) <==> InLog(Play(Run(ops).0, more).1, x)
  {
    GoesOnIs(ops, more, {x});
  }

  ghost predicate CanRun(ops: seq<Op>, x: nat) {
    exists more :: RunsIn(ops, more, x)
  }

  lemma ThenRuns(s: Core, x: nat) returns (ops: seq<Op>)
    requires Calm(s) && x in s.schedule && forall d :: d in s.schedule[x].deps ==> !Hopeless(s, d)
    ensures InLog(Play(s, ops).1, x)
  {
    var first := GiveAll(s, 0);
    var t := Play(s, first).0;
    forall d | d in t.schedule[x].deps ensures !Hopeless(t, d) {
      forall c | Stuck(t, c) ensures d !in c {
        FilledStuck(s, t, 0, c);
        assert !Hopeless(s, d);
      }
    }
    var rest := RunsIfNoneHopeless(t, x);
    ops := first + rest;
    PlayThen(s, first, rest);
    InLogConcat(Play(s, first).1, Play(t, rest).1, x);
  }

  /**
   In every run a scheduled action, whether it has run before or not, can run again in some continuation exactly when
   nothing that it waits for is stuck.
   */
  lemma CanRunIff(ops: seq<Op>, x: nat)
    requires x in Run(ops).0.schedule
    ensures CanRun(ops, x) <==> forall d :: d in Run(ops).0.schedule[x].deps ==> !Hopeless(Run(ops).0, d)
  {
    var s := Run(ops).0;
    CalmRun(ops);
    if d :| d in s.schedule[x].deps && Hopeless(s, d) {
      forall more ensures !RunsIn(ops, more, x) {
        HopelessNeverRuns(s, x, d, more);
        RunsInIs(ops, more, x);
      }
    } else {
      var more := ThenRuns(s, x);
      RunsInIs(ops, more, x);
    }
  }
}
