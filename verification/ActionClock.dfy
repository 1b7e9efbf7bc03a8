/** Which scheduled actions can still run on a clock that never goes back, deadlines included. */
module ActionClock {
  import opened ActionScheduler
  import opened ActionWaiting

  // ---- Never, on a clock that never goes back

  /** Whenever the action may run at the instant, one that it waits for is barred until then. */
  ghost predicate BarredAt(s: Core, b: iset<(nat, int)>, id: nat, v: int) {
    id in s.schedule && MayRun(s.schedule[id], v, false) ==> exists d :: d in s.schedule[id].deps && (d, v) in b
  }

  /** Pairs of an id and an instant: from now until then the id does not complete. */
  ghost predicate Barring(s: Core, now: int, b: iset<(nat, int)>) {
    forall id, t :: (id, t) in b && now <= t ==>
      id < s.nextId && !Done(s, id) && forall v {:trigger BarredAt(s, b, id, v)} :: now <= v <= t ==>
        BarredAt(s, b, id, v)
  }

  ghost predicate Barred(s: Core, now: int, id: nat, t: int) {
    exists b :: Barring(s, now, b) && (id, t) in b
  }

  /** With some pairs barred, x waits for barred ones at every instant from now on. */
  ghost predicate Kept(s: Core, now: int, b: iset<(nat, int)>, x: nat) {
    && Barring(s, now, b) && x < s.nextId
    && forall v {:trigger BarredAt(s, b, x, v)} :: now <= v ==> BarredAt(s, b, x, v)
  }

  lemma KeptLater(s: Core, now: int, later: int, b: iset<(nat, int)>, x: nat)
    requires Kept(s, now, b, x) && now <= later
    ensures Kept(s, later, b, x)
  {
  }

  /** An action that runs is not barred until any later instant, and is not x. */
  lemma RunsUnbarred(s: Core, z: Slot, u: int, b: iset<(nat, int)>, x: nat)
    requires Kept(s, u, b, x) && z.id in s.schedule && Runs(s, z) && s.schedule[z.id].due <= z.at && u <= z.at
    ensures z.id != x && forall t :: z.at <= t ==> (z.id, t) !in b
  {
    var a := s.schedule[z.id];
    MetIs(s, a);
    assert !BarredAt(s, b, z.id, z.at) by {
      forall d | d in a.deps ensures (d, z.at) !in b { assert Done(s, d); }
    }
  }

  lemma TurnKept(p: Progress, z: Slot, u: int, b: iset<(nat, int)>, x: nat)
    requires Kept(p.core, u, b, x) && z.id in p.core.schedule
    requires p.core.schedule[z.id].due <= z.at && u <= z.at <= z.after
    ensures Kept(Turn(p, z).core, z.after, b, x)
    ensures !InLog(p.log, x) ==> !InLog(Turn(p, z).log, x)
  {
    var s, t := p.core, Turn(p, z).core;
    if !PastDeadline(s.schedule[z.id], z.at) && Runs(s, z) {
      RunsUnbarred(s, z, u, b, x);
      InLogMore(p.log, Entry(z.id, s.schedule[z.id], z.at, z.outcome), x);
      ChangedKept(s, t, z.id, u, z.after, b, x);
    } else {
      ChangedKept(s, t, z.id, u, z.after, b, x);
    }
  }

  /** One action's change leaves the pairs barred if it did not complete or is not among them. */
  lemma ChangedKept(s: Core, t: Core, y: nat, u: int, v: int, b: iset<(nat, int)>, x: nat)
    requires Kept(s, u, b, x) && u <= v && t.nextId == s.nextId
    requires forall id :: id != y ==> (id in t.schedule <==> id in s.schedule)
    requires forall id :: id != y && id in t.schedule && id in s.schedule ==> t.schedule[id] == s.schedule[id]
    requires forall id {:trigger Done(t, id)} :: id != y ==> (Done(t, id) <==> Done(s, id))
    requires (t.schedule == s.schedule && !Done(t, y)) || t == s || (y != x && forall i :: v <= i ==> (y, i) !in b)
    ensures Kept(t, v, b, x)
  {
    forall id, i | (id, i) in b && v <= i
      ensures id < t.nextId && !Done(t, id)
              && forall w {:trigger BarredAt(t, b, id, w)} :: v <= w <= i ==> BarredAt(t, b, id, w)
    {
      forall w | v <= w <= i ensures BarredAt(t, b, id, w) { assert BarredAt(s, b, id, w); }
    }
    forall w | v <= w ensures BarredAt(t, b, x, w) { assert BarredAt(s, b, x, w); }
  }

  /** The clock after the slots. */
  function EndOf(xs: seq<Slot>, from: int): int {
    if xs == [] then from else xs[|xs| - 1].after
  }

  lemma {:induction false} Untouched(p: Progress, xs: seq<Slot>, id: nat)
    requires id in p.core.schedule && forall i :: 0 <= i < |xs| ==> xs[i].id in p.core.schedule && xs[i].id != id
    ensures id in Turns(p, xs).core.schedule && Turns(p, xs).core.schedule[id] == p.core.schedule[id]
  {
    if xs != [] { Untouched(p, xs[..|xs| - 1], id); }
  }

  /** The slots' readings follow one another, each from when its action is due on. */
  predicate InTime(s: Core, xs: seq<Slot>, from: int) {
    && (forall i :: 0 <= i < |xs| ==> xs[i].id in s.schedule && s.schedule[xs[i].id].due <= xs[i].at)
    && (forall i :: 0 <= i < |xs| ==> from <= xs[i].at <= xs[i].after)
    && (forall i, j :: 0 <= i < j < |xs| ==> xs[i].after <= xs[j].at && xs[i].id != xs[j].id)
  }

  lemma {:induction false} TurnsKept(p: Progress, xs: seq<Slot>, from: int, b: iset<(nat, int)>, x: nat)
    requires Kept(p.core, from, b, x) && InTime(p.core, xs, from) && !InLog(p.log, x)
    ensures Kept(Turns(p, xs).core, EndOf(xs, from), b, x) && !InLog(Turns(p, xs).log, x)
    decreases |xs|
  {
    if xs != [] {
      var init, z := xs[..|xs| - 1], xs[|xs| - 1];
      TurnsKept(p, init, from, b, x);
      Untouched(p, init, z.id);
      TurnKept(Turns(p, init), z, EndOf(init, from), b, x);
    }
  }

  lemma TickKept(s: Core, readings: map<nat, int>, xs: seq<Slot>, from: int, to: int, b: iset<(nat, int)>, x: nat)
    requires Kept(s, from, b, x) && DueOrder(s, readings, xs) && TickSteady(readings, xs, from, to) && from <= to
    ensures Kept(Tick(s, xs).0, to, b, x) && !InLog(Tick(s, xs).1, x)
  {
    var p := Progress(s, {}, []);
    TurnsKept(p, xs, from, b, x);
    var q := Turns(p, xs);
    KeptLater(q.core, EndOf(xs, from), to, b, x);
    RemovedKept(q.core, q.gone, to, b, x);
  }

  lemma RemovedKept(s: Core, gone: set<nat>, now: int, b: iset<(nat, int)>, x: nat)
    requires Kept(s, now, b, x)
    ensures Kept(s.(schedule := s.schedule - gone), now, b, x)
  {
    var t := s.(schedule := s.schedule - gone);
    forall id, i | (id, i) in b && now <= i
      ensures id < t.nextId && !Done(t, id)
              && forall w {:trigger BarredAt(t, b, id, w)} :: now <= w <= i ==> BarredAt(t, b, id, w)
    {
      forall w | now <= w <= i ensures BarredAt(t, b, id, w) { assert BarredAt(s, b, id, w); }
    }
    forall w | now <= w ensures BarredAt(t, b, x, w) { assert BarredAt(s, b, x, w); }
  }

  /** The pairs stay barred if no id completes and a scheduled action only waits for more, or is new, or is gone. */
  lemma TightenedKept(s: Core, t: Core, now: int, later: int, b: iset<(nat, int)>, x: nat)
    requires Kept(s, now, b, x) && now <= later && s.nextId <= t.nextId
    requires forall id {:trigger Done(t, id)} :: Done(t, id) ==> Done(s, id)
    requires forall id :: id in t.schedule && id < s.nextId ==>
               id in s.schedule && t.schedule[id] == s.schedule[id].(deps := t.schedule[id].deps)
               && forall d :: d in s.schedule[id].deps ==> d in t.schedule[id].deps
    ensures Kept(t, later, b, x)
  {
    forall id: nat, v | BarredAt(s, b, id, v) && id < s.nextId ensures BarredAt(t, b, id, v) {}
    forall id, i | (id, i) in b && later <= i
      ensures id < t.nextId && !Done(t, id)
              && forall w {:trigger BarredAt(t, b, id, w)} :: later <= w <= i ==> BarredAt(t, b, id, w)
    {
      forall w | later <= w <= i ensures BarredAt(t, b, id, w) { assert BarredAt(s, b, id, w); }
    }
    forall w | later <= w ensures BarredAt(t, b, x, w) { assert BarredAt(s, b, x, w); }
  }

  lemma OpKept(s: Core, op: Op, from: int, to: int, b: iset<(nat, int)>, x: nat)
    requires Kept(s, from, b, x) && Legal(s, op) && OpSteady(op, from, to)
    ensures Kept(Apply(s, op).0, to, b, x) && !InLog(Apply(s, op).1, x)
  {
    if op.TickOp? {
      TickKept(s, op.readings, op.xs, from, to, b, x);
    } else {
      TightenedKept(s, Apply(s, op).0, from, to, b, x);
    }
  }

  lemma {:induction false} PlayKept(s: Core, ops: seq<Op>, times: seq<int>, b: iset<(nat, int)>, x: nat)
    requires Steady(ops, times) && Kept(s, times[0], b, x)
    ensures Kept(Play(s, ops).0, times[|ops|], b, x) && !InLog(Play(s, ops).1, x)
    decreases |ops|
  {
    if |ops| > 0 {
      var n := |ops| - 1;
      assert Steady(ops[..n], times[..n + 1]);
      PlayKept(s, ops[..n], times[..n + 1], b, x);
      var (t, log) := Play(s, ops[..n]);
      assert OpSteady(ops[n], times[n], times[n + 1]);
      if Legal(t, ops[n]) {
        OpKept(t, ops[n], times[n], times[n + 1], b, x);
        InLogConcat(log, Apply(t, ops[n]).1, x);
      } else {
        KeptLater(t, times[n], times[n + 1], b, x);
      }
    }
  }

  /** All barred pairs together are barred. */
  ghost function AllBarred(s: Core, now: int): iset<(nat, int)> {
    iset id: nat, t: int | Barred(s, now, id, t) :: (id, t)
  }

  lemma AllAreBarring(s: Core, now: int)
    ensures Barring(s, now, AllBarred(s, now))
  {
    var all := AllBarred(s, now);
    forall id, t | (id, t) in all && now <= t
      ensures id < s.nextId && !Done(s, id)
              && forall v {:trigger BarredAt(s, all, id, v)} :: now <= v <= t ==> BarredAt(s, all, id, v)
    {
      var b :| Barring(s, now, b) && (id, t) in b;
      forall v | now <= v <= t ensures BarredAt(s, all, id, v) {
        assert BarredAt(s, b, id, v);
        forall d | (d, v) in b ensures (d, v) in all { assert Barred(s, now, d, v); }
      }
    }
  }

  /** There is an instant at which the action may run and by which nothing that it waits for is barred. */
  ghost predicate HasInstant(s: Core, now: int, x: nat)
    requires x in s.schedule
  {
    exists t :: now <= t && Free(s, now, x, t)
  }

  ghost predicate Free(s: Core, now: int, x: nat, t: int)
    requires x in s.schedule
  {
    MayRun(s.schedule[x], t, false) && forall d :: d in s.schedule[x].deps ==> !Barred(s, now, d, t)
  }

  lemma NoInstantNeverRuns(s: Core, now: int, x: nat, ops: seq<Op>, times: seq<int>)
    requires x in s.schedule && x < s.nextId && !HasInstant(s, now, x) && Steady(ops, times) && times[0] == now
    ensures !InLog(Play(s, ops).1, x)
  {
    var b := AllBarred(s, now);
    AllAreBarring(s, now);
    forall v | now <= v ensures BarredAt(s, b, x, v) { assert !Free(s, now, x, v); }
    PlayKept(s, ops, times, b, x);
  }

  // ---- What a steady run can be continued to

  /** What has not completed after each of the instants from now on. */
  ghost function LateOnes(s: Core, now: int, states: seq<Core>): iset<(nat, int)> {
    iset id: nat, t: int | now <= t < now + |states| && id < s.nextId && !Done(states[t - now], id) :: (id, t)
  }

  /** One state for each instant from now on: settled at it, and reached from s by then. */
  ghost predicate SettledAt(s: Core, now: int, states: seq<Core>, logs: seq<seq<Entry>>, i: nat)
    requires i < |states| == |logs|
  {
    Calm(states[i]) && Settled(states[i], now + i, false) && Advanced(s, states[i], logs[i], now + i, false)
  }

  ghost predicate Timeline(s: Core, now: int, states: seq<Core>, logs: seq<seq<Entry>>) {
    && |states| == |logs|
    && (forall i {:trigger SettledAt(s, now, states, logs, i)} :: 0 <= i < |states| ==>
         SettledAt(s, now, states, logs, i))
    && (forall i, j, id :: 0 <= i <= j < |states| && Done(states[i], id) ==> Done(states[j], id))
  }

  /** At each instant an action that may run but has not completed waits for one that has not. */
  lemma LateBarredAt(s: Core, now: int, states: seq<Core>, logs: seq<seq<Entry>>, id: nat, v: int)
    requires Calm(s) && DepsGiven(s) && Timeline(s, now, states, logs)
    requires now <= v < now + |states| && id < s.nextId && !Done(states[v - now], id)
    ensures BarredAt(s, LateOnes(s, now, states), id, v)
  {
    var i := v - now;
    assert SettledAt(s, now, states, logs, i);
    var t := states[i];
    if id in s.schedule && MayRun(s.schedule[id], v, false) {
      assert Left(s, t, logs[i], id, v, false);
      assert !InLog(logs[i], id) by { assert Done(t, id) <==> Done(s, id) || InLog(logs[i], id); }
      MetIs(t, t.schedule[id]);
      var d :| d in s.schedule[id].deps && !Done(t, d);
      assert (d, v) in LateOnes(s, now, states);
    }
  }

  lemma StillDone(s: Core, now: int, states: seq<Core>, logs: seq<seq<Entry>>, i: nat, j: nat, id: nat)
    requires Timeline(s, now, states, logs) && i <= j < |states|
    ensures Done(s, id) || Done(states[i], id) ==> Done(states[j], id)
  {
    assert SettledAt(s, now, states, logs, i);
    assert Done(s, id) ==> Done(states[i], id);
  }

  lemma LateOnesBarring(s: Core, now: int, states: seq<Core>, logs: seq<seq<Entry>>)
    requires Calm(s) && DepsGiven(s) && Timeline(s, now, states, logs)
    ensures Barring(s, now, LateOnes(s, now, states))
  {
    var b := LateOnes(s, now, states);
    forall id, t | (id, t) in b && now <= t
      ensures id < s.nextId && !Done(s, id)
              && forall v {:trigger BarredAt(s, b, id, v)} :: now <= v <= t ==> BarredAt(s, b, id, v)
    {
      StillDone(s, now, states, logs, t - now, t - now, id);
      forall v | now <= v <= t ensures BarredAt(s, b, id, v) {
        StillDone(s, now, states, logs, v - now, t - now, id);
        LateBarredAt(s, now, states, logs, id, v);
      }
    }
  }

  /** Ticks at every instant from now to n instants later. */
  lemma {:induction false} TimelineTo(s: Core, now: int, n: nat)
    returns (ops: seq<Op>, times: seq<int>, states: seq<Core>, logs: seq<seq<Entry>>)
    requires Calm(s)
    ensures Steady(ops, times) && times[0] == now && times[|ops|] <= now + n
    ensures Timeline(s, now, states, logs) && |states| == n + 1
    ensures Play(s, ops) == (states[n], logs[n])
    decreases n
  {
    if n == 0 {
      ops := Settle(s, now, false);
      times := SteadyThen([], [now], ops, now);
      assert [] + ops == ops;
      states, logs := [Play(s, ops).0], [Play(s, ops).1];
      assert SettledAt(s, now, states, logs, 0);
    } else {
      var before, clock, earlier, ran := TimelineTo(s, now, n - 1);
      var t := earlier[n - 1];
      assert SettledAt(s, now, earlier, ran, n - 1);
      var more := Settle(t, now + n, false);
      ops := before + more;
      times := SteadyThen(before, clock, more, now + n);
      PlayThen(s, before, more);
      states, logs := earlier + [Play(t, more).0], ran + [ran[n - 1] + Play(t, more).1];
      TimelineMore(s, now, earlier, ran, more, states, logs);
    }
  }

  lemma TimelineMore(s: Core, now: int, earlier: seq<Core>, ran: seq<seq<Entry>>, more: seq<Op>,
                     states: seq<Core>, logs: seq<seq<Entry>>)
    requires Timeline(s, now, earlier, ran) && earlier != []
    requires Settles(earlier[|earlier| - 1], more, now + |earlier|, false)
    requires var (u, log) := Play(earlier[|earlier| - 1], more);
             states == earlier + [u] && logs == ran + [ran[|ran| - 1] + log]
    ensures Timeline(s, now, states, logs)
  {
    var n := |earlier|;
    var t := earlier[n - 1];
    var (u, log) := Play(t, more);
    assert SettledAt(s, now, earlier, ran, n - 1);
    AdvancedTwice(s, t, u, ran[n - 1], log, now + n - 1, now + n, false);
    forall i | 0 <= i < |states| ensures SettledAt(s, now, states, logs, i) {
      if i < n { assert SettledAt(s, now, earlier, ran, i); }
    }
    forall i, j, id | 0 <= i <= j < |states| && Done(states[i], id) ensures Done(states[j], id) {
      if j == n && i < n { assert Done(earlier[i], id) ==> Done(t, id); }
    }
  }

  lemma RunsAtInstant(s: Core, now: int, x: nat, v: int) returns (ops: seq<Op>, times: seq<int>)
    requires Calm(s) && DepsGiven(s) && x in s.schedule && now <= v && Free(s, now, x, v)
    ensures Steady(ops, times) && times[0] == now && InLog(Play(s, ops).1, x)
  {
    var n := v - now;
    var init, clock, states, logs := TimelineTo(s, now, n);
    LateOnesBarring(s, now, states, logs);
    assert SettledAt(s, now, states, logs, n);
    forall d | d in s.schedule[x].deps ensures Done(states[n], d) {
      assert !Barred(s, now, d, v);
      assert (d, v) !in LateOnes(s, now, states);
    }
    var op := RunsLast(s, init, x, v, false);
    ops := init + [op];
    times := SteadyThen(init, clock, [op], v);
  }

  lemma FilledBarring(s: Core, t: Core, now: int, b: iset<(nat, int)>)
    requires Filled(s, t, now) && Barring(t, now, b)
    ensures Barring(s, now, b)
  {
    forall id, i | (id, i) in b && now <= i
      ensures id < s.nextId && !Done(s, id)
              && forall v {:trigger BarredAt(s, b, id, v)} :: now <= v <= i ==> BarredAt(s, b, id, v)
    {
      assert BarredAt(t, b, id, now);
      forall v | now <= v <= i ensures BarredAt(s, b, id, v) { assert BarredAt(t, b, id, v); }
    }
  }

  lemma ThenRunsSteadily(s: Core, now: int, x: nat) returns (ops: seq<Op>, times: seq<int>)
    requires Calm(s) && x in s.schedule && HasInstant(s, now, x)
    ensures Steady(ops, times) && times[0] == now && InLog(Play(s, ops).1, x)
  {
    var v :| now <= v && Free(s, now, x, v);
    var first := GiveAll(s, now);
    var t := Play(s, first).0;
    forall d | d in t.schedule[x].deps ensures !Barred(t, now, d, v) {
      forall b | Barring(t, now, b) ensures (d, v) !in b {
        FilledBarring(s, t, now, b);
        assert !Barred(s, now, d, v);
      }
    }
    var rest, clock := RunsAtInstant(t, now, x, v);
    ops := first + rest;
    times := seq(|first|, _ => now) + clock;
    SteadyFirst(first, now, rest, clock, times);
    PlayThen(s, first, rest);
    InLogConcat(Play(s, first).1, Play(t, rest).1, x);
  }

  lemma SteadyFirst(es: seq<Op>, now: int, fs: seq<Op>, us: seq<int>, times: seq<int>)
    requires AllAt(es, now) && Steady(fs, us) && us[0] == now && times == seq(|es|, _ => now) + us
    ensures Steady(es + fs, times) && times[0] == now
  {
    var ops := es + fs;
    forall i | 0 <= i < |ops| ensures OpSteady(ops[i], times[i], times[i + 1]) {
      if i >= |es| { assert OpSteady(fs[i - |es|], us[i - |es|], us[i - |es| + 1]); }
    }
  }

  /** The action runs in some continuation on a clock that reads `now` at first and never goes back. */
  ghost predicate CanRunFrom(ops: seq<Op>, now: int, x: nat) {
    exists more, times :: Steady(more, times) && times[0] == now && RunsIn(ops, more, x)
  }

  /**
   On a clock that never goes back, a scheduled action can run again exactly when there is an instant from now on at
   which it is due, its deadline is not past, and nothing that it waits for is barred until then.
   */
  lemma CanRunFromIff(ops: seq<Op>, now: int, x: nat)
    requires x in Run(ops).0.schedule
    ensures CanRunFrom(ops, now, x) <==> HasInstant(Run(ops).0, now, x)
  {
    var s := Run(ops).0;
    CalmRun(ops);
    if HasInstant(s, now, x) {
      var more, times := ThenRunsSteadily(s, now, x);
      RunsInIs(ops, more, x);
    } else {
      forall more, times | Steady(more, times) && times[0] == now ensures !RunsIn(ops, more, x) {
        NoInstantNeverRuns(s, now, x, more, times);
        RunsInIs(ops, more, x);
      }
    }
  }

  // ---- Without deadlines

  predicate NoDeadlines(s: Core) {
    forall id :: id in s.schedule ==> s.schedule[id].deadline == 0
  }

  /** Once everything is due, what is barred is stuck. */
  lemma BarredIsHopeless(s: Core, now: int, id: nat, t: int)
    requires NoDeadlines(s) && now <= t && (forall k :: k in s.schedule ==> s.schedule[k].due <= t)
             && Barred(s, now, id, t)
    ensures Hopeless(s, id)
  {
    var b :| Barring(s, now, b) && (id, t) in b;
    var c := set k: nat | k < s.nextId && (k, t) in b;
    forall k | k in c ensures !Done(s, k) && WaitsFor(s, k, c) {
      assert BarredAt(s, b, k, t);
      forall d | (d, t) in b ensures d in c {}
    }
    assert Stuck(s, c) && id in c;
  }

  /**
   Without deadlines a steady clock makes no difference: whatever can run at all can run on it, whatever it reads now.
   */
  lemma CanRunWithoutDeadlines(ops: seq<Op>, now: int, x: nat)
    requires x in Run(ops).0.schedule && NoDeadlines(Run(ops).0)
    ensures CanRunFrom(ops, now, x) <==> CanRun(ops, x)
    ensures CanRunFrom(ops, now, x) <==> forall d :: d in Run(ops).0.schedule[x].deps ==> !Hopeless(Run(ops).0, d)
  {
    var s := Run(ops).0;
    CanRunIff(ops, x);
    CanRunFromIff(ops, now, x);
    if CanRun(ops, x) {
      var due := LastDue(s, s.schedule.Keys);
      var t := if due < now then now else due;
      forall d | d in s.schedule[x].deps ensures !Barred(s, now, d, t) {
        if Barred(s, now, d, t) { BarredIsHopeless(s, now, d, t); }
      }
      assert Free(s, now, x, t);
    }
  }
}
