/**
 Picking the next ticket under three strategies. Times are nanoseconds of a steady clock, which is read once for each
 pending ticket of a resolution.
 */
module ConflictResolver {
  datatype Strategy = StrictPriority | FairnessWeighted | SlaPriority

  datatype Ticket = Ticket(id: string, priority: int, slaSeconds: real, submitTime: int, resources: seq<string>)

  /** The waiting time in seconds, cut to whole microseconds. */
  function Waited(t: Ticket, now: int): real
    requires now >= t.submitTime
  {
    ((now - t.submitTime) / 1000) as real / 1000000.0
  }

  function Effective(s: Strategy, w: real, t: Ticket, now: int): real
    requires now >= t.submitTime
  {
    match s
    case StrictPriority => t.priority as real
    case FairnessWeighted => t.priority as real + Waited(t, now) * w
    case SlaPriority =>
      if t.slaSeconds <= 0.0 then t.priority as real
      else
        var left := t.slaSeconds - Waited(t, now);
        if left <= 0.0 then t.priority as real + 1000000.0 else t.priority as real + 100.0 / left
  }

  /** The two tickets want a common resource. */
  predicate Conflict(a: Ticket, b: Ticket) {
    exists r :: r in a.resources && r in b.resources
  }

  /** One reading for each ticket, none before its submission, and none before an earlier one. */
  predicate Readings(q: seq<Ticket>, clock: seq<int>) {
    && |clock| == |q|
    && (forall i :: 0 <= i < |q| ==> clock[i] >= q[i].submitTime)
    && (forall i, j :: 0 <= i < j < |q| ==> clock[i] <= clock[j])
  }

  function Scores(s: Strategy, w: real, q: seq<Ticket>, clock: seq<int>): (v: seq<real>)
    requires Readings(q, clock)
    ensures |v| == |q| && forall i :: 0 <= i < |q| ==> v[i] == Effective(s, w, q[i], clock[i])
  {
    seq(|q|, i requires 0 <= i < |q| => Effective(s, w, q[i], clock[i]))
  }

  /** The index is that of the first greatest score. */
  predicate FirstGreatest(v: seq<real>, b: nat) {
    b < |v| && (forall i :: 0 <= i < |v| ==> v[i] <= v[b]) && (forall i :: 0 <= i < b ==> v[i] < v[b])
  }

  function BestOf(v: seq<real>): (b: nat)
    requires v != []
    ensures FirstGreatest(v, b)
  {
    if |v| == 1 then 0
    else
      var b := BestOf(v[..|v| - 1]);
      if v[b] < v[|v| - 1] then |v| - 1 else b
  }

  function Drop(q: seq<Ticket>, b: nat): seq<Ticket>
    requires b < |q|
  {
    q[..b] + q[b + 1..]
  }

  /** The tickets among the first n that conflict with the b-th, in queue order. */
  function Deferred(q: seq<Ticket>, b: nat, n: nat): seq<Ticket>
    requires b < |q| && n <= |q|
  {
    if n == 0 then []
    else Deferred(q, b, n - 1) + if n - 1 != b && Conflict(q[b], q[n - 1]) then [q[n - 1]] else []
  }

  datatype Result = Result(resolved: bool, winner: Ticket, deferred: seq<Ticket>) | Unresolved

  method Conflicts(a: Ticket, b: Ticket) returns (c: bool)
    ensures c <==> Conflict(a, b)
  {
    for i := 0 to |a.resources|
      invariant forall k :: 0 <= k < i ==> a.resources[k] !in b.resources
    {
      for j := 0 to |b.resources|
        invariant forall k :: 0 <= k < j ==> b.resources[k] != a.resources[i]
      {
        if a.resources[i] == b.resources[j] {
          assert a.resources[i] in a.resources && a.resources[i] in b.resources;
          return true;
        }
      }
    }
    c := false;
  }

  /** The first greatest score, found in one pass. */
  method FindBest(v: seq<real>) returns (b: nat)
    requires v != []
    ensures b == BestOf(v)
  {
    b := 0;
    for i := 1 to |v|
      invariant b < i && b == BestOf(v[..i])
    {
      assert v[..i + 1][..i] == v[..i];
      if v[b] < v[i] { b := i; }
    }
    assert v[..|v|] == v;
  }

  method FindDeferred(q: seq<Ticket>, b: nat) returns (deferred: seq<Ticket>)
    requires b < |q|
    ensures deferred == Deferred(q, b, |q|)
  {
    deferred := [];
    for i := 0 to |q|
      invariant deferred == Deferred(q, b, i)
    {
      if i != b {
        var c := Conflicts(q[b], q[i]);
        if c { deferred := deferred + [q[i]]; }
      }
    }
  }

  /** The deferred are the other pending tickets that share a resource with the winner. */
  lemma {:induction false} DeferredIs(q: seq<Ticket>, b: nat, n: nat, t: Ticket)
    requires b < |q| && n <= |q|
    ensures t in Deferred(q, b, n) <==> exists i :: 0 <= i < n && i != b && q[i] == t && Conflict(q[b], t)
  {
    if n > 0 { DeferredIs(q, b, n - 1, t); }
  }

  datatype Scored = Scored(score: real, ticket: Ticket)

  function Pairs(s: Strategy, w: real, q: seq<Ticket>, clock: seq<int>, n: nat): seq<Scored>
    requires Readings(q, clock) && n <= |q|
  {
    if n == 0 then [] else Pairs(s, w, q, clock, n - 1) + [Scored(Effective(s, w, q[n - 1], clock[n - 1]), q[n - 1])]
  }

  predicate Descending(r: seq<Scored>) {
    forall i, j :: 0 <= i < j < |r| ==> r[i].score >= r[j].score
  }

  method InsertScored(r: seq<Scored>, x: Scored) returns (z: seq<Scored>)
    requires Descending(r)
    ensures Descending(z) && multiset(z) == multiset(r) + multiset{x}
  {
    var i := 0;
    while i < |r| && r[i].score >= x.score
      invariant i <= |r| && forall k :: 0 <= k < i ==> r[k].score >= x.score
    {
      i := i + 1;
    }
    z := r[..i] + [x] + r[i..];
    assert r == r[..i] + r[i..];
  }

  class Resolver {
    var strategy: Strategy
    var fairnessWeight: real
    var queue: seq<Ticket>

    constructor (s: Strategy)
      ensures strategy == s && fairnessWeight == 1.0 && queue == []
    {
      strategy, fairnessWeight, queue := s, 1.0, [];
    }

    method Submit(id: string, priority: int, resources: seq<string>, slaSeconds: real, now: int) returns (t: Ticket)
      modifies this`queue
      ensures t == Ticket(id, priority, slaSeconds, now, resources) && queue == old(queue) + [t]
    {
      t := Ticket(id, priority, slaSeconds, now, resources);
      queue := queue + [t];
    }

    /** Takes out the first ticket with the id. */
    method Cancel(id: string) returns (found: bool)
      modifies this`queue
      ensures found <==> exists i :: 0 <= i < |old(queue)| && old(queue)[i].id == id
      ensures !found ==> queue == old(queue)
      ensures found ==> exists b: nat :: b < |old(queue)| && old(queue)[b].id == id && queue == Drop(old(queue), b)
                                && forall i :: 0 <= i < b ==> old(queue)[i].id != id
    {
      for i := 0 to |queue|
        invariant queue == old(queue) && forall k :: 0 <= k < i ==> queue[k].id != id
      {
        if queue[i].id == id {
          queue := Drop(queue, i);
          return true;
        }
      }
      found := false;
    }

    /** The first ticket with the greatest score wins and leaves the queue; those it conflicts with are reported. */
    method Resolve(clock: seq<int>) returns (r: Result)
      requires Readings(queue, clock)
      modifies this`queue
      ensures old(queue) == [] ==> r == Unresolved && queue == []
      ensures old(queue) != [] ==>
                var b := Best(strategy, fairnessWeight, old(queue), clock);
                && r == Result(true, old(queue)[b], Deferred(old(queue), b, |old(queue)|))
                && queue == Drop(old(queue), b)
    {
      if queue == [] { return Unresolved; }
      var b := FindBest(Scores(strategy, fairnessWeight, queue, clock));
      var deferred := FindDeferred(queue, b);
      r := Result(true, queue[b], deferred);
      queue := Drop(queue, b);
    }

    /** All pending tickets with their scores, the greatest first; which of two equals comes first is not fixed. */
    method Ranked(clock: seq<int>) returns (r: seq<Scored>)
      requires Readings(queue, clock)
      ensures multiset(r) == multiset(Pairs(strategy, fairnessWeight, queue, clock, |queue|))
      ensures Descending(r)
    {
      r := [];
      for i := 0 to |queue|
        invariant multiset(r) == multiset(Pairs(strategy, fairnessWeight, queue, clock, i)) && Descending(r)
      {
        r := InsertScored(r, Scored(Effective(strategy, fairnessWeight, queue[i], clock[i]), queue[i]));
      }
    }
  }

  lemma {:induction false} PairsAre(s: Strategy, w: real, q: seq<Ticket>, clock: seq<int>, n: nat)
    requires Readings(q, clock) && n <= |q|
    ensures var p := Pairs(s, w, q, clock, n);
            |p| == n && forall i :: 0 <= i < n ==> p[i] == Scored(Scores(s, w, q, clock)[i], q[i])
  {
    if n > 0 { PairsAre(s, w, q, clock, n - 1); }
  }

  /** The first of the ranking has the winner's score. */
  lemma RankedHead(s: Strategy, w: real, q: seq<Ticket>, clock: seq<int>, r: seq<Scored>)
    requires q != [] && Readings(q, clock)
    requires multiset(r) == multiset(Pairs(s, w, q, clock, |q|)) && Descending(r)
    ensures r != [] && r[0].score == Scores(s, w, q, clock)[BestOf(Scores(s, w, q, clock))]
  {
    var p, v := Pairs(s, w, q, clock, |q|), Scores(s, w, q, clock);
    PairsAre(s, w, q, clock, |q|);
    var b := BestOf(v);
    assert p[b] in multiset(r);
    var k :| 0 <= k < |r| && r[k] == p[b];
    assert r[0] in multiset(p);
    var i :| 0 <= i < |p| && p[i] == r[0];
  }

  // ---- Fairness

  /** A ticket with a greater or equal score was not submitted much later: its priority, the reading and 1 us decide. */
  lemma LosesOnlyToEarly(w: real, t: Ticket, u: Ticket, nowT: int, nowU: int)
    requires w > 0.0 && nowT >= t.submitTime && nowU >= u.submitTime
    requires Effective(FairnessWeighted, w, u, nowU) >= Effective(FairnessWeighted, w, t, nowT)
    ensures (u.submitTime - t.submitTime) as real
         <= (u.priority - t.priority) as real * 1000000000.0 / w + (nowU - nowT) as real + 1000.0
  {
    var d, p := Waited(u, nowU) - Waited(t, nowT), (t.priority - u.priority) as real;
    Cut(t, nowT);
    Cut(u, nowU);
    Divide(d, w, p);
    assert (u.priority - t.priority) as real * 1000000000.0 / w == -(p * 1000000000.0 / w);
  }

  lemma Cut(t: Ticket, now: int)
    requires now >= t.submitTime
    ensures Waited(t, now) * 1000000000.0 <= (now - t.submitTime) as real < Waited(t, now) * 1000000000.0 + 1000.0
  {
    var n := now - t.submitTime;
    assert n == n / 1000 * 1000 + n % 1000;
    assert (n / 1000 * 1000) as real == (n / 1000) as real * 1000.0;
  }

  lemma Divide(d: real, w: real, p: real)
    requires w > 0.0 && d * w >= p
    ensures d * 1000000000.0 >= p * 1000000000.0 / w
  {
    var q := p / w;
    assert q * w == p;
    AtLeast(d, q, w);
    assert p * 1000000000.0 / w == q * 1000000000.0;
  }

  lemma AtLeast(a: real, b: real, c: real)
    requires c > 0.0 && a * c >= b * c
    ensures a >= b
  {
  }

  /** By how much one ticket's score is ahead of another's at one instant. */
  function Gap(w: real, t: Ticket, u: Ticket, now: int): real
    requires now >= t.submitTime && now >= u.submitTime
  {
    Effective(FairnessWeighted, w, t, now) - Effective(FairnessWeighted, w, u, now)
  }

  /** By how many microseconds one ticket has waited longer than another at one instant. */
  function Lead(t: Ticket, u: Ticket, now: int): int
    requires now >= t.submitTime && now >= u.submitTime
  {
    (now - t.submitTime) / 1000 - (now - u.submitTime) / 1000
  }

  lemma GapIs(w: real, t: Ticket, u: Ticket, now: int)
    requires now >= t.submitTime && now >= u.submitTime
    ensures Gap(w, t, u, now) == (t.priority - u.priority) as real + Lead(t, u, now) as real * (w / 1000000.0)
  {
    var a, b := (now - t.submitTime) / 1000, (now - u.submitTime) / 1000;
    var x, y := a as real, b as real;
    assert x / 1000000.0 * w == x * (w / 1000000.0) && y / 1000000.0 * w == y * (w / 1000000.0);
    assert (a - b) as real == x - y;
    assert x * (w / 1000000.0) - y * (w / 1000000.0) == (x - y) * (w / 1000000.0);
  }

  /** The lead takes at most two values, one apart; a single one if the submissions are whole microseconds apart. */
  lemma LeadIs(t: Ticket, u: Ticket, now: int)
    requires now >= t.submitTime && now >= u.submitTime
    ensures (u.submitTime - t.submitTime) / 1000 <= Lead(t, u, now) <= (u.submitTime - t.submitTime) / 1000 + 1
    ensures (u.submitTime - t.submitTime) % 1000 == 0 ==> Lead(t, u, now) == (u.submitTime - t.submitTime) / 1000
  {
  }

  /** Between two instants the gap moves by no more than a microsecond is worth. */
  lemma GapDrift(w: real, t: Ticket, u: Ticket, now: int, later: int)
    requires w > 0.0 && t.submitTime <= now && u.submitTime <= now && t.submitTime <= later && u.submitTime <= later
    ensures -w / 1000000.0 <= Gap(w, t, u, later) - Gap(w, t, u, now) <= w / 1000000.0
  {
    GapIs(w, t, u, now);
    GapIs(w, t, u, later);
    LeadIs(t, u, now);
    LeadIs(t, u, later);
    var i, j, v := Lead(t, u, now), Lead(t, u, later), w / 1000000.0;
    assert v > 0.0 && -1 <= j - i <= 1;
    assert j as real * v - i as real * v == (j - i) as real * v;
  }

  /** The gap stays the same at all times exactly when the two submissions are whole microseconds apart. */
  lemma GapSteadyIff(w: real, t: Ticket, u: Ticket)
    requires w > 0.0
    ensures (forall now, later ::
               t.submitTime <= now && u.submitTime <= now && t.submitTime <= later && u.submitTime <= later
               ==> Gap(w, t, u, now) == Gap(w, t, u, later))
       <==> (u.submitTime - t.submitTime) % 1000 == 0
  {
    var r := (u.submitTime - t.submitTime) % 1000;
    if r == 0 {
      forall now, later | t.submitTime <= now && u.submitTime <= now && t.submitTime <= later && u.submitTime <= later
        ensures Gap(w, t, u, now) == Gap(w, t, u, later)
      {
        GapIs(w, t, u, now);
        GapIs(w, t, u, later);
        LeadIs(t, u, now);
        LeadIs(t, u, later);
      }
    } else {
      var now := LeadMoves(t, u);
      GapIs(w, t, u, now);
      GapIs(w, t, u, now + r);
      var i, v := Lead(t, u, now), w / 1000000.0;
      assert (i - 1) as real * v == i as real * v - v && v > 0.0;
      assert Gap(w, t, u, now) != Gap(w, t, u, now + r);
    }
  }

  lemma LeadMoves(t: Ticket, u: Ticket) returns (now: int)
    requires (u.submitTime - t.submitTime) % 1000 != 0
    ensures now >= t.submitTime && now >= u.submitTime
    ensures Lead(t, u, now + (u.submitTime - t.submitTime) % 1000) == Lead(t, u, now) - 1
  {
    var d := u.submitTime - t.submitTime;
    var n := if d > 0 then d / 1000 + 1 else 0;
    now := t.submitTime + 1000 * n;
    Thousands(d, n);
  }

  lemma Thousands(d: int, n: int)
    requires d % 1000 != 0
    ensures var r := d % 1000;
            (1000 * n + r) / 1000 - (1000 * n + r - d) / 1000 == (1000 * n) / 1000 - (1000 * n - d) / 1000 - 1
    ensures n == (if d > 0 then d / 1000 + 1 else 0) ==> 1000 * n >= d
  {
    var q, r := d / 1000, d % 1000;
    assert d == q * 1000 + r;
    assert 1000 * n + r - d == 1000 * (n - q) && 1000 * n - d == 1000 * (n - q - 1) + (1000 - r);
  }

  predicate BothPending(t: Ticket, u: Ticket, now: int) {
    t.submitTime <= now && u.submitTime <= now
  }

  /** At every instant at which both are pending, the same one of the two tickets is ahead. */
  ghost predicate OrderSteady(w: real, t: Ticket, u: Ticket) {
    forall now, later :: BothPending(t, u, now) && BothPending(t, u, later) ==>
      (Gap(w, t, u, now) >= 0.0 <==> Gap(w, t, u, later) >= 0.0)
  }

  /** The smaller of the two values of the gap. */
  function LowGap(w: real, t: Ticket, u: Ticket): real {
    (t.priority - u.priority) as real + ((u.submitTime - t.submitTime) / 1000) as real * (w / 1000000.0)
  }

  /** The gap is its smaller value or a microsecond's worth more; the smaller one for whole microseconds. */
  lemma TwoGaps(w: real, t: Ticket, u: Ticket, now: int)
    requires BothPending(t, u, now)
    ensures Gap(w, t, u, now) == LowGap(w, t, u)
         || (Gap(w, t, u, now) == LowGap(w, t, u) + w / 1000000.0 && (u.submitTime - t.submitTime) % 1000 != 0)
  {
    GapIs(w, t, u, now);
    LeadIs(t, u, now);
    var d, v := (u.submitTime - t.submitTime) / 1000, w / 1000000.0;
    assert (d + 1) as real * v == d as real * v + v;
  }

  /** Unless the submissions are whole microseconds apart, both values occur. */
  lemma BothGapsOccur(w: real, t: Ticket, u: Ticket) returns (now: int, later: int)
    requires (u.submitTime - t.submitTime) % 1000 != 0
    ensures BothPending(t, u, now) && Gap(w, t, u, now) == LowGap(w, t, u) + w / 1000000.0
    ensures BothPending(t, u, later) && Gap(w, t, u, later) == LowGap(w, t, u)
  {
    now := LeadMoves(t, u);
    later := now + (u.submitTime - t.submitTime) % 1000;
    LeadIs(t, u, now);
    LeadIs(t, u, later);
    GapIs(w, t, u, now);
    GapIs(w, t, u, later);
    var d, v := (u.submitTime - t.submitTime) / 1000, w / 1000000.0;
    assert (d + 1) as real * v == d as real * v + v;
  }

  /**
   The order of two tickets never changes exactly when their submissions are whole microseconds apart or the smaller
   gap and the greater one are on the same side of zero.
   */
  lemma OrderSteadyIff(w: real, t: Ticket, u: Ticket)
    requires w > 0.0
    ensures OrderSteady(w, t, u)
       <==> (u.submitTime - t.submitTime) % 1000 == 0 || LowGap(w, t, u) >= 0.0 || LowGap(w, t, u) + w / 1000000.0 < 0.0
  {
    if (u.submitTime - t.submitTime) % 1000 != 0 && LowGap(w, t, u) < 0.0 <= LowGap(w, t, u) + w / 1000000.0 {
      var now, later := BothGapsOccur(w, t, u);
      assert !OrderSteady(w, t, u);
    } else {
      forall now, later | BothPending(t, u, now) && BothPending(t, u, later)
        ensures Gap(w, t, u, now) >= 0.0 <==> Gap(w, t, u, later) >= 0.0
      {
        TwoGaps(w, t, u, now);
        TwoGaps(w, t, u, later);
      }
    }
  }

  // ---- No starvation over runs

  datatype Event = Submitted(t: Ticket) | Cancelled(i: nat) | Resolved(clock: seq<int>) | Cleared

  /** Submitted early enough to be able to win against t. */
  predicate Early(w: real, t: Ticket, top: int, skew: int, u: Ticket)
    requires w > 0.0
  {
    u != t &&
    (u.submitTime - t.submitTime) as real <= (top - t.priority) as real * 1000000000.0 / w + skew as real + 1000.0
  }

  function CountEarly(w: real, t: Ticket, top: int, skew: int, q: seq<Ticket>): nat
    requires w > 0.0
  {
    if q == [] then 0
    else CountEarly(w, t, top, skew, q[..|q| - 1]) + if Early(w, t, top, skew, q[|q| - 1]) then 1 else 0
  }

  /** The winner of a resolution. */
  function Best(s: Strategy, w: real, q: seq<Ticket>, clock: seq<int>): (b: nat)
    requires q != [] && Readings(q, clock)
    ensures FirstGreatest(Scores(s, w, q, clock), b)
  {
    BestOf(Scores(s, w, q, clock))
  }

  predicate Possible(q: seq<Ticket>, top: int, skew: int, e: Event) {
    match e
    case Submitted(u) => u.priority <= top
    case Cancelled(i) => i < |q|
    case Resolved(clock) => q != [] && Readings(q, clock) && clock[|q| - 1] - clock[0] <= skew
    case Cleared => true
  }

  function Next(s: Strategy, w: real, q: seq<Ticket>, top: int, skew: int, e: Event): seq<Ticket>
    requires Possible(q, top, skew, e)
  {
    match e
    case Submitted(u) => q + [u]
    case Cancelled(i) => Drop(q, i)
    case Resolved(clock) => Drop(q, Best(s, w, q, clock))
    case Cleared => []
  }

  /** The ticket is pending all through the events: it is there, and no resolution picks it. */
  predicate Waits(s: Strategy, w: real, q: seq<Ticket>, t: Ticket, top: int, skew: int, es: seq<Event>)
    decreases |es|
  {
    t in q &&
    (es == [] ||
     (Possible(q, top, skew, es[0]) && (es[0].Resolved? ==> q[Best(s, w, q, es[0].clock)] != t) &&
      Waits(s, w, Next(s, w, q, top, skew, es[0]), t, top, skew, es[1..])))
  }

  function Resolutions(es: seq<Event>): nat {
    if es == [] then 0 else (if es[0].Resolved? then 1 else 0) + Resolutions(es[1..])
  }

  function Arrivals(es: seq<Event>): seq<Ticket> {
    if es == [] then [] else (if es[0].Submitted? then [es[0].t] else []) + Arrivals(es[1..])
  }

  lemma {:induction false} CountConcat(w: real, t: Ticket, top: int, skew: int, q: seq<Ticket>, r: seq<Ticket>)
    requires w > 0.0
    ensures CountEarly(w, t, top, skew, q + r) == CountEarly(w, t, top, skew, q) + CountEarly(w, t, top, skew, r)
    decreases |r|
  {
    if r == [] {
      assert q + r == q;
    } else {
      assert (q + r)[..|q + r| - 1] == q + r[..|r| - 1];
      CountConcat(w, t, top, skew, q, r[..|r| - 1]);
    }
  }

  lemma CountDropped(w: real, t: Ticket, top: int, skew: int, q: seq<Ticket>, b: nat)
    requires w > 0.0 && b < |q|
    ensures CountEarly(w, t, top, skew, q)
         == CountEarly(w, t, top, skew, Drop(q, b)) + if Early(w, t, top, skew, q[b]) then 1 else 0
  {
    var one := [q[b]];
    assert one[..0] == [];
    assert q == (q[..b] + one) + q[b + 1..];
    CountConcat(w, t, top, skew, q[..b] + one, q[b + 1..]);
    CountConcat(w, t, top, skew, q[..b], one);
    CountConcat(w, t, top, skew, q[..b], q[b + 1..]);
  }

  lemma WinnerIsEarly(w: real, q: seq<Ticket>, t: Ticket, top: int, skew: int, clock: seq<int>)
    requires w > 0.0 && t in q && Possible(q, top, skew, Resolved(clock))
    requires forall i :: 0 <= i < |q| ==> q[i].priority <= top
    requires q[Best(FairnessWeighted, w, q, clock)] != t
    ensures Early(w, t, top, skew, q[Best(FairnessWeighted, w, q, clock)])
  {
    var i :| 0 <= i < |q| && q[i] == t;
    var b := Best(FairnessWeighted, w, q, clock);
    var u := q[b];
    var v := Scores(FairnessWeighted, w, q, clock);
    assert v[i] <= v[b];
    LosesOnlyToEarly(w, t, u, clock[i], clock[b]);
    assert clock[b] - clock[i] <= skew by {
      assert clock[0] <= clock[i] && clock[b] <= clock[|q| - 1];
    }
    Scaled(u.priority - t.priority, top - t.priority, w);
  }

  lemma Scaled(a: int, b: int, w: real)
    requires w > 0.0 && a <= b
    ensures a as real * 1000000000.0 / w <= b as real * 1000000000.0 / w
  {
  }

  /**
   No starvation under fairness: a pending ticket waits through at most as many resolutions as there are tickets,
   pending now or submitted meanwhile, that were submitted no later than it could catch up with the top priority.
   */
  lemma {:induction false} NoStarvation(w: real, q: seq<Ticket>, t: Ticket, top: int, skew: int, es: seq<Event>)
    requires w > 0.0 && skew >= 0 && Waits(FairnessWeighted, w, q, t, top, skew, es)
    requires forall i :: 0 <= i < |q| ==> q[i].priority <= top
    ensures Resolutions(es) <= CountEarly(w, t, top, skew, q + Arrivals(es))
    decreases |es|
  {
    if es != [] {
      var e, rest := es[0], es[1..];
      var n := Next(FairnessWeighted, w, q, top, skew, e);
      NextPriorities(w, q, top, skew, e);
      NoStarvation(w, n, t, top, skew, rest);
      CountStep(w, q, t, top, skew, e, Arrivals(rest));
      assert Arrivals(es) == (if e.Submitted? then [e.t] else []) + Arrivals(rest);
    }
  }

  lemma NextPriorities(w: real, q: seq<Ticket>, top: int, skew: int, e: Event)
    requires Possible(q, top, skew, e) && forall i :: 0 <= i < |q| ==> q[i].priority <= top
    ensures var n := Next(FairnessWeighted, w, q, top, skew, e); forall i :: 0 <= i < |n| ==> n[i].priority <= top
  {
  }

  /** Every event but a resolution leaves at least as many early tickets; a resolution uses one up. */
  lemma CountStep(w: real, q: seq<Ticket>, t: Ticket, top: int, skew: int, e: Event, later: seq<Ticket>)
    requires w > 0.0 && t in q && Possible(q, top, skew, e) && forall i :: 0 <= i < |q| ==> q[i].priority <= top
    requires e.Resolved? ==> q[Best(FairnessWeighted, w, q, e.clock)] != t
    ensures CountEarly(w, t, top, skew, q + ((if e.Submitted? then [e.t] else []) + later))
         >= CountEarly(w, t, top, skew, Next(FairnessWeighted, w, q, top, skew, e) + later)
            + if e.Resolved? then 1 else 0
  {
    var n := Next(FairnessWeighted, w, q, top, skew, e);
    CountConcat(w, t, top, skew, n, later);
    match e
    case Submitted(u) =>
      assert q + ([u] + later) == n + later;
    case Cancelled(i) =>
      assert [] + later == later;
      CountConcat(w, t, top, skew, q, later);
      CountDropped(w, t, top, skew, q, i);
    case Resolved(clock) =>
      assert [] + later == later;
      CountConcat(w, t, top, skew, q, later);
      WinnerIsEarly(w, q, t, top, skew, clock);
      CountDropped(w, t, top, skew, q, Best(FairnessWeighted, w, q, clock));
    case Cleared =>
      assert [] + later == later;
      CountConcat(w, t, top, skew, q, later);
  }

  // ---- Strict priority starves

  /** Under strict priority a rival of greater priority wins against a ticket however long that has waited. */
  lemma StrictNeverYields(w: real, t: Ticket, u: Ticket, clock: seq<int>)
    requires Readings([t, u], clock) && u.priority > t.priority
    ensures Best(StrictPriority, w, [t, u], clock) == 1
  {
    var v := Scores(StrictPriority, w, [t, u], clock);
    assert v[0] < v[1];
  }

  /** A rival of the next greater priority arrives and is resolved. */
  function Overtaken(t: Ticket, now: int): seq<Event> {
    [Submitted(Ticket("", t.priority + 1, 0.0, now, [])), Resolved([now, now])]
  }

  lemma OvertakenWaits(w: real, t: Ticket, now: int, top: int, skew: int, es: seq<Event>)
    requires now >= t.submitTime && top > t.priority && skew >= 0
    requires Waits(StrictPriority, w, [t], t, top, skew, es)
    ensures Waits(StrictPriority, w, [t], t, top, skew, Overtaken(t, now) + es)
    ensures Resolutions(Overtaken(t, now) + es) == 1 + Resolutions(es)
  {
    var u, all := Ticket("", t.priority + 1, 0.0, now, []), Overtaken(t, now) + es;
    var q := [t, u];
    assert all[0] == Submitted(u) && all[1..][0] == Resolved([now, now]) && all[1..][1..] == es;
    assert [t] + [u] == q;
    StrictNeverYields(w, t, u, [now, now]);
    assert Drop(q, 1) == [t];
    assert Possible(q, top, skew, all[1]) && Next(StrictPriority, w, q, top, skew, all[1]) == [t];
    assert Waits(StrictPriority, w, q, t, top, skew, all[1..]);
  }

  /**
   Starvation under strict priority: for every number of resolutions there is a run through which a pending ticket
   waits, in which every rival was submitted after it and is of the next greater priority only.
   */
  lemma {:induction false} StrictStarves(w: real, t: Ticket, now: int, top: int, skew: int, n: nat)
    returns (es: seq<Event>)
    requires now > t.submitTime && top > t.priority && skew >= 0
    ensures Waits(StrictPriority, w, [t], t, top, skew, es) && Resolutions(es) == n
    ensures forall i :: 0 <= i < |es| && es[i].Submitted? ==>
            es[i].t.submitTime > t.submitTime && es[i].t.priority == t.priority + 1
    decreases n
  {
    if n == 0 {
      es := [];
    } else {
      var rest := StrictStarves(w, t, now + 1, top, skew, n - 1);
      OvertakenWaits(w, t, now, top, skew, rest);
      es := Overtaken(t, now) + rest;
    }
  }

  // ---- Deadlines

  /**
   Under deadlines a ticket's score grows as its deadline comes near, but at the deadline it falls back to the flat
   bonus exactly when less than a ten-thousandth of a second was left.
   */
  lemma DeadlineBonus(w: real, t: Ticket, now: int, later: int)
    requires t.submitTime <= now <= later && 0.0 < t.slaSeconds && Waited(t, now) < t.slaSeconds
    ensures Waited(t, later) < t.slaSeconds ==> Effective(SlaPriority, w, t, now) <= Effective(SlaPriority, w, t, later)
    ensures Waited(t, later) >= t.slaSeconds ==>
              (Effective(SlaPriority, w, t, later) < Effective(SlaPriority, w, t, now)
               <==> t.slaSeconds - Waited(t, now) < 0.0001)
  {
    var a := t.slaSeconds - Waited(t, now);
    assert Waited(t, now) <= Waited(t, later);
    if Waited(t, later) < t.slaSeconds {
      Inverse(t.slaSeconds - Waited(t, later), a);
    } else {
      Threshold(a);
    }
  }

  lemma Inverse(a: real, b: real)
    requires 0.0 < a <= b
    ensures 100.0 / b <= 100.0 / a
  {
    var x, y := 100.0 / a, 100.0 / b;
    assert x * a == 100.0 && y * b == 100.0;
    assert y * a <= y * b;
    AtLeast(x, y, a);
  }

  lemma Threshold(a: real)
    requires a > 0.0
    ensures 1000000.0 < 100.0 / a <==> a < 0.0001
  {
    var x := 100.0 / a;
    assert x * a == 100.0;
    if a < 0.0001 {
      assert 1000000.0 * a < x * a;
    } else {
      AtLeast(1000000.0, x, a);
    }
  }
}
