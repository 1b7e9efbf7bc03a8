/** Who is ahead of whom under each strategy, and what a resolution leaves in the queue. */
module ConflictOrder {
  import opened ConflictResolver

  // ---- One priority against another

  /** The index is that of the first ticket of the greatest priority. */
  predicate FirstByPriority(q: seq<Ticket>, b: nat) {
    && b < |q| && (forall i :: 0 <= i < |q| ==> q[i].priority <= q[b].priority)
    && forall i :: 0 <= i < b ==> q[i].priority < q[b].priority
  }

  lemma ScoresByPriority(v: seq<real>, q: seq<Ticket>, b: nat)
    requires |v| == |q| && (forall i :: 0 <= i < |q| ==> v[i] == q[i].priority as real) && FirstGreatest(v, b)
    ensures FirstByPriority(q, b)
  {
    forall i | 0 <= i < |q| ensures v[i] <= v[b] <==> q[i].priority <= q[b].priority {}
    forall i | 0 <= i < |q| ensures v[i] < v[b] <==> q[i].priority < q[b].priority {}
  }

  /** Under strict priority the first of the greatest priority wins, whatever the clock reads. */
  lemma StrictWinner(w: real, q: seq<Ticket>, clock: seq<int>)
    requires q != [] && Readings(q, clock)
    ensures FirstByPriority(q, Best(StrictPriority, w, q, clock))
  {
    ScoresByPriority(Scores(StrictPriority, w, q, clock), q, Best(StrictPriority, w, q, clock));
  }

  /** Under deadlines, so it does among tickets that have none. */
  lemma NoDeadlineWinner(w: real, q: seq<Ticket>, clock: seq<int>)
    requires q != [] && Readings(q, clock) && forall i :: 0 <= i < |q| ==> q[i].slaSeconds <= 0.0
    ensures FirstByPriority(q, Best(SlaPriority, w, q, clock))
  {
    ScoresByPriority(Scores(SlaPriority, w, q, clock), q, Best(SlaPriority, w, q, clock));
  }

  /** A ticket that has just come in scores its priority under fairness, and any ticket does under strict priority. */
  lemma FreshScore(w: real, t: Ticket, now: int)
    requires now >= t.submitTime
    ensures Effective(StrictPriority, w, t, now) == t.priority as real
    ensures Effective(FairnessWeighted, w, t, t.submitTime) == t.priority as real
  {
    assert Waited(t, t.submitTime) * w == 0.0 * w == 0.0;
  }

  // ---- Deadlines

  /** The seconds until the deadline, the waiting time cut to whole microseconds. */
  function Left(t: Ticket, now: int): real {
    t.slaSeconds - ((now - t.submitTime) / 1000) as real / 1000000.0
  }

  /** The ticket is not behind the other, each at its own reading; it wins if it also comes first in the queue. */
  predicate Ahead(w: real, t: Ticket, nowT: int, u: Ticket, nowU: int)
    requires nowT >= t.submitTime && nowU >= u.submitTime
  {
    Effective(SlaPriority, w, t, nowT) >= Effective(SlaPriority, w, u, nowU)
  }

  /** Of all pending tickets none is strictly ahead of the winner, and none before it in the queue is as far. */
  lemma WinnerIsAhead(w: real, q: seq<Ticket>, clock: seq<int>, i: nat)
    requires i < |q| && Readings(q, clock)
    ensures var b := Best(SlaPriority, w, q, clock);
            && Ahead(w, q[b], clock[b], q[i], clock[i]) && (i < b ==> !Ahead(w, q[i], clock[i], q[b], clock[b]))
  {
    var v, b := Scores(SlaPriority, w, q, clock), Best(SlaPriority, w, q, clock);
    assert v[i] <= v[b] && (i < b ==> v[i] < v[b]);
  }

  lemma QuotientAtLeast(d: real, a: real)
    requires a > 0.0
    ensures d <= 100.0 / a <==> d * a <= 100.0
    ensures 100.0 / a <= d <==> 100.0 <= d * a
  {
    var x := 100.0 / a;
    assert x * a == 100.0;
    if d * a <= 100.0 { AtLeast(x, d, a); }
    if 100.0 <= d * a { AtLeast(d, x, a); }
    if d <= x { assert d * a <= x * a; }
    if x <= d { assert x * a <= d * a; }
  }

  /**
   A ticket with time left is ahead of one without a deadline exactly when its priority is lower by at most 100 over
   the seconds left.
   */
  lemma PressedAheadIff(w: real, t: Ticket, nowT: int, u: Ticket, nowU: int)
    requires nowT >= t.submitTime && nowU >= u.submitTime
    requires t.slaSeconds > 0.0 && Left(t, nowT) > 0.0 && u.slaSeconds <= 0.0
    ensures Ahead(w, t, nowT, u, nowU) <==> (u.priority - t.priority) as real * Left(t, nowT) <= 100.0
    ensures Ahead(w, u, nowU, t, nowT) <==> 100.0 <= (u.priority - t.priority) as real * Left(t, nowT)
  {
    var d := (u.priority - t.priority) as real;
    QuotientAtLeast(d, Left(t, nowT));
    assert d == u.priority as real - t.priority as real;
  }

  /** An overdue ticket is ahead of one without a deadline exactly when its priority is at most a million lower. */
  lemma OverdueAheadIff(w: real, t: Ticket, nowT: int, u: Ticket, nowU: int)
    requires nowT >= t.submitTime && nowU >= u.submitTime
    requires t.slaSeconds > 0.0 && Left(t, nowT) <= 0.0 && u.slaSeconds <= 0.0
    ensures Ahead(w, t, nowT, u, nowU) <==> u.priority - t.priority <= 1000000
    ensures Ahead(w, u, nowU, t, nowT) <==> u.priority - t.priority >= 1000000
  {
    assert (u.priority - t.priority) as real == u.priority as real - t.priority as real;
  }

  /** Of two overdue tickets the greater priority is ahead. */
  lemma BothOverdue(w: real, t: Ticket, nowT: int, u: Ticket, nowU: int)
    requires nowT >= t.submitTime && nowU >= u.submitTime && t.slaSeconds > 0.0 && u.slaSeconds > 0.0
    requires Left(t, nowT) <= 0.0 && Left(u, nowU) <= 0.0
    ensures Ahead(w, t, nowT, u, nowU) <==> t.priority >= u.priority
  {
  }

  lemma Quotients(a: real, b: real)
    requires a > 0.0 && b > 0.0
    ensures 100.0 / a >= 100.0 / b <==> a <= b
  {
    QuotientAtLeast(100.0 / b, a);
    var y := 100.0 / b;
    assert y * b == 100.0;
    if a <= b { assert y * a <= y * b; }
    if y * a <= y * b { AtLeast(b, a, y); }
  }

  /** Of two tickets with time left, the less time decides between equal priorities, and the priority at equal times. */
  lemma BothPressed(w: real, t: Ticket, nowT: int, u: Ticket, nowU: int)
    requires nowT >= t.submitTime && nowU >= u.submitTime && t.slaSeconds > 0.0 && u.slaSeconds > 0.0
    requires Left(t, nowT) > 0.0 && Left(u, nowU) > 0.0
    ensures t.priority == u.priority ==> (Ahead(w, t, nowT, u, nowU) <==> Left(t, nowT) <= Left(u, nowU))
    ensures Left(t, nowT) == Left(u, nowU) ==> (Ahead(w, t, nowT, u, nowU) <==> t.priority >= u.priority)
  {
    Quotients(Left(t, nowT), Left(u, nowU));
  }

  lemma QuotientGap(d: real, a: real, b: real)
    requires a > 0.0 && b > 0.0
    ensures d <= 100.0 / a - 100.0 / b <==> d * (a * b) <= 100.0 * (b - a)
  {
    var x, y, ab := 100.0 / a, 100.0 / b, a * b;
    assert ab > 0.0 && x * a == 100.0 && y * b == 100.0;
    assert x * ab == x * a * b && y * ab == y * b * a;
    assert (x - y) * ab == 100.0 * (b - a);
    if d <= x - y { assert d * ab <= (x - y) * ab; }
    if d * ab <= (x - y) * ab { AtLeast(x - y, d, ab); }
  }

  /**
   In general the earlier deadline is first only if the priorities are close enough: the difference, times the product
   of the seconds left, is at most 100 times how much later the other deadline is.
   */
  lemma BothPressedIff(w: real, t: Ticket, nowT: int, u: Ticket, nowU: int)
    requires nowT >= t.submitTime && nowU >= u.submitTime && t.slaSeconds > 0.0 && u.slaSeconds > 0.0
    requires Left(t, nowT) > 0.0 && Left(u, nowU) > 0.0
    ensures var a, b := Left(t, nowT), Left(u, nowU);
            Ahead(w, t, nowT, u, nowU) <==> (u.priority - t.priority) as real * (a * b) <= 100.0 * (b - a)
  {
    var d := (u.priority - t.priority) as real;
    QuotientGap(d, Left(t, nowT), Left(u, nowU));
    assert d == u.priority as real - t.priority as real;
  }

  // ---- What a resolution leaves

  /** The rest of the queue stays in its order. */
  lemma DropIs(q: seq<Ticket>, b: nat)
    requires b < |q|
    ensures |Drop(q, b)| == |q| - 1 && multiset(q) == multiset(Drop(q, b)) + multiset{q[b]}
    ensures forall i :: 0 <= i < |q| - 1 ==> Drop(q, b)[i] == q[if i < b then i else i + 1]
  {
    assert q == q[..b] + [q[b]] + q[b + 1..];
  }

  /** Increasing places among the first n, all those at which a mark is set. */
  predicate Marked(marks: seq<bool>, n: nat, places: seq<nat>)
    requires n <= |marks|
  {
    && (forall k :: 0 <= k < |places| ==> places[k] < n && marks[places[k]])
    && (forall j, k :: 0 <= j < k < |places| ==> places[j] < places[k])
    && (forall i: nat {:trigger HasPlace(places, i)} :: i < n && marks[i] ==> HasPlace(places, i))
  }

  predicate HasPlace(places: seq<nat>, i: nat) {
    exists k :: 0 <= k < |places| && places[k] == i
  }

  lemma OneMoreMarked(marks: seq<bool>, n: nat, places: seq<nat>)
    requires n < |marks| && Marked(marks, n, places)
    ensures Marked(marks, n + 1, if marks[n] then places + [n] else places)
  {
    var more := if marks[n] then places + [n] else places;
    forall i: nat | i < n + 1 && marks[i] ensures HasPlace(more, i) {
      if i < n {
        assert HasPlace(places, i);
        var k :| 0 <= k < |places| && places[k] == i;
        assert more[k] == i;
      } else {
        assert more[|places|] == i;
      }
    }
  }

  /** The ticket is another than the b-th and shares a resource with it. */
  predicate Rivals(q: seq<Ticket>, b: nat, i: nat)
    requires b < |q| && i < |q|
  {
    i != b && exists r :: r in q[b].resources && r in q[i].resources
  }

  /** The tickets at the places. */
  predicate Picked(q: seq<Ticket>, places: seq<nat>, d: seq<Ticket>) {
    |places| == |d| && forall k :: 0 <= k < |places| ==> places[k] < |q| && d[k] == q[places[k]]
  }

  lemma OneMorePicked(q: seq<Ticket>, places: seq<nat>, d: seq<Ticket>, n: nat)
    requires n < |q| && Picked(q, places, d)
    ensures Picked(q, places + [n], d + [q[n]])
  {
  }

  /** The tickets at the marks among the first n. */
  function AtMarks(q: seq<Ticket>, marks: seq<bool>, n: nat): seq<Ticket>
    requires n <= |q| == |marks|
  {
    if n == 0 then []
    else if marks[n - 1] then AtMarks(q, marks, n - 1) + [q[n - 1]]
    else AtMarks(q, marks, n - 1)
  }

  lemma {:induction false} DeferredAtMarks(q: seq<Ticket>, b: nat, marks: seq<bool>, n: nat)
    requires b < |q| == |marks| && n <= |q| && forall i :: 0 <= i < |q| ==> (marks[i] <==> Rivals(q, b, i))
    ensures Deferred(q, b, n) == AtMarks(q, marks, n)
  {
    if n > 0 {
      DeferredAtMarks(q, b, marks, n - 1);
      assert Deferred(q, b, n - 1) + [] == Deferred(q, b, n - 1);
    }
  }

  /** The places of the marks. */
  function Places(marks: seq<bool>, n: nat): seq<nat>
    requires n <= |marks|
  {
    if n == 0 then [] else if marks[n - 1] then Places(marks, n - 1) + [n - 1] else Places(marks, n - 1)
  }

  lemma {:induction false} PlacesMarked(marks: seq<bool>, n: nat, places: seq<nat>)
    requires n <= |marks| && places == Places(marks, n)
    ensures Marked(marks, n, places)
    decreases n
  {
    if n > 0 {
      var init := Places(marks, n - 1);
      PlacesMarked(marks, n - 1, init);
      OneMoreMarked(marks, n - 1, init);
    }
  }

  lemma {:induction false} PlacesPicked(q: seq<Ticket>, marks: seq<bool>, n: nat)
    requires n <= |q| == |marks|
    ensures Picked(q, Places(marks, n), AtMarks(q, marks, n))
  {
    if n > 0 {
      PlacesPicked(q, marks, n - 1);
      OneMorePicked(q, Places(marks, n - 1), AtMarks(q, marks, n - 1), n - 1);
    }
  }

  /** The deferred tickets are, in queue order, those at the places of the winner's rivals. */
  lemma DeferredInOrder(q: seq<Ticket>, b: nat, marks: seq<bool>) returns (places: seq<nat>)
    requires b < |q| == |marks| && forall i :: 0 <= i < |q| ==> (marks[i] <==> Rivals(q, b, i))
    ensures Marked(marks, |q|, places) && Picked(q, places, Deferred(q, b, |q|))
  {
    places := Places(marks, |q|);
    DeferredAtMarks(q, b, marks, |q|);
    PlacesMarked(marks, |q|, places);
    PlacesPicked(q, marks, |q|);
  }
}
