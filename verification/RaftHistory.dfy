/**
 What a run has established so far: every ballot cast, every leadership with the log of its leader, and how far
 each node has acknowledged each leader's log. The facts about a history alone give leader completeness.
 */
module RaftHistory {
  import opened RaftTypes
  import opened RaftRules

  /** A vote given by one node in one term: to whom, on what claim, and the voter's own log at that time. */
  datatype Ballot = Ballot(candidate: NodeId, lastIndex: nat, lastTerm: nat, log: Log)

  /** A leadership: the log at election, the voters that elected the leader, and the leader's log since. */
  datatype Reign = Reign(leader: NodeId, start: Log, quorum: set<NodeId>, log: Log)

  datatype History = History(
    ballots: map<(NodeId, nat), Ballot>,
    reigns: map<nat, Reign>,
    acks: map<(NodeId, nat), nat>)

  const NOTHING := History(map[], map[], map[])

  /** The logs l and r are the same through index k. */
  ghost predicate Agree(l: Log, r: Log, k: nat) {
    k < |l| && k < |r| && forall j :: 0 <= j <= k ==> l[j] == r[j]
  }

  ghost predicate Majority(ids: set<NodeId>, q: set<NodeId>) {
    q <= ids && 2 * |q| > |ids|
  }

  /** Every entry was created by the leader of its term, and all before it agrees with that leader's log. */
  ghost predicate Rooted(h: History, l: Log) {
    && l[0] == SENTINEL
    && forall k :: 1 <= k < |l| ==>
         l[k].index == k && l[k].term in h.reigns && Agree(l, h.reigns[l[k].term].log, k)
  }

  /** Node w has acknowledged the log of the leader of term u through index k. */
  ghost predicate Acked(h: History, w: NodeId, u: nat, k: nat) {
    (w, u) in h.acks && k <= h.acks[(w, u)]
  }

  ghost predicate AllAcked(h: History, q: set<NodeId>, u: nat, k: nat) {
    forall w :: w in q ==> Acked(h, w, u, k)
  }

  /** A leader between the terms u and bound was elected without the entries of leader u through k. */
  ghost predicate Broken(h: History, u: nat, k: nat, bound: nat) {
    u in h.reigns && exists v :: u < v < bound && v in h.reigns && !Agree(h.reigns[v].start, h.reigns[u].log, k)
  }

  /** Log l still has what leader u had through k, unless a later leader lacked it. */
  ghost predicate Kept(h: History, l: Log, u: nat, k: nat, bound: nat) {
    u in h.reigns && (Agree(l, h.reigns[u].log, k) || Broken(h, u, k, bound))
  }

  ghost predicate ReignOk(ids: set<NodeId>, h: History, t: nat)
    requires t in h.reigns
  {
    var r := h.reigns[t];
    && t > 0
    && r.leader in ids
    && Acked(h, r.leader, t, LastIndex(r.log))
    && Agree(r.log, r.start, |r.start| - 1)
    && (forall k :: 0 <= k < |r.start| ==> r.start[k].term < t)
    && (forall k :: |r.start| <= k < |r.log| ==> r.log[k].term == t)
    && Rooted(h, r.log)
    && Majority(ids, r.quorum)
    && (forall w {:trigger ElectedBy(h, t, w)} :: w in r.quorum ==> ElectedBy(h, t, w))
  }

  /** Voter w voted for the leader of term t, on that leader's log at election. */
  ghost predicate ElectedBy(h: History, t: nat, w: NodeId)
    requires t in h.reigns
  {
    var r := h.reigns[t];
    && (w, t) in h.ballots
    && var b := h.ballots[(w, t)];
       b.candidate == r.leader && b.lastIndex == LastIndex(r.start) && b.lastTerm == LastTerm(r.start)
  }

  ghost predicate BallotOk(h: History, w: NodeId, t: nat)
    requires (w, t) in h.ballots
  {
    var b := h.ballots[(w, t)];
    && UpToDate(b.lastIndex, b.lastTerm, b.log)
    && Rooted(h, b.log)
    && (forall u: nat, k: nat :: u < t && Acked(h, w, u, k) ==> Kept(h, b.log, u, k, t + 1))
  }

  /** A voter that elected the leader of t had, when it voted, all it acknowledged to earlier leaders. */
  ghost predicate QuorumOk(h: History, t: nat)
    requires t in h.reigns
  {
    forall w {:trigger VoterKept(h, t, w)} :: w in h.reigns[t].quorum ==> VoterKept(h, t, w)
  }

  ghost predicate VoterKept(h: History, t: nat, w: NodeId) {
    && (w, t) in h.ballots
    && forall u: nat, k: nat :: u < t && Acked(h, w, u, k) ==> Kept(h, h.ballots[(w, t)].log, u, k, t)
  }

  ghost predicate HistoryOk(ids: set<NodeId>, h: History) {
    && (forall t {:trigger ReignOk(ids, h, t)} :: t in h.reigns ==> ReignOk(ids, h, t))
    && (forall w, t {:trigger BallotOk(h, w, t)} :: (w, t) in h.ballots ==> BallotOk(h, w, t))
    && (forall t {:trigger QuorumOk(h, t)} :: t in h.reigns ==> QuorumOk(h, t))
    && (forall w, u {:trigger (w, u) in h.acks} :: (w, u) in h.acks ==>
          u in h.reigns && h.acks[(w, u)] < |h.reigns[u].log|)
  }

  /** Entry k of leader u is of its own term and a majority holds that leader's log through it. */
  ghost predicate Chosen(ids: set<NodeId>, h: History, u: nat, k: nat) {
    && u in h.reigns
    && k < |h.reigns[u].log|
    && h.reigns[u].log[k].term == u
    && exists q :: Majority(ids, q) && AllAcked(h, q, u, k)
  }

  /** Log l through n is safe: part of the log of a leader of a term up to `bound`, chosen there. */
  ghost predicate Committed(ids: set<NodeId>, h: History, l: Log, n: nat, bound: nat) {
    n == 0 || exists u: nat, k: nat :: CommittedBy(ids, h, l, n, bound, u, k)
  }

  ghost predicate CommittedBy(ids: set<NodeId>, h: History, l: Log, n: nat, bound: nat, u: nat, k: nat) {
    u <= bound && n <= k && Chosen(ids, h, u, k) && Agree(l, h.reigns[u].log, n)
  }

  // ---- Leader completeness

  lemma QuorumsMeet(ids: set<NodeId>, a: set<NodeId>, b: set<NodeId>) returns (w: NodeId)
    requires Majority(ids, a) && Majority(ids, b)
    ensures w in a && w in b
  {
    if a * b == {} {
      assert |a + b| == |a| + |b|;
      SubsetSize(a + b, ids);
      assert false;
    }
    w :| w in a * b;
  }

  lemma SubsetSize<T>(a: set<T>, b: set<T>)
    requires a <= b
    ensures |a| <= |b|
  {
    assert b == a + (b - a);
    assert |b| == |a| + |b - a|;
  }

  /** Terms never fall along a rooted log. */
  lemma TermsRise(ids: set<NodeId>, h: History, l: Log, j: nat, k: nat)
    requires HistoryOk(ids, h) && Rooted(h, l)
    requires j <= k < |l|
    ensures l[j].term <= l[k].term
  {
    if 0 < j {
      var u := l[k].term;
      assert ReignOk(ids, h, u);
      assert l[j] == h.reigns[u].log[j];
      if j < |h.reigns[u].start| {
        assert h.reigns[u].log[j] == h.reigns[u].start[j];
      }
    }
  }

  /** A chosen entry, with all before it, is in the log with which every later leader was elected. */
  lemma {:induction false} LeaderCompleteness(ids: set<NodeId>, h: History, u: nat, k: nat, t: nat)
    requires HistoryOk(ids, h) && Chosen(ids, h, u, k)
    requires t in h.reigns && u < t
    ensures Agree(h.reigns[t].start, h.reigns[u].log, k)
    decreases t
  {
    assert ReignOk(ids, h, t) && ReignOk(ids, h, u);
    var q :| Majority(ids, q) && AllAcked(h, q, u, k);
    var w := QuorumsMeet(ids, q, h.reigns[t].quorum);
    assert ElectedBy(h, t, w) && QuorumOk(h, t) && VoterKept(h, t, w);
    var b := h.ballots[(w, t)];
    assert Kept(h, b.log, u, k, t);
    if Broken(h, u, k, t) {
      var v :| u < v < t && v in h.reigns && !Agree(h.reigns[v].start, h.reigns[u].log, k);
      LeaderCompleteness(ids, h, u, k, v);
      assert false;
    }
    assert BallotOk(h, w, t);
    TermsRise(ids, h, b.log, k, |b.log| - 1);
    WinnerHas(ids, h, u, k, t, b.log);
  }

  /** The log at election is rooted, like the log that grew from it. */
  lemma StartRooted(ids: set<NodeId>, h: History, t: nat)
    requires HistoryOk(ids, h) && t in h.reigns
    ensures Rooted(h, h.reigns[t].start)
    ensures LastTerm(h.reigns[t].start) < t
  {
    var r := h.reigns[t];
    assert ReignOk(ids, h, t);
    forall k | 0 <= k < |r.start| ensures r.start[k] == r.log[k] {}
    forall k | 1 <= k < |r.start|
      ensures r.start[k].index == k && r.start[k].term in h.reigns
      ensures Agree(r.start, h.reigns[r.start[k].term].log, k)
    {
      assert r.start[k] == r.log[k];
      assert Agree(r.log, h.reigns[r.log[k].term].log, k);
    }
  }

  /** Entries of the leader's own term come after its log at election. */
  lemma OwnEntriesFollow(ids: set<NodeId>, h: History, x: nat, m: nat)
    requires HistoryOk(ids, h) && x in h.reigns
    requires m < |h.reigns[x].log| && h.reigns[x].log[m].term == x
    ensures |h.reigns[x].start| <= m
    ensures forall j :: 0 <= j < |h.reigns[x].start| ==> h.reigns[x].log[j] == h.reigns[x].start[j]
  {
    assert ReignOk(ids, h, x);
    var r := h.reigns[x];
  }

  /** The up-to-date check: a winner whose log is no older than a log with the entry has the entry too. */
  lemma {:induction false} WinnerHas(ids: set<NodeId>, h: History, u: nat, k: nat, t: nat, voter: Log)
    requires HistoryOk(ids, h) && Chosen(ids, h, u, k)
    requires t in h.reigns && u < t
    requires Agree(voter, h.reigns[u].log, k) && LastTerm(voter) >= u
    requires UpToDate(LastIndex(h.reigns[t].start), LastTerm(h.reigns[t].start), voter)
    ensures Agree(h.reigns[t].start, h.reigns[u].log, k)
    decreases t, 0
  {
    var s := h.reigns[t].start;
    var m := |s| - 1;
    var x := LastTerm(s);
    StartRooted(ids, h, t);
    assert u > 0 by { assert ReignOk(ids, h, u); }
    assert m > 0;
    assert x in h.reigns && Agree(s, h.reigns[x].log, m);
    if x > u {
      LeaderCompleteness(ids, h, u, k, x);
      OwnEntriesFollow(ids, h, x, m);
    }
  }

  /** So a chosen entry is in the whole log of every later leader. */
  lemma LaterLeadersHave(ids: set<NodeId>, h: History, u: nat, k: nat, t: nat)
    requires HistoryOk(ids, h) && Chosen(ids, h, u, k)
    requires t in h.reigns && u <= t
    ensures Agree(h.reigns[t].log, h.reigns[u].log, k)
  {
    if u < t {
      LeaderCompleteness(ids, h, u, k, t);
      assert ReignOk(ids, h, t);
      var r := h.reigns[t];
      forall j | 0 <= j <= k ensures r.log[j] == h.reigns[u].log[j] {
        assert r.log[j] == r.start[j];
      }
    }
  }

  /** Committed parts of any two logs agree wherever both reach. */
  lemma CommittedAgree(ids: set<NodeId>, h: History, l: Log, n: nat, bl: nat, r: Log, m: nat, br: nat)
    requires HistoryOk(ids, h)
    requires Committed(ids, h, l, n, bl) && Committed(ids, h, r, m, br)
    requires 0 < n <= m
    ensures Agree(l, r, n)
  {
    var u: nat, k: nat :| CommittedBy(ids, h, l, n, bl, u, k);
    var v: nat, j: nat :| CommittedBy(ids, h, r, m, br, v, j);
    if u <= v {
      LaterLeadersHave(ids, h, u, k, v);
    } else {
      LaterLeadersHave(ids, h, v, j, u);
    }
  }
}
