/** The replication steps keep the invariant. */
module RaftReplication {
  import opened RaftTypes
  import opened RaftRules
  import opened RaftCluster
  import opened RaftHistory
  import opened RaftInvariant
  import opened RaftElection

  // ---- The follower's loop over the entries

  /** Entries with equal index and equal term come with equal logs up to that index. */
  ghost predicate Matching(l: Log, r: Log) {
    forall j :: 0 <= j < |l| && j < |r| && l[j].term == r[j].term ==> Agree(l, r, j)
  }

  /** r is l if l already agrees with the leader's log through `end`, and otherwise exactly that part of it. */
  ghost predicate Repaired(l: Log, leader: Log, end: nat, r: Log)
    requires end < |leader|
  {
    if Agree(l, leader, end) then r == l else r == leader[..end + 1]
  }

  /** The entries are the piece of the leader's log that starts at pos. */
  ghost predicate PieceOf(entries: seq<LogEntry>, leader: Log, pos: nat) {
    && pos + |entries| <= |leader|
    && forall k :: 0 <= k < |entries| ==> entries[k] == leader[pos + k] && entries[k].index == pos + k
  }

  /** At the first entry that is missing or differs in term, the log becomes the leader's through that entry. */
  lemma MergeReplaces(log: Log, leader: Log, pos: nat, entries: seq<LogEntry>)
    requires 1 <= pos <= |log| && entries != [] && PieceOf(entries, leader, pos)
    requires Agree(log, leader, pos - 1)
    requires pos == |log| || log[pos].term != entries[0].term
    ensures Merge(log, pos, entries) == Merge(leader[..pos + 1], pos + 1, entries[1..])
  {
    var e := entries[0];
    assert e == leader[pos] && e.(index := pos) == e;
    var kept := if pos < |log| then TruncateAfter(log, pos - 1) else log;
    assert kept == leader[..pos];
    assert Append(kept, e) == leader[..pos + 1];
  }

  /** Once the log has become the leader's through pos, the rest of the loop makes it so through the last entry. */
  lemma RestRepairs(log: Log, leader: Log, pos: nat, entries: seq<LogEntry>)
    requires 1 <= pos <= |log| && entries != [] && PieceOf(entries, leader, pos) && Agree(log, leader, pos - 1)
    requires pos == |log| || log[pos].term != entries[0].term
    requires var next := leader[..pos + 1];
             Repaired(next, leader, pos + |entries| - 1, Merge(next, pos + 1, entries[1..]))
    ensures Repaired(log, leader, pos + |entries| - 1, Merge(log, pos, entries))
  {
    var end := pos + |entries| - 1;
    MergeReplaces(log, leader, pos, entries);
    assert Merge(log, pos, entries) == leader[..end + 1];
    assert entries[0] == leader[pos];
    assert !Agree(log, leader, end);
  }

  /**
   Follower log repair: given a log that matches the leader's and agrees with it before pos, the loop leaves the
   log alone if it already holds all the entries, and otherwise makes it the leader's log through the last entry.
   */
  lemma {:induction false} MergeRepairs(log: Log, leader: Log, pos: nat, entries: seq<LogEntry>)
    requires 1 <= pos <= |log| && PieceOf(entries, leader, pos)
    requires Matching(log, leader) && Agree(log, leader, pos - 1)
    ensures Repaired(log, leader, pos + |entries| - 1, Merge(log, pos, entries))
    decreases |entries|
  {
    if entries == [] {
      assert Merge(log, pos, entries) == log;
    } else {
      var rest := entries[1..];
      PieceTail(entries, leader, pos);
      if pos < |log| && log[pos].term == entries[0].term {
        assert entries[0] == leader[pos];
        assert Merge(log, pos, entries) == Merge(log, pos + 1, rest);
        MergeRepairs(log, leader, pos + 1, rest);
      } else {
        MergeRepairs(leader[..pos + 1], leader, pos + 1, rest);
        RestRepairs(log, leader, pos, entries);
      }
    }
  }

  lemma PieceTail(entries: seq<LogEntry>, leader: Log, pos: nat)
    requires entries != [] && PieceOf(entries, leader, pos)
    ensures PieceOf(entries[1..], leader, pos + 1)
  {
    var rest := entries[1..];
    forall k | 0 <= k < |rest| ensures rest[k] == leader[pos + 1 + k] && rest[k].index == pos + 1 + k {
      assert rest[k] == entries[k + 1];
    }
  }

  lemma RootedMatch(h: History, l: Log, r: Log)
    requires Rooted(h, l) && Rooted(h, r)
    ensures Matching(l, r)
  {
    forall j | 0 <= j < |l| && j < |r| && l[j].term == r[j].term ensures Agree(l, r, j) {
      if j > 0 {
        var x := h.reigns[l[j].term].log;
        assert Agree(l, x, j) && Agree(r, x, j);
      }
    }
  }

  /** What the log shared with x it still shares after the repair, if the leader's log shares it too. */
  lemma RepairKeeps(l: Log, leader: Log, end: nat, r: Log, x: Log, k: nat)
    requires end < |leader| && Repaired(l, leader, end, r)
    requires Agree(l, x, k) && Agree(leader, x, k)
    ensures Agree(r, x, k)
  {
  }

  // ---- Handling an append

  /** The message end: the index of the last entry it speaks about. */
  function End(m: AppendEntries): nat {
    m.prevLogIndex + |m.entries|
  }

  lemma HandledLog(c: Config, h: History, p: NodeId, nd: Node, m: AppendEntries)
    requires HistoryOk(c.Ids(), h) && AppendOk(c, h, p, m)
    requires Rooted(h, nd.store.log) && HasPrevious(nd.store.log, m)
    ensures Repaired(nd.store.log, h.reigns[m.term].log, End(m), Merge(nd.store.log, m.prevLogIndex + 1, m.entries))
  {
    var leader := h.reigns[m.term].log;
    assert Rooted(h, leader) by { assert ReignOk(c.Ids(), h, m.term); }
    RootedMatch(h, nd.store.log, leader);
    assert Agree(nd.store.log, leader, m.prevLogIndex);
    assert PieceOf(m.entries, leader, m.prevLogIndex + 1);
    MergeRepairs(nd.store.log, leader, m.prevLogIndex + 1, m.entries);
  }

  lemma RepairedRooted(h: History, l: Log, leader: Log, end: nat, r: Log)
    requires Rooted(h, l) && Rooted(h, leader) && end < |leader| && Repaired(l, leader, end, r)
    ensures Rooted(h, r)
  {
  }

  lemma RepairedTerms(ids: set<NodeId>, h: History, l: Log, u: nat, end: nat, r: Log)
    requires HistoryOk(ids, h) && u in h.reigns && end < |h.reigns[u].log|
    requires Repaired(l, h.reigns[u].log, end, r)
    requires forall k :: 0 <= k < |l| ==> l[k].term <= u
    ensures forall k :: 0 <= k < |r| ==> r[k].term <= u
  {
    assert ReignOk(ids, h, u);
    var x := h.reigns[u];
    forall k | 0 <= k < |x.log| ensures x.log[k].term <= u {
      if k < |x.start| { assert x.log[k] == x.start[k]; }
    }
  }

  /** A repair by the leader of term u keeps what was acknowledged to earlier leaders, unless one lacked it. */
  lemma RepairedKept(ids: set<NodeId>, h: History, l: Log, u: nat, end: nat, r: Log, t: nat, k: nat)
    requires HistoryOk(ids, h) && u in h.reigns && end < |h.reigns[u].log|
    requires Repaired(l, h.reigns[u].log, end, r)
    requires t <= u && Kept(h, l, t, k, u + 1) && k < |h.reigns[t].log|
    ensures Kept(h, r, t, k, u + 1)
  {
    if !Broken(h, t, k, u + 1) {
      var x, y := h.reigns[t].log, h.reigns[u];
      if t < u {
        assert Agree(y.start, x, k);
        assert ReignOk(ids, h, u);
        assert Agree(y.log, x, k) by {
          forall j | 0 <= j <= k ensures y.log[j] == x[j] { assert y.log[j] == y.start[j]; }
        }
      }
      RepairKeeps(l, y.log, end, r, x, k);
    }
  }

  /** A repair never touches the committed part of a log. */
  lemma RepairedCommitted(ids: set<NodeId>, h: History, l: Log, u: nat, end: nat, r: Log, n: nat)
    requires HistoryOk(ids, h) && u in h.reigns && end < |h.reigns[u].log|
    requires Repaired(l, h.reigns[u].log, end, r)
    requires n < |l| && Committed(ids, h, l, n, u) && l[0] == SENTINEL
    ensures n < |r| && Committed(ids, h, r, n, u)
    ensures Agree(r, l, n)
  {
    var y := h.reigns[u].log;
    if n == 0 {
      assert y[0] == SENTINEL by { assert ReignOk(ids, h, u); }
    } else {
      var t: nat, k: nat :| CommittedBy(ids, h, l, n, u, t, k);
      LaterLeadersHave(ids, h, t, k, u);
      RepairKeeps(l, y, end, r, h.reigns[t].log, n);
      assert CommittedBy(ids, h, r, n, u, t, k);
    }
  }

  ghost function WithAck(h: History, p: NodeId, u: nat, k: nat): History {
    if Acked(h, p, u, k) then h else h.(acks := h.acks[(p, u) := k])
  }

  lemma WithAckOk(ids: set<NodeId>, h: History, p: NodeId, nd: Node, k: nat)
    requires HistoryOk(ids, h) && VoteOk(h, p, nd)
    requires nd.currentTerm in h.reigns && k < |h.reigns[nd.currentTerm].log|
    ensures var g := WithAck(h, p, nd.currentTerm, k);
            HistoryOk(ids, g) && Grows(h, g) && NewOnlyOf(h, g, p) && Acked(g, p, nd.currentTerm, k)
  {
    var g := WithAck(h, p, nd.currentTerm, k);
    OldHistoryOk(ids, h, g, p);
  }

  /** The node that a successful append leaves behind. */
  ghost predicate Accepted(h: History, nd: Node, m: AppendEntries, nd': Node)
    requires m.term in h.reigns && End(m) < |h.reigns[m.term].log|
  {
    && Repaired(nd.store.log, h.reigns[m.term].log, End(m), nd'.store.log)
    && nd' == nd.WithLog(nd'.store.log).(
         leaderId := m.leaderId, role := Follower,
         commitIndex := if m.leaderCommit > nd.commitIndex then m.leaderCommit else nd.commitIndex)
  }

  lemma HandledNode(c: Config, h: History, p: NodeId, nd: Node, m: AppendEntries)
    requires HistoryOk(c.Ids(), h) && AppendOk(c, h, p, m)
    requires Rooted(h, nd.store.log) && nd.currentTerm == m.term && HasPrevious(nd.store.log, m)
    ensures Accepted(h, nd, m, HandleAppendEntries(p, nd, m).0)
    ensures HandleAppendEntries(p, nd, m).1 == AppendReply(m.term, true, p, End(m))
  {
    HandledLog(c, h, p, nd, m);
  }

  lemma AcceptedAckOk(ids: set<NodeId>, h: History, p: NodeId, nd: Node, m: AppendEntries, nd': Node)
    requires HistoryOk(ids, h) && m.term in h.reigns && End(m) < |h.reigns[m.term].log|
    requires AckOk(h, p, nd) && nd.currentTerm == m.term && Accepted(h, nd, m, nd')
    ensures AckOk(WithAck(h, p, m.term, End(m)), p, nd')
  {
    var u, g := m.term, WithAck(h, p, m.term, End(m));
    forall t: nat, k: nat | Acked(g, p, t, k) ensures t <= u && Kept(g, nd'.store.log, t, k, u + 1) {
      if Acked(h, p, t, k) {
        RepairedKept(ids, h, nd.store.log, u, End(m), nd'.store.log, t, k);
        assert g.reigns == h.reigns;
      } else {
        assert t == u && k <= End(m);
      }
    }
  }

  lemma AcceptedCommitOk(c: Config, h: History, p: NodeId, nd: Node, m: AppendEntries, nd': Node)
    requires HistoryOk(c.Ids(), h) && AppendOk(c, h, p, m)
    requires Rooted(h, nd.store.log) && CommitOk(c.Ids(), h, nd) && nd.currentTerm == m.term
    requires Accepted(h, nd, m, nd')
    ensures CommitOk(c.Ids(), h, nd')
  {
    var u, l := m.term, nd'.store.log;
    RepairedCommitted(c.Ids(), h, nd.store.log, u, End(m), l, nd.commitIndex);
    if m.leaderCommit > nd.commitIndex {
      CommittedPrefix(c.Ids(), h, h.reigns[u].log, m.leaderCommit, l, m.leaderCommit, u);
    }
  }

  lemma AcceptedNodeOk(c: Config, votes: set<(NodeId, RequestVote)>, h: History, p: NodeId,
                       nd: Node, m: AppendEntries, nd': Node)
    requires HistoryOk(c.Ids(), h) && AppendOk(c, h, p, m) && p in c.Ids()
    requires NodeOk(c, votes, h, p, nd) && nd.currentTerm == m.term && Accepted(h, nd, m, nd')
    requires Grows(h, WithAck(h, p, m.term, End(m)))
    ensures NodeOk(c, votes, WithAck(h, p, m.term, End(m)), p, nd')
  {
    var g := WithAck(h, p, m.term, End(m));
    var leader := h.reigns[m.term].log;
    assert LogOk(g, nd') by {
      assert Rooted(h, leader) by { assert ReignOk(c.Ids(), h, m.term); }
      RepairedRooted(h, nd.store.log, leader, End(m), nd'.store.log);
      RootedGrows(h, g, nd'.store.log);
      RepairedTerms(c.Ids(), h, nd.store.log, m.term, End(m), nd'.store.log);
    }
    assert AckOk(g, p, nd') by { AcceptedAckOk(c.Ids(), h, p, nd, m, nd'); }
    assert CommitOk(c.Ids(), g, nd') by {
      AcceptedCommitOk(c, h, p, nd, m, nd');
      CommittedGrows(c.Ids(), h, g, nd'.store.log, nd'.commitIndex, m.term, m.term);
    }
  }

  /** An append in the node's own term; the node cannot be the leader of that term. */
  lemma AppendHandledInTerm(c: Config, s: Cluster, h: History, p: NodeId, m: AppendEntries) returns (g: History)
    requires c.Valid() && Inv(c, s, h) && AppendOk(c, h, p, m) && p in c.Ids()
    requires m.term <= s.servers[p].node.currentTerm
    ensures Inv(c, DeliverAppend(s, p, m).0, g) && Grows(h, g)
    ensures var r := DeliverAppend(s, p, m).1; r.success ==> Acked(g, p, m.term, r.matchIndex)
  {
    var Server(nd, task) := s.servers[p];
    var (nd', reply) := HandleAppendEntries(p, nd, m);
    g := h;
    GrowsRefl(h);
    if m.term < nd.currentTerm {
      assert DeliverAppend(s, p, m).0.servers == s.servers;
    } else if !HasPrevious(nd.store.log, m) {
      NotLeading(c, s, h, p, m);
      FollowOk(c, s, h, p, m.leaderId);
    } else {
      NotLeading(c, s, h, p, m);
      g := WithAck(h, p, m.term, End(m));
      assert NodeOk(c, s.votes, h, p, nd) && TaskOk(c, h, p, nd, task) by { assert ServerOk(c, s, h, p); }
      WithAckOk(c.Ids(), h, p, nd, End(m));
      HandledNode(c, h, p, nd, m);
      AcceptedNodeOk(c, s.votes, h, p, nd, m, nd');
      OtherTaskOk(c, h, g, p, nd, task);
      FollowerTaskOk(c, g, p, nd, nd', task);
      ChangeServer(c, s, h, g, p, Server(nd', task), DeliverAppend(s, p, m).0);
    }
  }

  lemma NotLeading(c: Config, s: Cluster, h: History, p: NodeId, m: AppendEntries)
    requires Inv(c, s, h) && p in c.Ids() && AppendOk(c, h, p, m)
    requires m.term == s.servers[p].node.currentTerm
    ensures s.servers[p].node.role != Leader
  {
    assert ServerOk(c, s, h, p);
  }

  lemma FollowerTaskOk(c: Config, h: History, i: NodeId, nd: Node, nd': Node, task: Task)
    requires i in c.Ids() && TaskOk(c, h, i, nd, task)
    requires nd'.role == Follower && nd.currentTerm <= nd'.currentTerm
    ensures TaskOk(c, h, i, nd', task)
  {
  }

  /** Accepting the sender as leader, without taking its entries. */
  lemma FollowOk(c: Config, s: Cluster, h: History, p: NodeId, leaderId: NodeId)
    requires Inv(c, s, h) && p in c.Ids()
    ensures Inv(c, s.SetNode(p, s.servers[p].node.(leaderId := leaderId, role := Follower)), h)
  {
    assert ServerOk(c, s, h, p);
    var Server(nd, task) := s.servers[p];
    var nd' := nd.(leaderId := leaderId, role := Follower);
    FollowerTaskOk(c, h, p, nd, nd', task);
    ChangeServerOnly(c, s, h, p, Server(nd', task), s.SetNode(p, nd'));
  }

  /** Handling a message of a later term is stepping down and then handling it. */
  lemma StepDownThenDeliver(s: Cluster, p: NodeId, m: AppendEntries)
    requires p in s.servers && m.term > s.servers[p].node.currentTerm
    ensures var s1 := s.SetServer(p, BecomeFollower(s.servers[p].node, m.term, s.servers[p].node.leaderId),
                                     s.servers[p].task);
            DeliverAppend(s1, p, m) == DeliverAppend(s, p, m)
  {
    var s1 := s.SetServer(p, BecomeFollower(s.servers[p].node, m.term, s.servers[p].node.leaderId), s.servers[p].task);
    assert DeliverAppend(s1, p, m).0.servers == DeliverAppend(s, p, m).0.servers;
  }

  lemma AppendHandled(c: Config, s: Cluster, h: History, p: NodeId, m: AppendEntries) returns (g: History)
    requires c.Valid() && Inv(c, s, h) && AppendOk(c, h, p, m)
    ensures p in s.servers && Inv(c, DeliverAppend(s, p, m).0, g) && Grows(h, g)
    ensures var r := DeliverAppend(s, p, m).1; r.success ==> Acked(g, p, m.term, r.matchIndex)
  {
    var nd := s.servers[p].node;
    if m.term > nd.currentTerm {
      StepDownOk(c, s, h, p, m.term, nd.leaderId, s.servers[p].task);
      var s1 := s.SetServer(p, BecomeFollower(nd, m.term, nd.leaderId), s.servers[p].task);
      StepDownThenDeliver(s, p, m);
      g := AppendHandledInTerm(c, s1, h, p, m);
    } else {
      g := AppendHandledInTerm(c, s, h, p, m);
    }
  }
}
