/** What Raft promises, for every run of a cluster with an odd number of nodes. */
module RaftSafety {
  import opened RaftTypes
  import opened RaftRules
  import opened RaftCluster
  import opened RaftHistory
  import opened RaftInvariant
  import opened RaftReplication
  import opened RaftRounds

  lemma ReachableInv(c: Config, s: Cluster) returns (h: History)
    requires c.Valid() && |c.Ids()| % 2 == 1 && Reachable(c, s)
    ensures Inv(c, s, h)
  {
    var events :| Run(c, Init(c), events, s);
    InitInv(c);
    h := RunInv(c, Init(c), NOTHING, events, s);
  }

  /** Election safety: at most one node leads in a term. */
  lemma ElectionSafety(c: Config, s: Cluster)
    requires c.Valid() && |c.Ids()| % 2 == 1 && Reachable(c, s)
    ensures OneLeaderPerTerm(s)
  {
    var h := ReachableInv(c, s);
    forall i | i in s.servers && s.servers[i].node.role == Leader
      ensures s.servers[i].node.currentTerm in h.reigns && h.reigns[s.servers[i].node.currentTerm].leader == i
    {
      assert ServerOk(c, s, h, i);
    }
  }

  /** Log matching: entries with equal index and term come with equal logs up to that index. */
  lemma LogMatching(c: Config, s: Cluster, i: NodeId, j: NodeId)
    requires c.Valid() && |c.Ids()| % 2 == 1 && Reachable(c, s)
    requires i in s.servers && j in s.servers
    ensures Matching(s.servers[i].node.store.log, s.servers[j].node.store.log)
  {
    var h := ReachableInv(c, s);
    assert ServerOk(c, s, h, i) && ServerOk(c, s, h, j);
    RootedMatch(h, s.servers[i].node.store.log, s.servers[j].node.store.log);
  }

  lemma CommittedIn(c: Config, s: Cluster, h: History, i: NodeId)
    requires Inv(c, s, h) && i in s.servers
    ensures var nd := s.servers[i].node;
            && nd.commitIndex < |nd.store.log|
            && Committed(c.Ids(), h, nd.store.log, nd.commitIndex, nd.currentTerm)
    ensures HistoryOk(c.Ids(), h)
  {
    assert ServerOk(c, s, h, i);
  }

  lemma CommittedEntry(nd: Node, k: nat)
    requires nd.commitIndex < |nd.store.log| && k < |CommittedLog(nd)|
    ensures k + 1 <= nd.commitIndex && CommittedLog(nd)[k] == nd.store.log[k + 1]
  {
  }

  /** What one node has committed at one time and another at any later time never disagree. */
  lemma CommittedForever(c: Config, s: Cluster, events: seq<Event>, s': Cluster, i: NodeId, j: NodeId, k: nat)
    requires c.Valid() && |c.Ids()| % 2 == 1 && Reachable(c, s) && Run(c, s, events, s')
    requires i in s.servers && j in s'.servers
    requires k < |CommittedLog(s.servers[i].node)| && k < |CommittedLog(s'.servers[j].node)|
    ensures CommittedLog(s.servers[i].node)[k] == CommittedLog(s'.servers[j].node)[k]
  {
    var h := ReachableInv(c, s);
    var g := RunInv(c, s, h, events, s');
    CommittedIn(c, s, h, i);
    CommittedIn(c, s', g, j);
    CommittedEntry(s.servers[i].node, k);
    CommittedEntry(s'.servers[j].node, k);
    CommittedPair(c.Ids(), h, g, s.servers[i].node, s'.servers[j].node, k + 1);
  }

  lemma CommittedPair(ids: set<NodeId>, h: History, g: History, a: Node, b: Node, n: nat)
    requires HistoryOk(ids, g) && Grows(h, g)
    requires Committed(ids, h, a.store.log, a.commitIndex, a.currentTerm)
    requires Committed(ids, g, b.store.log, b.commitIndex, b.currentTerm)
    requires 0 < n <= a.commitIndex < |a.store.log| && n <= b.commitIndex < |b.store.log|
    ensures a.store.log[n] == b.store.log[n]
  {
    CommittedGrows(ids, h, g, a.store.log, a.commitIndex, a.currentTerm, a.currentTerm);
    CommittedPrefix(ids, g, a.store.log, a.commitIndex, a.store.log, n, a.currentTerm);
    CommittedAgree(ids, g, a.store.log, n, a.currentTerm, b.store.log, b.commitIndex, b.currentTerm);
  }

  /** State machine safety: committed logs never disagree. */
  lemma StateMachineSafety(c: Config, s: Cluster)
    requires c.Valid() && |c.Ids()| % 2 == 1 && Reachable(c, s)
    ensures CommittedLogsAgree(s)
  {
    forall i, j, k | i in s.servers && j in s.servers
                     && 0 <= k < |CommittedLog(s.servers[i].node)| && k < |CommittedLog(s.servers[j].node)|
      ensures CommittedLog(s.servers[i].node)[k] == CommittedLog(s.servers[j].node)[k]
    {
      CommittedForever(c, s, [], s, i, j, k);
    }
  }

  /**
   Leader completeness: what a node had committed in its term is in the log of every leader of that term or a later
   one.
   */
  lemma LeadersHaveCommitted(c: Config, s: Cluster, events: seq<Event>, s': Cluster, i: NodeId, j: NodeId, k: nat)
    requires c.Valid() && |c.Ids()| % 2 == 1 && Reachable(c, s) && Run(c, s, events, s')
    requires i in s.servers && k < |CommittedLog(s.servers[i].node)|
    requires j in s'.servers && s'.servers[j].node.role == Leader
    requires s.servers[i].node.currentTerm <= s'.servers[j].node.currentTerm
    ensures k + 1 < |s'.servers[j].node.store.log|
    ensures s'.servers[j].node.store.log[k + 1] == CommittedLog(s.servers[i].node)[k]
  {
    var h := ReachableInv(c, s);
    var g := RunInv(c, s, h, events, s');
    CommittedIn(c, s, h, i);
    CommittedEntry(s.servers[i].node, k);
    var a, b := s.servers[i].node, s'.servers[j].node;
    assert LeaderOk(c, g, j, b) by { assert ServerOk(c, s', g, j); }
    LeaderLogHas(c.Ids(), h, g, a, b);
  }

  lemma LeaderLogHas(ids: set<NodeId>, h: History, g: History, a: Node, b: Node)
    requires HistoryOk(ids, g) && Grows(h, g)
    requires 0 < a.commitIndex && Committed(ids, h, a.store.log, a.commitIndex, a.currentTerm)
    requires b.currentTerm in g.reigns && g.reigns[b.currentTerm].log == b.store.log && a.currentTerm <= b.currentTerm
    ensures Agree(b.store.log, a.store.log, a.commitIndex)
  {
    CommittedGrows(ids, h, g, a.store.log, a.commitIndex, a.currentTerm, a.currentTerm);
    var u: nat, m: nat :| CommittedBy(ids, g, a.store.log, a.commitIndex, a.currentTerm, u, m);
    LaterLeadersHave(ids, g, u, m, b.currentTerm);
  }

  // ---- What a step leaves alone

  /** Node b continues node a: no smaller term, the log as it was through n, and a leader's log only longer. */
  ghost predicate Continues(a: Node, b: Node, n: nat) {
    && a.currentTerm <= b.currentTerm
    && Agree(b.store.log, a.store.log, n)
    && (a.role == Leader && b.role == Leader && a.currentTerm == b.currentTerm ==>
          Agree(b.store.log, a.store.log, LastIndex(a.store.log)))
  }

  /** The log of the node is safe through n. */
  ghost predicate SafeThrough(c: Config, h: History, nd: Node, n: nat) {
    n < |nd.store.log| && Committed(c.Ids(), h, nd.store.log, n, nd.currentTerm)
  }

  lemma AppendContinues(c: Config, s: Cluster, h: History, p: NodeId, m: AppendEntries, n: nat)
    requires c.Valid() && Inv(c, s, h) && AppendOk(c, h, p, m)
    requires p in s.servers && SafeThrough(c, h, s.servers[p].node, n)
    ensures var nd, nd' := s.servers[p].node, HandleAppendEntries(p, s.servers[p].node, m).0;
            Continues(nd, nd', n) && nd.commitIndex <= nd'.commitIndex
  {
    var nd := s.servers[p].node;
    assert LogOk(h, nd) && CommitOk(c.Ids(), h, nd) by { assert ServerOk(c, s, h, p); }
    if m.term >= nd.currentTerm && HasPrevious(nd.store.log, m) {
      GrowsRefl(h);
      CommittedGrows(c.Ids(), h, h, nd.store.log, n, nd.currentTerm, m.term);
      HandledContinues(c, h, p, nd, m, n);
    }
  }

  lemma HandledContinues(c: Config, h: History, p: NodeId, nd: Node, m: AppendEntries, n: nat)
    requires HistoryOk(c.Ids(), h) && AppendOk(c, h, p, m) && LogOk(h, nd)
    requires m.term >= nd.currentTerm && HasPrevious(nd.store.log, m)
    requires n < |nd.store.log| && Committed(c.Ids(), h, nd.store.log, n, m.term)
    ensures Continues(nd, HandleAppendEntries(p, nd, m).0, n)
    ensures nd.commitIndex <= HandleAppendEntries(p, nd, m).0.commitIndex
  {
    var n1 := if m.term > nd.currentTerm then BecomeFollower(nd, m.term, nd.leaderId) else nd;
    HandledNode(c, h, p, n1, m);
    var log := HandleAppendEntries(p, n1, m).0.store.log;
    RepairedCommitted(c.Ids(), h, nd.store.log, m.term, End(m), log, n);
    assert HandleAppendEntries(p, n1, m) == HandleAppendEntries(p, nd, m);
  }

  lemma TakeReplyContinues(nd: Node, peers: seq<NodeId>, peer: NodeId, reply: AppendReply, n: nat)
    requires n < |nd.store.log|
    ensures var nd' := TakeAppendReply(nd, peers, peer, reply);
            Continues(nd, nd', n) && nd.commitIndex <= nd'.commitIndex
  {
    if nd.role == Leader && reply.term <= nd.currentTerm && reply.success {
      var nd1 := nd.(matchIndex := nd.matchIndex[peer := reply.matchIndex],
                     nextIndex := nd.nextIndex[peer := reply.matchIndex + 1]);
      NewCommitFinds(nd1, peers, |nd.store.log| - 1);
    }
  }

  /** The node whose state event e may change. */
  function Target(c: Config, s: Cluster, e: Event): NodeId
    requires Enabled(c, s, e)
  {
    if e.CallVote? || e.CallAppend? then c.peers[e.i][s.servers[e.i].task.next] else e.i
  }

  lemma OthersUntouched(c: Config, s: Cluster, e: Event, j: NodeId)
    requires Enabled(c, s, e) && j in s.servers && j != Target(c, s, e)
    ensures j in Step(c, s, e).servers && Step(c, s, e).servers[j].node == s.servers[j].node
  {
  }

  /** Steps that neither take an append nor a reply to one. */
  lemma PlainContinues(c: Config, s: Cluster, e: Event, j: NodeId, n: nat)
    requires Enabled(c, s, e) && j in s.servers && j == Target(c, s, e)
    requires !e.CallAppend? && !e.LateAppend? && !e.TakeAppend?
    requires n < |s.servers[j].node.store.log|
    requires s.servers[j].node.store.term == s.servers[j].node.currentTerm
    ensures j in Step(c, s, e).servers
    ensures Continues(s.servers[j].node, Step(c, s, e).servers[j].node, n)
    ensures e == Restart(j) || s.servers[j].node.commitIndex <= Step(c, s, e).servers[j].node.commitIndex
  {
  }

  lemma StepContinues(c: Config, s: Cluster, h: History, e: Event, j: NodeId, n: nat)
    requires c.Valid() && Inv(c, s, h) && Enabled(c, s, e)
    requires j in s.servers && SafeThrough(c, h, s.servers[j].node, n)
    ensures j in Step(c, s, e).servers && Continues(s.servers[j].node, Step(c, s, e).servers[j].node, n)
    ensures e == Restart(j) || s.servers[j].node.commitIndex <= Step(c, s, e).servers[j].node.commitIndex
  {
    if j != Target(c, s, e) {
      OthersUntouched(c, s, e, j);
    } else if e.CallAppend? {
      assert AppendOk(c, h, j, s.servers[e.i].task.append) by { assert ServerOk(c, s, h, e.i); }
      AppendContinues(c, s, h, j, s.servers[e.i].task.append, n);
    } else if e.LateAppend? {
      assert AppendOk(c, h, j, e.append);
      AppendContinues(c, s, h, j, e.append, n);
    } else if e.TakeAppend? {
      var task := s.servers[j].task;
      TakeReplyContinues(s.servers[j].node, c.peers[j], c.peers[j][task.next], task.appendReply, n);
    } else {
      assert s.servers[j].node.store.term == s.servers[j].node.currentTerm by { assert ServerOk(c, s, h, j); }
      PlainContinues(c, s, e, j, n);
    }
  }

  /**
   Every step: terms never fall, the commit index falls only at a restart and never passes the end of the log,
   nothing committed is cut or rewritten, and a leader only appends to its log.
   */
  lemma StepMonotone(c: Config, s: Cluster, e: Event, j: NodeId)
    requires c.Valid() && |c.Ids()| % 2 == 1 && Reachable(c, s) && Enabled(c, s, e) && j in s.servers
    ensures j in Step(c, s, e).servers
    ensures s.servers[j].node.commitIndex <= LastIndex(s.servers[j].node.store.log)
    ensures Continues(s.servers[j].node, Step(c, s, e).servers[j].node, s.servers[j].node.commitIndex)
    ensures e == Restart(j) || s.servers[j].node.commitIndex <= Step(c, s, e).servers[j].node.commitIndex
  {
    var h := ReachableInv(c, s);
    CommittedIn(c, s, h, j);
    StepContinues(c, s, h, e, j, s.servers[j].node.commitIndex);
  }

  /**
   Over a whole run, restarts included: terms never fall, and what a node once had committed stays in its log for
   good. Without a restart of the node its commit index never falls.
   */
  lemma RunMonotone(c: Config, s: Cluster, events: seq<Event>, s': Cluster, j: NodeId)
    requires c.Valid() && |c.Ids()| % 2 == 1 && Reachable(c, s) && Run(c, s, events, s') && j in s.servers
    ensures j in s'.servers
    ensures s.servers[j].node.currentTerm <= s'.servers[j].node.currentTerm
    ensures Agree(s'.servers[j].node.store.log, s.servers[j].node.store.log, s.servers[j].node.commitIndex)
    ensures Restart(j) in events || s.servers[j].node.commitIndex <= s'.servers[j].node.commitIndex
  {
    var h := ReachableInv(c, s);
    CommittedIn(c, s, h, j);
    RunContinues(c, s, h, events, s', j, s.servers[j].node.commitIndex);
  }

  lemma {:induction false} RunContinues(c: Config, s: Cluster, h: History, events: seq<Event>, s': Cluster,
                                        j: NodeId, n: nat)
    requires c.Valid() && |c.Ids()| % 2 == 1 && Inv(c, s, h) && Run(c, s, events, s')
    requires j in s.servers && SafeThrough(c, h, s.servers[j].node, n)
    ensures j in s'.servers
    ensures s.servers[j].node.currentTerm <= s'.servers[j].node.currentTerm
    ensures Agree(s'.servers[j].node.store.log, s.servers[j].node.store.log, n)
    ensures Restart(j) in events || s.servers[j].node.commitIndex <= s'.servers[j].node.commitIndex
    decreases |events|
  {
    if events != [] {
      var s1 := Step(c, s, events[0]);
      StepContinues(c, s, h, events[0], j, n);
      var h1 := StepInv(c, s, h, events[0]);
      var a, b := s.servers[j].node, s1.servers[j].node;
      CommittedGrows(c.Ids(), h, h1, a.store.log, n, a.currentTerm, b.currentTerm);
      CommittedPrefix(c.Ids(), h1, a.store.log, n, b.store.log, n, b.currentTerm);
      RunContinues(c, s1, h1, events[1..], s', j, n);
    }
  }

  // ---- Messages that arrive again

  /** Log l has the entry the message builds on, and all of its entries. */
  ghost predicate Holds(l: Log, m: AppendEntries) {
    && HasPrevious(l, m)
    && End(m) < |l|
    && forall k :: 0 <= k < |m.entries| ==> l[m.prevLogIndex + 1 + k] == m.entries[k]
  }

  /** After a successful append the follower's log holds what the message carries. */
  lemma SuccessMeansHeld(c: Config, s: Cluster, p: NodeId, m: AppendEntries)
    requires c.Valid() && |c.Ids()| % 2 == 1 && Reachable(c, s) && (p, m) in s.appends
    ensures p in s.servers
    ensures var (nd', reply) := HandleAppendEntries(p, s.servers[p].node, m);
            reply.success ==> Holds(nd'.store.log, m)
  {
    var h := ReachableInv(c, s);
    assert AppendOk(c, h, p, m);
    var nd := s.servers[p].node;
    assert LogOk(h, nd) by { assert ServerOk(c, s, h, p); }
    if m.term >= nd.currentTerm && HasPrevious(nd.store.log, m) {
      HandledLog(c, h, p, nd, m);
      RepairedHolds(nd.store.log, h.reigns[m.term].log, m, Merge(nd.store.log, m.prevLogIndex + 1, m.entries));
    }
  }

  lemma RepairedHolds(l: Log, leader: Log, m: AppendEntries, r: Log)
    requires Carries(leader, m) && Repaired(l, leader, End(m), r)
    ensures Holds(r, m)
  {
    assert Agree(r, leader, End(m));
  }

  /** Handling the same append again, right away, changes nothing and gives the same reply. */
  lemma AppendTwice(c: Config, s: Cluster, p: NodeId, m: AppendEntries)
    requires c.Valid() && |c.Ids()| % 2 == 1 && Reachable(c, s) && (p, m) in s.appends
    ensures p in s.servers
    ensures var once := HandleAppendEntries(p, s.servers[p].node, m);
            HandleAppendEntries(p, once.0, m) == once
  {
    SuccessMeansHeld(c, s, p, m);
    var nd := s.servers[p].node;
    var (nd', reply) := HandleAppendEntries(p, nd, m);
    if reply.success {
      HeldMergesToSelf(nd'.store.log, m.prevLogIndex + 1, m.entries);
    }
  }

  /** Entries a log already holds, in term, leave it as it is. */
  lemma {:induction false} HeldMergesToSelf(log: Log, pos: nat, entries: seq<LogEntry>)
    requires 1 <= pos && pos + |entries| <= |log|
    requires forall k :: 0 <= k < |entries| ==> log[pos + k].term == entries[k].term
    ensures Merge(log, pos, entries) == log
    decreases |entries|
  {
    if entries != [] {
      assert log[pos + 0].term == entries[0].term;
      forall k | 0 <= k < |entries[1..]| ensures log[pos + 1 + k].term == entries[1..][k].term {
        assert log[pos + (k + 1)].term == entries[k + 1].term;
      }
      HeldMergesToSelf(log, pos + 1, entries[1..]);
    }
  }

  /** Event e is the handling of message m by node p. */
  ghost predicate Handles(c: Config, s: Cluster, e: Event, p: NodeId, m: AppendEntries) {
    && Enabled(c, s, e) && (e.CallAppend? || e.LateAppend?) && Target(c, s, e) == p
    && m == if e.CallAppend? then s.servers[e.i].task.append else e.append
  }

  lemma HandledOk(c: Config, s: Cluster, h: History, e: Event, p: NodeId, m: AppendEntries)
    requires Inv(c, s, h) && Handles(c, s, e, p, m) && p in s.servers
    ensures AppendOk(c, h, p, m) && LogOk(h, s.servers[p].node)
  {
    assert ServerOk(c, s, h, p) && ServerOk(c, s, h, e.i);
    if e.LateAppend? { assert AppendOk(c, h, p, e.append); }
  }

  lemma HandlesStep(c: Config, s: Cluster, e: Event, p: NodeId, m: AppendEntries)
    requires Handles(c, s, e, p, m) && p in s.servers
    ensures p in Step(c, s, e).servers
            && Step(c, s, e).servers[p].node == HandleAppendEntries(p, s.servers[p].node, m).0
  {
  }

  /** A successful handling is acknowledged in the history from then on. */
  lemma SuccessIsAcked(c: Config, s: Cluster, h: History, e: Event, p: NodeId, m: AppendEntries) returns (g: History)
    requires c.Valid() && |c.Ids()| % 2 == 1 && Inv(c, s, h) && Handles(c, s, e, p, m)
    requires p in s.servers && HandleAppendEntries(p, s.servers[p].node, m).1.success
    ensures Inv(c, Step(c, s, e), g) && Grows(h, g)
    ensures AppendOk(c, g, p, m) && Acked(g, p, m.term, End(m))
  {
    if e.LateAppend? {
      assert AppendOk(c, h, p, m);
      g := AppendHandled(c, s, h, p, m);
    } else {
      assert TaskOk(c, h, e.i, s.servers[e.i].node, s.servers[e.i].task) by { assert ServerOk(c, s, h, e.i); }
      g := StepInv(c, s, h, e);
      assert ServerOk(c, Step(c, s, e), g, e.i);
    }
    assert (p, m) in Step(c, s, e).appends;
  }

  /** A node that has not left the term holds what it acknowledged in it. */
  lemma AckedInTerm(h: History, p: NodeId, nd: Node, k: nat)
    requires AckOk(h, p, nd) && Acked(h, p, nd.currentTerm, k)
    ensures nd.currentTerm in h.reigns && Agree(nd.store.log, h.reigns[nd.currentTerm].log, k)
  {
    assert Kept(h, nd.store.log, nd.currentTerm, k, nd.currentTerm + 1);
  }

  /** What an append does to a node that has acknowledged all it carries: the node only follows and hears of commits. */
  ghost predicate DropsNothing(nd: Node, m: AppendEntries, nd': Node, reply: AppendReply, p: NodeId) {
    if nd.currentTerm == m.term then
      && nd' == nd.(leaderId := m.leaderId, role := Follower,
                    commitIndex := if m.leaderCommit > nd.commitIndex then m.leaderCommit else nd.commitIndex)
      && reply == AppendReply(m.term, true, p, End(m))
    else nd' == nd && !reply.success
  }

  lemma AckedDropsNothing(c: Config, h: History, p: NodeId, nd: Node, m: AppendEntries, k: nat)
    requires HistoryOk(c.Ids(), h) && AppendOk(c, h, p, m) && LogOk(h, nd) && AckOk(h, p, nd)
    requires Acked(h, p, m.term, k) && End(m) <= k
    ensures var (nd', reply) := HandleAppendEntries(p, nd, m); DropsNothing(nd, m, nd', reply, p)
  {
    if nd.currentTerm == m.term {
      AckedInTerm(h, p, nd, k);
      HandledNode(c, h, p, nd, m);
    }
  }

  /**
   A message of the same leader that arrives at any time after a successful one and reaches no further drops nothing,
   whatever happened in between: while the node is still in the term it acknowledges the message and its log, term and
   vote stay; once it has left the term it changes nothing.
   */
  lemma LateAppendDropsNothing(c: Config, s: Cluster, e: Event, p: NodeId, m: AppendEntries,
                               events: seq<Event>, s': Cluster, m': AppendEntries)
    requires c.Valid() && |c.Ids()| % 2 == 1 && Reachable(c, s) && Handles(c, s, e, p, m)
    requires p in s.servers && HandleAppendEntries(p, s.servers[p].node, m).1.success
    requires Run(c, Step(c, s, e), events, s')
    requires (p, m') in s'.appends && m'.term == m.term && End(m') <= End(m)
    ensures p in s'.servers
    ensures var nd := s'.servers[p].node;
            var (nd', reply) := HandleAppendEntries(p, nd, m');
            DropsNothing(nd, m', nd', reply, p)
  {
    var h := ReachableInv(c, s);
    var h1 := SuccessIsAcked(c, s, h, e, p, m);
    var g := RunInv(c, Step(c, s, e), h1, events, s');
    assert AppendOk(c, g, p, m');
    var nd := s'.servers[p].node;
    assert LogOk(g, nd) && AckOk(g, p, nd) by { assert ServerOk(c, s', g, p); }
    AckedDropsNothing(c, g, p, nd, m', End(m));
  }

  // ---- The same message again

  /** The node that a successful append leaves behind follows the sender and has its commit index. */
  lemma SuccessLeaves(c: Config, h: History, p: NodeId, nd: Node, m: AppendEntries)
    requires HistoryOk(c.Ids(), h) && AppendOk(c, h, p, m) && LogOk(h, nd)
    requires HandleAppendEntries(p, nd, m).1.success
    ensures var (nd', reply) := HandleAppendEntries(p, nd, m);
            && m.leaderCommit <= nd'.commitIndex && Following(nd', m.term, m.leaderId)
            && reply == AppendReply(m.term, true, p, End(m))
  {
    var n1 := if m.term > nd.currentTerm then BecomeFollower(nd, m.term, nd.leaderId) else nd;
    HandledNode(c, h, p, n1, m);
    assert HandleAppendEntries(p, n1, m) == HandleAppendEntries(p, nd, m);
  }

  /** The node has left the term, or follows its leader in it. */
  ghost predicate Following(nd: Node, t: nat, leader: NodeId) {
    nd.currentTerm > t || (nd.currentTerm == t && nd.role == Follower && nd.leaderId == leader)
  }

  lemma AppendFollowing(c: Config, h: History, p: NodeId, nd: Node, m: AppendEntries, t: nat)
    requires AppendOk(c, h, p, m) && t in h.reigns && Following(nd, t, h.reigns[t].leader)
    ensures Following(HandleAppendEntries(p, nd, m).0, t, h.reigns[t].leader)
  {
  }

  /** Steps that do not handle an append. */
  lemma PlainFollowing(c: Config, s: Cluster, e: Event, p: NodeId, t: nat, leader: NodeId)
    requires Enabled(c, s, e) && p in s.servers && p == Target(c, s, e)
    requires !e.CallAppend? && !e.LateAppend? && e != Restart(p)
    requires Following(s.servers[p].node, t, leader)
    ensures p in Step(c, s, e).servers && Following(Step(c, s, e).servers[p].node, t, leader)
  {
  }

  lemma StillFollowing(c: Config, s: Cluster, h: History, e: Event, p: NodeId, t: nat)
    requires Inv(c, s, h) && Enabled(c, s, e) && e != Restart(p) && p in s.servers
    requires t in h.reigns && Following(s.servers[p].node, t, h.reigns[t].leader)
    ensures p in Step(c, s, e).servers && Following(Step(c, s, e).servers[p].node, t, h.reigns[t].leader)
  {
    if p != Target(c, s, e) {
      OthersUntouched(c, s, e, p);
    } else if e.CallAppend? || e.LateAppend? {
      var m := if e.CallAppend? then s.servers[e.i].task.append else e.append;
      HandledOk(c, s, h, e, p, m);
      HandlesStep(c, s, e, p, m);
      AppendFollowing(c, h, p, s.servers[p].node, m, t);
    } else {
      PlainFollowing(c, s, e, p, t, h.reigns[t].leader);
    }
  }

  lemma {:induction false} RunFollowing(c: Config, s: Cluster, h: History, events: seq<Event>,
        s': Cluster, p: NodeId, t: nat)
    requires c.Valid() && |c.Ids()| % 2 == 1 && Inv(c, s, h) && Run(c, s, events, s') && p in s.servers
    requires Restart(p) !in events
    requires t in h.reigns && Following(s.servers[p].node, t, h.reigns[t].leader)
    ensures p in s'.servers && Following(s'.servers[p].node, t, h.reigns[t].leader)
    decreases |events|
  {
    if events != [] {
      StillFollowing(c, s, h, events[0], p, t);
      var h1 := StepInv(c, s, h, events[0]);
      assert ReignGrows(h, h1, t);
      RunFollowing(c, Step(c, s, events[0]), h1, events[1..], s', p, t);
    }
  }

  /** A node that acknowledged a message and follows its leader is not changed by it for the rest of a run. */
  lemma AgainInRun(c: Config, s: Cluster, h: History, p: NodeId, m: AppendEntries, events: seq<Event>, s': Cluster)
    requires c.Valid() && |c.Ids()| % 2 == 1 && Reachable(c, s) && Inv(c, s, h) && p in s.servers
    requires AppendOk(c, h, p, m) && Acked(h, p, m.term, End(m))
    requires Following(s.servers[p].node, m.term, m.leaderId) && m.leaderCommit <= s.servers[p].node.commitIndex
    requires Run(c, s, events, s') && Restart(p) !in events
    ensures p in s'.servers
    ensures var nd := s'.servers[p].node;
            var (nd', reply) := HandleAppendEntries(p, nd, m);
            nd' == nd && (nd.currentTerm == m.term ==> reply == AppendReply(m.term, true, p, End(m)))
  {
    RunFollowing(c, s, h, events, s', p, m.term);
    RunMonotone(c, s, events, s', p);
    var g := RunInv(c, s, h, events, s');
    AppendOkGrows(c, h, g, p, m);
    var nd := s'.servers[p].node;
    assert LogOk(g, nd) && AckOk(g, p, nd) by { assert ServerOk(c, s', g, p); }
    AckedDropsNothing(c, g, p, nd, m, End(m));
  }

  /**
   The same append handled again at any later time, with anything but a restart of the node in between, changes
   nothing at all; in the same term it gives the same reply.
   */
  lemma AppendAgain(c: Config, s: Cluster, e: Event, p: NodeId, m: AppendEntries, events: seq<Event>, s': Cluster)
    requires c.Valid() && |c.Ids()| % 2 == 1 && Reachable(c, s) && Handles(c, s, e, p, m)
    requires p in s.servers && HandleAppendEntries(p, s.servers[p].node, m).1.success
    requires Run(c, Step(c, s, e), events, s') && Restart(p) !in events
    ensures p in s'.servers
    ensures var nd := s'.servers[p].node;
            && HandleAppendEntries(p, nd, m).0 == nd
            && (nd.currentTerm == m.term ==>
                  HandleAppendEntries(p, nd, m).1 == HandleAppendEntries(p, s.servers[p].node, m).1)
  {
    var h := ReachableInv(c, s);
    var s1 := Step(c, s, e);
    var h1 := SuccessIsAcked(c, s, h, e, p, m);
    assert LogOk(h, s.servers[p].node) && AppendOk(c, h, p, m) by { HandledOk(c, s, h, e, p, m); }
    SuccessLeaves(c, h, p, s.servers[p].node, m);
    HandlesStep(c, s, e, p, m);
    RunOne(c, s, e);
    ReachableThen(c, s, [e], s1);
    AgainInRun(c, s1, h1, p, m, events, s');
  }
}
