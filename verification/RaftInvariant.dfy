/** The inductive invariant of the cluster, relative to the history of the run. */
module RaftInvariant {
  import opened RaftTypes
  import opened RaftRules
  import opened RaftCluster
  import opened RaftHistory

  // ---- One node

  ghost predicate VoteOk(h: History, i: NodeId, nd: Node) {
    && nd.store.term == nd.currentTerm
    && nd.store.votedFor == nd.votedFor
    && (forall t {:trigger (i, t) in h.ballots} :: (i, t) in h.ballots ==>
          t <= nd.currentTerm && (t == nd.currentTerm ==> nd.votedFor == h.ballots[(i, t)].candidate))
    && (nd.votedFor != NOBODY ==> (i, nd.currentTerm) in h.ballots)
  }

  ghost predicate LogOk(h: History, nd: Node) {
    && Rooted(h, nd.store.log)
    && forall k :: 0 <= k < |nd.store.log| ==> nd.store.log[k].term <= nd.currentTerm
  }

  ghost predicate AckOk(h: History, i: NodeId, nd: Node) {
    forall t: nat, k: nat :: Acked(h, i, t, k) ==>
      t <= nd.currentTerm && Kept(h, nd.store.log, t, k, nd.currentTerm + 1)
  }

  ghost predicate PeerOk(h: History, nd: Node, p: NodeId) {
    && p in nd.nextIndex && 1 <= nd.nextIndex[p] <= |nd.store.log|
    && p in nd.matchIndex && (nd.matchIndex[p] > 0 ==> Acked(h, p, nd.currentTerm, nd.matchIndex[p]))
  }

  ghost predicate LeaderOk(c: Config, h: History, i: NodeId, nd: Node)
    requires i in c.Ids()
  {
    nd.role == Leader ==>
      && nd.currentTerm in h.reigns
      && h.reigns[nd.currentTerm].leader == i
      && h.reigns[nd.currentTerm].log == nd.store.log
      && Acked(h, i, nd.currentTerm, LastIndex(nd.store.log))
      && (forall p {:trigger PeerOk(h, nd, p)} :: p in c.peers[i] ==> PeerOk(h, nd, p))
  }

  ghost predicate SameClaim(lastIndex: nat, lastTerm: nat, log: Log) {
    lastIndex == LastIndex(log) && lastTerm == LastTerm(log)
  }

  /** A candidate voted for itself, and all that was asked or given in its name rests on its present log. */
  ghost predicate CandidateOk(votes: set<(NodeId, RequestVote)>, h: History, i: NodeId, nd: Node) {
    nd.role == Candidate ==>
      && nd.currentTerm > 0
      && nd.votedFor == i
      && (nd.currentTerm in h.reigns ==> h.reigns[nd.currentTerm].leader != i)
      && (forall m {:trigger m in votes} :: m in votes && m.1.candidateId == i && m.1.term == nd.currentTerm ==>
            SameClaim(m.1.lastLogIndex, m.1.lastLogTerm, nd.store.log))
      && (forall w {:trigger (w, nd.currentTerm) in h.ballots} ::
            (w, nd.currentTerm) in h.ballots && h.ballots[(w, nd.currentTerm)].candidate == i ==>
            var b := h.ballots[(w, nd.currentTerm)]; SameClaim(b.lastIndex, b.lastTerm, nd.store.log))
  }

  ghost predicate CommitOk(ids: set<NodeId>, h: History, nd: Node) {
    nd.commitIndex < |nd.store.log| && Committed(ids, h, nd.store.log, nd.commitIndex, nd.currentTerm)
  }

  ghost predicate NodeOk(c: Config, votes: set<(NodeId, RequestVote)>, h: History, i: NodeId, nd: Node)
    requires i in c.Ids()
  {
    && VoteOk(h, i, nd)
    && LogOk(h, nd)
    && AckOk(h, i, nd)
    && LeaderOk(c, h, i, nd)
    && CandidateOk(votes, h, i, nd)
    && CommitOk(c.Ids(), h, nd)
  }

  // ---- Messages

  ghost predicate VoteSentOk(c: Config, s: Cluster, p: NodeId, r: RequestVote) {
    && p in c.Ids() && r.candidateId in c.Ids() && r.candidateId != p
    && r.candidateId in s.servers && r.term <= s.servers[r.candidateId].node.currentTerm
  }

  /** An append carries a piece of the log of the leader of its term that reaches to its commit index. */
  ghost predicate AppendOk(c: Config, h: History, p: NodeId, m: AppendEntries) {
    && p in c.Ids() && p != m.leaderId
    && m.term in h.reigns
    && h.reigns[m.term].leader == m.leaderId
    && Carries(h.reigns[m.term].log, m)
    && m.leaderCommit <= m.prevLogIndex + |m.entries|
    && Committed(c.Ids(), h, h.reigns[m.term].log, m.leaderCommit, m.term)
  }

  ghost predicate Carries(l: Log, m: AppendEntries) {
    && m.prevLogIndex + |m.entries| < |l|
    && l[m.prevLogIndex].term == m.prevLogTerm
    && forall k :: 0 <= k < |m.entries| ==> m.entries[k] == l[m.prevLogIndex + 1 + k]
  }

  /** A ballot is for a node that has reached the term. */
  ghost predicate BallotCastOk(c: Config, s: Cluster, h: History, w: NodeId, t: nat)
    requires (w, t) in h.ballots
  {
    var j := h.ballots[(w, t)].candidate;
    j in c.Ids() && j in s.servers && t <= s.servers[j].node.currentTerm
  }

  // ---- The thread of one node

  /** The node itself, and the given peers that voted for it in term t. */
  ghost function Voters(h: History, i: NodeId, t: nat, peers: seq<NodeId>): set<NodeId> {
    {i} + set p | p in peers && (p, t) in h.ballots && h.ballots[(p, t)].candidate == i
  }

  ghost predicate VotingOk(c: Config, h: History, i: NodeId, nd: Node, r: RequestVote, next: nat, votes: nat)
    requires i in c.Ids()
  {
    && r.candidateId == i
    && r.term <= nd.currentTerm
    && next <= |c.peers[i]|
    && (nd.role == Candidate ==>
          && r.term == nd.currentTerm
          && SameClaim(r.lastLogIndex, r.lastLogTerm, nd.store.log)
          && votes <= |Voters(h, i, r.term, c.peers[i][..next])|)
  }

  ghost predicate RoundOk(c: Config, i: NodeId, nd: Node, term: nat, commit: nat, next: nat)
    requires i in c.Ids()
  {
    && next <= |c.peers[i]|
    && (nd.role == Leader ==> term == nd.currentTerm && commit <= nd.commitIndex)
  }

  ghost predicate TaskOk(c: Config, h: History, i: NodeId, nd: Node, task: Task)
    requires i in c.Ids()
  {
    match task
    case Idle => true
    case Campaigning => true
    case Requesting(r, next, votes) => VotingOk(c, h, i, nd, r, next, votes)
    case VoteAnswered(r, next, votes, reply) =>
      && VotingOk(c, h, i, nd, r, next, votes)
      && next < |c.peers[i]|
      && (reply.voteGranted ==>
            (c.peers[i][next], r.term) in h.ballots && h.ballots[(c.peers[i][next], r.term)].candidate == i)
    case Beating(term, commit, next) => RoundOk(c, i, nd, term, commit, next)
    case Appending(term, commit, next, m) =>
      && RoundOk(c, i, nd, term, commit, next)
      && next < |c.peers[i]|
      && m.term == term
      && AppendOk(c, h, c.peers[i][next], m)
    case AppendAnswered(term, commit, next, m, reply) =>
      && RoundOk(c, i, nd, term, commit, next)
      && next < |c.peers[i]|
      && (reply.success ==> Acked(h, c.peers[i][next], term, reply.matchIndex))
  }

  // ---- The cluster

  ghost predicate ServerOk(c: Config, s: Cluster, h: History, i: NodeId)
    requires i in c.Ids() && i in s.servers
  {
    && NodeOk(c, s.votes, h, i, s.servers[i].node)
    && TaskOk(c, h, i, s.servers[i].node, s.servers[i].task)
  }

  ghost predicate Inv(c: Config, s: Cluster, h: History) {
    && s.servers.Keys == c.Ids()
    && HistoryOk(c.Ids(), h)
    && (forall i {:trigger ServerOk(c, s, h, i)} :: i in c.Ids() ==> ServerOk(c, s, h, i))
    && (forall p, r {:trigger VoteSentOk(c, s, p, r)} :: (p, r) in s.votes ==> VoteSentOk(c, s, p, r))
    && (forall w, t {:trigger BallotCastOk(c, s, h, w, t)} :: (w, t) in h.ballots ==> BallotCastOk(c, s, h, w, t))
    && (forall p, m {:trigger AppendOk(c, h, p, m)} :: (p, m) in s.appends ==> AppendOk(c, h, p, m))
  }

  lemma InitInv(c: Config)
    requires c.Valid()
    ensures Inv(c, Init(c), NOTHING)
  {
  }

  // ---- How a history grows while one node takes a step

  ghost predicate ReignGrows(h: History, g: History, t: nat)
    requires t in h.reigns
  {
    && t in g.reigns
    && g.reigns[t].leader == h.reigns[t].leader
    && g.reigns[t].start == h.reigns[t].start
    && g.reigns[t].quorum == h.reigns[t].quorum
    && Agree(g.reigns[t].log, h.reigns[t].log, LastIndex(h.reigns[t].log))
  }

  /** History g continues h. */
  ghost predicate Grows(h: History, g: History) {
    && (forall key {:trigger key in g.ballots} {:trigger key in h.ballots} ::
          key in h.ballots ==> key in g.ballots && g.ballots[key] == h.ballots[key])
    && (forall key {:trigger key in g.acks} {:trigger key in h.acks} ::
          key in h.acks ==> key in g.acks && h.acks[key] <= g.acks[key])
    && (forall t {:trigger t in h.reigns} {:trigger t in g.reigns} :: t in h.reigns ==> ReignGrows(h, g, t))
  }

  /** All that is new in g is of node i; it acknowledges nothing from before a term it has voted in. */
  ghost predicate NewOnlyOf(h: History, g: History, i: NodeId) {
    && (forall key {:trigger key in g.ballots} :: key in g.ballots ==> key in h.ballots || key.0 == i)
    && (forall key {:trigger key in g.acks} :: key in g.acks && key.0 != i ==>
          key in h.acks && h.acks[key] == g.acks[key])
    && (forall t {:trigger t in g.reigns} :: t in g.reigns ==>
          g.reigns[t].leader == i || (t in h.reigns && h.reigns[t] == g.reigns[t]))
    && (forall u: nat, k: nat, t: nat {:trigger Acked(g, i, u, k), (i, t) in g.ballots} ::
          Acked(g, i, u, k) && (i, t) in g.ballots && u < t ==> Acked(h, i, u, k))
  }

  lemma RootedGrows(h: History, g: History, l: Log)
    requires Grows(h, g) && Rooted(h, l)
    ensures Rooted(g, l)
  {
  }

  lemma KeptGrows(h: History, g: History, l: Log, u: nat, k: nat, b: nat, b': nat)
    requires Grows(h, g) && Kept(h, l, u, k, b) && b <= b'
    requires k < |h.reigns[u].log|
    ensures Kept(g, l, u, k, b')
  {
    assert ReignGrows(h, g, u);
    if Broken(h, u, k, b) {
      var v :| u < v < b && v in h.reigns && !Agree(h.reigns[v].start, h.reigns[u].log, k);
      assert ReignGrows(h, g, v);
      assert !Agree(g.reigns[v].start, g.reigns[u].log, k);
    }
  }

  lemma ChosenGrows(ids: set<NodeId>, h: History, g: History, u: nat, k: nat)
    requires Grows(h, g) && Chosen(ids, h, u, k)
    ensures Chosen(ids, g, u, k)
  {
    var q :| Majority(ids, q) && AllAcked(h, q, u, k);
    assert AllAcked(g, q, u, k) by {
      forall w | w in q ensures Acked(g, w, u, k) {
        assert Acked(h, w, u, k);
      }
    }
  }

  lemma CommittedGrows(ids: set<NodeId>, h: History, g: History, l: Log, n: nat, b: nat, b': nat)
    requires Grows(h, g) && Committed(ids, h, l, n, b) && b <= b'
    ensures Committed(ids, g, l, n, b')
  {
    if n > 0 {
      var u: nat, k: nat :| CommittedBy(ids, h, l, n, b, u, k);
      ChosenGrows(ids, h, g, u, k);
      assert CommittedBy(ids, g, l, n, b', u, k);
    }
  }

  /** A prefix of a committed log is committed. */
  lemma CommittedPrefix(ids: set<NodeId>, h: History, l: Log, n: nat, r: Log, m: nat, b: nat)
    requires Committed(ids, h, l, n, b) && m <= n && Agree(l, r, m)
    ensures Committed(ids, h, r, m, b)
  {
    if m > 0 {
      var u: nat, k: nat :| CommittedBy(ids, h, l, n, b, u, k);
      assert CommittedBy(ids, h, r, m, b, u, k);
    }
  }

  lemma AppendOkGrows(c: Config, h: History, g: History, p: NodeId, m: AppendEntries)
    requires Grows(h, g) && AppendOk(c, h, p, m)
    ensures AppendOk(c, g, p, m)
  {
    var l, l' := h.reigns[m.term].log, g.reigns[m.term].log;
    assert ReignGrows(h, g, m.term);
    CommittedGrows(c.Ids(), h, g, l, m.leaderCommit, m.term, m.term);
    CommittedPrefix(c.Ids(), g, l, m.leaderCommit, l', m.leaderCommit, m.term);
  }

  lemma VotersGrow(h: History, g: History, i: NodeId, t: nat, peers: seq<NodeId>)
    requires Grows(h, g)
    ensures |Voters(h, i, t, peers)| <= |Voters(g, i, t, peers)|
  {
    SubsetSize(Voters(h, i, t, peers), Voters(g, i, t, peers));
  }

  /** Reigns, ballots and quorums of h that did not change are still in order in g. */
  lemma OldHistoryOk(ids: set<NodeId>, h: History, g: History, i: NodeId)
    requires HistoryOk(ids, h) && Grows(h, g) && NewOnlyOf(h, g, i)
    ensures forall t {:trigger ReignOk(ids, g, t)} ::
              t in h.reigns && h.reigns[t] == g.reigns[t] ==> ReignOk(ids, g, t)
    ensures forall t, w {:trigger ElectedBy(g, t, w)} ::
              t in h.reigns && w in h.reigns[t].quorum ==> ElectedBy(g, t, w)
    ensures forall w, t {:trigger BallotOk(g, w, t)} :: (w, t) in h.ballots ==> BallotOk(g, w, t)
    ensures forall t {:trigger QuorumOk(g, t)} :: t in h.reigns ==> QuorumOk(g, t)
  {
    forall t, w {:trigger ElectedBy(g, t, w)} | t in h.reigns && w in h.reigns[t].quorum
      ensures ElectedBy(g, t, w)
    {
      assert ReignOk(ids, h, t) && ElectedBy(h, t, w) && ReignGrows(h, g, t);
    }
    forall t | t in h.reigns && h.reigns[t] == g.reigns[t] ensures ReignOk(ids, g, t) {
      assert ReignOk(ids, h, t);
      RootedGrows(h, g, h.reigns[t].log);
    }
    forall w, t | (w, t) in h.ballots ensures BallotOk(g, w, t) {
      OldBallotOk(ids, h, g, i, w, t);
    }
    forall t | t in h.reigns ensures QuorumOk(g, t) {
      OldQuorumOk(ids, h, g, i, t);
    }
  }

  lemma OldBallotOk(ids: set<NodeId>, h: History, g: History, i: NodeId, w: NodeId, t: nat)
    requires HistoryOk(ids, h) && Grows(h, g) && NewOnlyOf(h, g, i)
    requires (w, t) in h.ballots
    ensures (w, t) in g.ballots && BallotOk(g, w, t)
  {
    assert BallotOk(h, w, t);
    var b := h.ballots[(w, t)];
    RootedGrows(h, g, b.log);
    forall u: nat, k: nat | u < t && Acked(g, w, u, k) ensures Kept(g, b.log, u, k, t + 1) {
      assert Acked(h, w, u, k);
      KeptGrows(h, g, b.log, u, k, t + 1, t + 1);
    }
  }

  lemma OldQuorumOk(ids: set<NodeId>, h: History, g: History, i: NodeId, t: nat)
    requires HistoryOk(ids, h) && Grows(h, g) && NewOnlyOf(h, g, i)
    requires t in h.reigns
    ensures t in g.reigns && QuorumOk(g, t)
  {
    assert QuorumOk(h, t) && ReignGrows(h, g, t);
    forall w | w in g.reigns[t].quorum ensures VoterKept(g, t, w) {
      assert VoterKept(h, t, w);
      var b := h.ballots[(w, t)];
      forall u: nat, k: nat | u < t && Acked(g, w, u, k) ensures Kept(g, b.log, u, k, t) {
        assert Acked(h, w, u, k);
        KeptGrows(h, g, b.log, u, k, t, t);
      }
    }
  }

  // ---- Nodes that take no part in a step

  /** Each new ballot of node i was asked for by a message in the bus, or is for node i itself. */
  ghost predicate BallotsAsked(votes: set<(NodeId, RequestVote)>, h: History, g: History, i: NodeId) {
    forall t {:trigger (i, t) in g.ballots} :: (i, t) in g.ballots && (i, t) !in h.ballots ==>
      AskedFor(votes, i, t, g.ballots[(i, t)])
  }

  ghost predicate AskedFor(votes: set<(NodeId, RequestVote)>, i: NodeId, t: nat, b: Ballot) {
    b.candidate == i || (i, RequestVote(t, b.candidate, b.lastIndex, b.lastTerm)) in votes
  }

  lemma OtherNodeOk(c: Config, votes: set<(NodeId, RequestVote)>, h: History, g: History,
                    i: NodeId, j: NodeId, nd: Node)
    requires HistoryOk(c.Ids(), h) && Grows(h, g) && NewOnlyOf(h, g, i)
    requires BallotsAsked(votes, h, g, i)
    requires j in c.Ids() && j != i && NodeOk(c, votes, h, j, nd)
    ensures NodeOk(c, votes, g, j, nd)
  {
    RootedGrows(h, g, nd.store.log);
    CommittedGrows(c.Ids(), h, g, nd.store.log, nd.commitIndex, nd.currentTerm, nd.currentTerm);
    OtherAckOk(c.Ids(), h, g, i, j, nd);
    if nd.role == Leader {
      assert ReignGrows(h, g, nd.currentTerm);
      forall p | p in c.peers[j] ensures PeerOk(g, nd, p) {
        assert PeerOk(h, nd, p);
      }
    }
    OtherCandidateOk(votes, h, g, i, j, nd);
  }

  lemma OtherAckOk(ids: set<NodeId>, h: History, g: History, i: NodeId, j: NodeId, nd: Node)
    requires HistoryOk(ids, h) && Grows(h, g) && NewOnlyOf(h, g, i)
    requires j != i && AckOk(h, j, nd)
    ensures AckOk(g, j, nd)
  {
    forall t: nat, k: nat | Acked(g, j, t, k)
      ensures t <= nd.currentTerm && Kept(g, nd.store.log, t, k, nd.currentTerm + 1)
    {
      assert Acked(h, j, t, k);
      KeptGrows(h, g, nd.store.log, t, k, nd.currentTerm + 1, nd.currentTerm + 1);
    }
  }

  lemma OtherCandidateOk(votes: set<(NodeId, RequestVote)>, h: History, g: History,
                         i: NodeId, j: NodeId, nd: Node)
    requires Grows(h, g) && NewOnlyOf(h, g, i) && BallotsAsked(votes, h, g, i)
    requires j != i && CandidateOk(votes, h, j, nd)
    ensures CandidateOk(votes, g, j, nd)
  {
    if nd.role == Candidate {
      var t := nd.currentTerm;
      forall w {:trigger (w, t) in g.ballots} | (w, t) in g.ballots && g.ballots[(w, t)].candidate == j
        ensures SameClaim(g.ballots[(w, t)].lastIndex, g.ballots[(w, t)].lastTerm, nd.store.log)
      {
        if (w, t) !in h.ballots {
          assert AskedFor(votes, i, t, g.ballots[(w, t)]);
        }
      }
    }
  }

  lemma OtherTaskOk(c: Config, h: History, g: History, j: NodeId, nd: Node, task: Task)
    requires Grows(h, g) && j in c.Ids() && TaskOk(c, h, j, nd, task)
    ensures TaskOk(c, g, j, nd, task)
  {
    match task
    case Requesting(r, next, votes) => VotersGrow(h, g, j, r.term, c.peers[j][..next]);
    case VoteAnswered(r, next, votes, reply) => VotersGrow(h, g, j, r.term, c.peers[j][..next]);
    case Appending(term, commit, next, m) => AppendOkGrows(c, h, g, c.peers[j][next], m);
    case _ =>
  }

  // ---- One node changes

  /** The invariant survives a change of one server that is in order and adds only its own facts. */
  lemma ChangeServer(c: Config, s: Cluster, h: History, g: History, i: NodeId, server: Server, s': Cluster)
    requires Inv(c, s, h) && i in c.Ids()
    requires s' == s.(servers := s.servers[i := server])
    requires HistoryOk(c.Ids(), g) && Grows(h, g) && NewOnlyOf(h, g, i) && BallotsAsked(s.votes, h, g, i)
    requires NodeOk(c, s.votes, g, i, server.node) && TaskOk(c, g, i, server.node, server.task)
    requires s.servers[i].node.currentTerm <= server.node.currentTerm
    ensures Inv(c, s', g)
  {
    forall j | j in c.Ids() ensures ServerOk(c, s', g, j) {
      if j != i {
        assert ServerOk(c, s, h, j);
        OtherNodeOk(c, s.votes, h, g, i, j, s.servers[j].node);
        OtherTaskOk(c, h, g, j, s.servers[j].node, s.servers[j].task);
      }
    }
    forall p, r | (p, r) in s'.votes ensures VoteSentOk(c, s', p, r) {
      assert VoteSentOk(c, s, p, r);
    }
    ChangedBallotsOk(c, s, h, g, i, s');
    ChangedAppendsOk(c, s, h, g);
  }

  lemma ChangedBallotsOk(c: Config, s: Cluster, h: History, g: History, i: NodeId, s': Cluster)
    requires Inv(c, s, h) && i in c.Ids() && s'.servers.Keys == s.servers.Keys
    requires Grows(h, g) && NewOnlyOf(h, g, i) && BallotsAsked(s.votes, h, g, i)
    requires forall j :: j in s.servers ==> s.servers[j].node.currentTerm <= s'.servers[j].node.currentTerm
    requires NodeOk(c, s.votes, g, i, s'.servers[i].node)
    ensures forall w, t {:trigger BallotCastOk(c, s', g, w, t)} :: (w, t) in g.ballots ==> BallotCastOk(c, s', g, w, t)
  {
    forall w, t | (w, t) in g.ballots ensures BallotCastOk(c, s', g, w, t) {
      if (w, t) in h.ballots {
        assert BallotCastOk(c, s, h, w, t);
      } else {
        var b := g.ballots[(w, t)];
        assert AskedFor(s.votes, i, t, b);
        if b.candidate != i {
          assert VoteSentOk(c, s, i, RequestVote(t, b.candidate, b.lastIndex, b.lastTerm));
        }
      }
    }
  }

  lemma ChangedAppendsOk(c: Config, s: Cluster, h: History, g: History)
    requires Inv(c, s, h) && Grows(h, g)
    ensures forall p, m {:trigger AppendOk(c, g, p, m)} :: (p, m) in s.appends ==> AppendOk(c, g, p, m)
  {
    forall p, m | (p, m) in s.appends ensures AppendOk(c, g, p, m) {
      assert AppendOk(c, h, p, m);
      AppendOkGrows(c, h, g, p, m);
    }
  }

  lemma GrowsRefl(h: History)
    ensures Grows(h, h)
  {
  }

  /** The same when the step leaves the history as it is. */
  lemma ChangeServerOnly(c: Config, s: Cluster, h: History, i: NodeId, server: Server, s': Cluster)
    requires Inv(c, s, h) && i in c.Ids()
    requires s' == s.(servers := s.servers[i := server])
    requires NodeOk(c, s.votes, h, i, server.node) && TaskOk(c, h, i, server.node, server.task)
    requires s.servers[i].node.currentTerm <= server.node.currentTerm
    ensures Inv(c, s', h)
  {
    GrowsRefl(h);
    ChangeServer(c, s, h, h, i, server, s');
  }
}
