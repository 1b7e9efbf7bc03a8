/** The election steps keep the invariant. */
module RaftElection {
  import opened RaftTypes
  import opened RaftRules
  import opened RaftCluster
  import opened RaftHistory
  import opened RaftInvariant

  // ---- Stepping down

  /** Moving to a later term as a follower; `task` is the node's present task, or Idle. */
  lemma StepDownOk(c: Config, s: Cluster, h: History, i: NodeId, term: nat, leaderId: NodeId, task: Task)
    requires Inv(c, s, h) && i in c.Ids()
    requires term > s.servers[i].node.currentTerm
    requires task == s.servers[i].task || task == Idle
    ensures Inv(c, s.SetServer(i, BecomeFollower(s.servers[i].node, term, leaderId), task), h)
  {
    assert ServerOk(c, s, h, i);
    var nd := s.servers[i].node;
    var nd' := BecomeFollower(nd, term, leaderId);
    GrowsRefl(h);
    CommittedGrows(c.Ids(), h, h, nd.store.log, nd.commitIndex, nd.currentTerm, term);
    forall t: nat, k: nat | Acked(h, i, t, k) ensures t <= term && Kept(h, nd'.store.log, t, k, term + 1) {
      KeptGrows(h, h, nd.store.log, t, k, nd.currentTerm + 1, term + 1);
    }
    ChangeServerOnly(c, s, h, i, Server(nd', task), s.SetServer(i, nd', task));
  }

  // ---- Handling a vote request

  /** A voter that has reached the term of the request casts its ballot. */
  lemma CastBallot(c: Config, s: Cluster, h: History, p: NodeId, r: RequestVote) returns (g: History)
    requires c.Valid() && Inv(c, s, h) && (p, r) in s.votes
    requires p in s.servers && r.term == s.servers[p].node.currentTerm
    requires HandleRequestVote(p, s.servers[p].node, r).1.voteGranted
    ensures Inv(c, DeliverVote(s, p, r).0, g) && Grows(h, g)
    ensures (p, r.term) in g.ballots && g.ballots[(p, r.term)].candidate == r.candidateId
  {
    assert VoteSentOk(c, s, p, r) && ServerOk(c, s, h, p);
    var nd, task := s.servers[p].node, s.servers[p].task;
    var nd' := HandleRequestVote(p, nd, r).0;
    var t := nd.currentTerm;
    if (p, t) in h.ballots {
      g := h;
      GrowsRefl(h);
      assert BallotCastOk(c, s, h, p, t);
      assert nd' == nd;
      assert DeliverVote(s, p, r).0.servers == s.servers;
    } else {
      var b := Ballot(r.candidateId, r.lastLogIndex, r.lastLogTerm, nd.store.log);
      g := h.(ballots := h.ballots[(p, t) := b]);
      BallotCounts(s.votes, h, g, p, r, b);
      NewBallotOk(c.Ids(), h, g, p, nd, b);
      SameLogNodeOk(c, s.votes, h, g, p, nd, nd', task);
      ChangeServer(c, s, h, g, p, Server(nd', task), DeliverVote(s, p, r).0);
    }
  }

  lemma BallotCounts(votes: set<(NodeId, RequestVote)>, h: History, g: History, p: NodeId, r: RequestVote, b: Ballot)
    requires (p, r) in votes && (p, r.term) !in h.ballots
    requires b.candidate == r.candidateId && b.lastIndex == r.lastLogIndex && b.lastTerm == r.lastLogTerm
    requires g == h.(ballots := h.ballots[(p, r.term) := b])
    ensures Grows(h, g) && NewOnlyOf(h, g, p) && BallotsAsked(votes, h, g, p)
  {
    assert AskedFor(votes, p, r.term, b) by {
      assert r == RequestVote(r.term, b.candidate, b.lastIndex, b.lastTerm);
    }
  }

  /** The history with one more ballot, cast now by node p, is in order. */
  lemma NewBallotOk(ids: set<NodeId>, h: History, g: History, p: NodeId, nd: Node, b: Ballot)
    requires HistoryOk(ids, h) && LogOk(h, nd) && AckOk(h, p, nd)
    requires (p, nd.currentTerm) !in h.ballots
    requires g == h.(ballots := h.ballots[(p, nd.currentTerm) := b])
    requires Grows(h, g) && NewOnlyOf(h, g, p)
    requires b.log == nd.store.log && UpToDate(b.lastIndex, b.lastTerm, b.log)
    ensures HistoryOk(ids, g)
  {
    var t := nd.currentTerm;
    OldHistoryOk(ids, h, g, p);
    RootedGrows(h, g, b.log);
    assert BallotOk(g, p, t) by {
      forall u: nat, k: nat | u < t && Acked(g, p, u, k) ensures Kept(g, b.log, u, k, t + 1) {
        assert Acked(h, p, u, k);
        KeptGrows(h, g, b.log, u, k, t + 1, t + 1);
      }
    }
    assert forall w, u {:trigger BallotOk(g, w, u)} :: (w, u) in g.ballots ==> BallotOk(g, w, u);
  }

  /** A node that only voted, keeping its term, role, log and commit index, is in order in the new history. */
  lemma SameLogNodeOk(c: Config, votes: set<(NodeId, RequestVote)>, h: History, g: History, p: NodeId,
                      nd: Node, nd': Node, task: Task)
    requires c.Valid() && p in c.Ids() && HistoryOk(c.Ids(), h) && Grows(h, g) && NewOnlyOf(h, g, p)
    requires h.acks == g.acks && h.reigns == g.reigns
    requires (p, nd.currentTerm) in g.ballots
    requires g.ballots == h.ballots[(p, nd.currentTerm) := g.ballots[(p, nd.currentTerm)]]
    requires NodeOk(c, votes, h, p, nd) && TaskOk(c, h, p, nd, task)
    requires nd.role != Candidate
    requires nd' == nd.(votedFor := g.ballots[(p, nd.currentTerm)].candidate).Persist()
    ensures NodeOk(c, votes, g, p, nd') && TaskOk(c, g, p, nd', task)
  {
    RootedGrows(h, g, nd.store.log);
    CommittedGrows(c.Ids(), h, g, nd.store.log, nd.commitIndex, nd.currentTerm, nd.currentTerm);
    forall t: nat, k: nat | Acked(g, p, t, k)
      ensures t <= nd.currentTerm && Kept(g, nd.store.log, t, k, nd.currentTerm + 1)
    {
      assert Acked(h, p, t, k);
      KeptGrows(h, g, nd.store.log, t, k, nd.currentTerm + 1, nd.currentTerm + 1);
    }
    if nd.role == Leader {
      forall q | q in c.peers[p] ensures PeerOk(g, nd', q) {
        assert PeerOk(h, nd, q);
      }
    }
    OtherTaskOk(c, h, g, p, nd, task);
  }

  lemma VoteHandled(c: Config, s: Cluster, h: History, p: NodeId, r: RequestVote) returns (g: History)
    requires c.Valid() && Inv(c, s, h) && (p, r) in s.votes
    ensures p in s.servers && Inv(c, DeliverVote(s, p, r).0, g) && Grows(h, g)
    ensures DeliverVote(s, p, r).1.voteGranted ==>
              (p, r.term) in g.ballots && g.ballots[(p, r.term)].candidate == r.candidateId
  {
    assert VoteSentOk(c, s, p, r);
    var nd := s.servers[p].node;
    GrowsRefl(h);
    if r.term > nd.currentTerm {
      StepDownOk(c, s, h, p, r.term, NOBODY, s.servers[p].task);
      var s1 := s.SetServer(p, BecomeFollower(nd, r.term, NOBODY), s.servers[p].task);
      assert DeliverVote(s1, p, r).0.servers == DeliverVote(s, p, r).0.servers;
      g := VoteHandledInTerm(c, s1, h, p, r);
    } else {
      g := VoteHandledInTerm(c, s, h, p, r);
    }
  }

  lemma VoteHandledInTerm(c: Config, s: Cluster, h: History, p: NodeId, r: RequestVote) returns (g: History)
    requires c.Valid() && Inv(c, s, h) && (p, r) in s.votes
    requires p in s.servers && r.term <= s.servers[p].node.currentTerm
    ensures Inv(c, DeliverVote(s, p, r).0, g) && Grows(h, g)
    ensures DeliverVote(s, p, r).1.voteGranted ==>
              (p, r.term) in g.ballots && g.ballots[(p, r.term)].candidate == r.candidateId
  {
    if HandleRequestVote(p, s.servers[p].node, r).1.voteGranted {
      g := CastBallot(c, s, h, p, r);
    } else {
      g := h;
      GrowsRefl(h);
      assert DeliverVote(s, p, r).0.servers == s.servers;
    }
  }

  // ---- Standing for election

  ghost function OwnBallot(i: NodeId, log: Log): Ballot {
    Ballot(i, LastIndex(log), LastTerm(log), log)
  }

  lemma StartElectionOk(c: Config, s: Cluster, h: History, i: NodeId) returns (g: History)
    requires c.Valid() && Inv(c, s, h) && i in c.Ids() && s.servers[i].node.role != Leader
    ensures Inv(c, s.SetServer(i, BecomeCandidate(i, s.servers[i].node), Campaigning), g) && Grows(h, g)
  {
    var nd := s.servers[i].node;
    var nd' := BecomeCandidate(i, nd);
    g := h.(ballots := h.ballots[(i, nd'.currentTerm) := OwnBallot(i, nd.store.log)]);
    CandidacyGrows(c, s, h, g, i);
    NewCandidateNodeOk(c, s, h, g, i);
    ChangeServer(c, s, h, g, i, Server(nd', Campaigning), s.SetServer(i, nd', Campaigning));
  }

  lemma OwnBallotCounts(votes: set<(NodeId, RequestVote)>, h: History, g: History, i: NodeId, t: nat, b: Ballot)
    requires (i, t) !in h.ballots && b.candidate == i && g == h.(ballots := h.ballots[(i, t) := b])
    ensures Grows(h, g) && NewOnlyOf(h, g, i) && BallotsAsked(votes, h, g, i)
  {
    assert AskedFor(votes, i, t, b);
  }

  lemma CandidacyGrows(c: Config, s: Cluster, h: History, g: History, i: NodeId)
    requires c.Valid() && Inv(c, s, h) && i in c.Ids()
    requires var nd := s.servers[i].node;
             g == h.(ballots := h.ballots[(i, nd.currentTerm + 1) := OwnBallot(i, nd.store.log)])
    ensures (i, s.servers[i].node.currentTerm + 1) !in h.ballots
    ensures Grows(h, g) && NewOnlyOf(h, g, i) && BallotsAsked(s.votes, h, g, i)
    ensures HistoryOk(c.Ids(), g)
  {
    assert ServerOk(c, s, h, i);
    var nd := s.servers[i].node;
    var t, b := nd.currentTerm + 1, OwnBallot(i, nd.store.log);
    OwnBallotCounts(s.votes, h, g, i, t, b);
    RaisedAckOk(c.Ids(), h, i, nd, t);
    NewBallotOk(c.Ids(), h, g, i, nd.(currentTerm := t), b);
  }

  lemma NewCandidateNodeOk(c: Config, s: Cluster, h: History, g: History, i: NodeId)
    requires c.Valid() && Inv(c, s, h) && i in c.Ids() && s.servers[i].node.role != Leader
    requires (i, s.servers[i].node.currentTerm + 1) !in h.ballots
    requires var nd := s.servers[i].node;
             g == h.(ballots := h.ballots[(i, nd.currentTerm + 1) := OwnBallot(i, nd.store.log)])
    requires Grows(h, g)
    ensures NodeOk(c, s.votes, g, i, BecomeCandidate(i, s.servers[i].node))
  {
    assert ServerOk(c, s, h, i);
    var nd := s.servers[i].node;
    var t, log := nd.currentTerm + 1, nd.store.log;
    RootedGrows(h, g, log);
    CommittedGrows(c.Ids(), h, g, log, nd.commitIndex, nd.currentTerm, t);
    forall u: nat, k: nat | Acked(g, i, u, k) ensures u <= t && Kept(g, log, u, k, t + 1) {
      assert Acked(h, i, u, k);
      KeptGrows(h, g, log, u, k, nd.currentTerm + 1, t + 1);
    }
    NewCandidateOk(c, s, h, g, i, nd);
  }

  lemma RaisedAckOk(ids: set<NodeId>, h: History, i: NodeId, nd: Node, t: nat)
    requires HistoryOk(ids, h) && AckOk(h, i, nd) && nd.currentTerm <= t
    ensures AckOk(h, i, nd.(currentTerm := t))
  {
    GrowsRefl(h);
    forall u: nat, k: nat | Acked(h, i, u, k) ensures u <= t && Kept(h, nd.store.log, u, k, t + 1) {
      KeptGrows(h, h, nd.store.log, u, k, nd.currentTerm + 1, t + 1);
    }
  }

  lemma NewCandidateOk(c: Config, s: Cluster, h: History, g: History, i: NodeId, nd: Node)
    requires c.Valid() && Inv(c, s, h) && i in c.Ids() && nd == s.servers[i].node
    requires g == h.(ballots := h.ballots[(i, nd.currentTerm + 1) := OwnBallot(i, nd.store.log)])
    ensures CandidateOk(s.votes, g, i, BecomeCandidate(i, nd))
  {
    assert ServerOk(c, s, h, i);
    forall t | t in h.reigns && h.reigns[t].leader == i ensures t <= nd.currentTerm {
      assert ReignOk(c.Ids(), h, t);
    }
    forall m | m in s.votes && m.1.candidateId == i ensures m.1.term <= nd.currentTerm {
      assert VoteSentOk(c, s, m.0, m.1);
    }
    forall key: (NodeId, nat) | key in h.ballots && h.ballots[key].candidate == i ensures key.1 <= nd.currentTerm {
      assert BallotCastOk(c, s, h, key.0, key.1);
    }
  }

  // ---- Counting votes

  /** A vote more is a voter more. */
  lemma OneMoreVoter(c: Config, h: History, i: NodeId, t: nat, next: nat)
    requires c.Valid() && i in c.Ids() && next < |c.peers[i]|
    requires (c.peers[i][next], t) in h.ballots && h.ballots[(c.peers[i][next], t)].candidate == i
    ensures |Voters(h, i, t, c.peers[i][..next + 1])| == |Voters(h, i, t, c.peers[i][..next])| + 1
  {
    var peers := c.peers[i];
    var p := peers[next];
    assert c.ListsOthers(i);
    assert p !in Voters(h, i, t, peers[..next]);
    assert peers[..next + 1] == peers[..next] + [p];
    assert Voters(h, i, t, peers[..next + 1]) == Voters(h, i, t, peers[..next]) + {p};
  }

  lemma NoFewerVoters(h: History, i: NodeId, t: nat, peers: seq<NodeId>, next: nat)
    requires next < |peers|
    ensures |Voters(h, i, t, peers[..next])| <= |Voters(h, i, t, peers[..next + 1])|
  {
    assert peers[..next + 1] == peers[..next] + [peers[next]];
    SubsetSize(Voters(h, i, t, peers[..next]), Voters(h, i, t, peers[..next + 1]));
  }

  lemma TakeVoteOk(c: Config, s: Cluster, h: History, i: NodeId)
    requires c.Valid() && Inv(c, s, h) && i in c.Ids() && s.servers[i].task.VoteAnswered?
    ensures Inv(c, TakeVoteReply(s, i), h)
  {
    var Server(nd, VoteAnswered(vote, next, votes, reply)) := s.servers[i];
    if reply.term > nd.currentTerm {
      StepDownOk(c, s, h, i, reply.term, NOBODY, Idle);
    } else if nd.role != Candidate {
      SetTaskOk(c, s, h, i, Idle);
    } else {
      VoteCounted(c, s, h, i);
      SetTaskOk(c, s, h, i, Requesting(vote, next + 1, votes + if reply.voteGranted then 1 else 0));
    }
  }

  lemma VoteCounted(c: Config, s: Cluster, h: History, i: NodeId)
    requires c.Valid() && Inv(c, s, h) && i in c.Ids() && s.servers[i].task.VoteAnswered?
    ensures var Server(nd, VoteAnswered(vote, next, votes, reply)) := s.servers[i];
            VotingOk(c, h, i, nd, vote, next + 1, votes + if reply.voteGranted then 1 else 0)
  {
    assert ServerOk(c, s, h, i);
    var Server(nd, VoteAnswered(vote, next, votes, reply)) := s.servers[i];
    if reply.voteGranted {
      OneMoreVoter(c, h, i, vote.term, next);
    }
    NoFewerVoters(h, i, vote.term, c.peers[i], next);
  }

  lemma SetTaskOk(c: Config, s: Cluster, h: History, i: NodeId, task: Task)
    requires Inv(c, s, h) && i in c.Ids()
    requires TaskOk(c, h, i, s.servers[i].node, task)
    ensures Inv(c, s.SetTask(i, task), h)
  {
    assert ServerOk(c, s, h, i);
    ChangeServerOnly(c, s, h, i, s.servers[i].(task := task), s.SetTask(i, task));
  }

  // ---- Winning

  lemma PeersCount(c: Config, i: NodeId)
    requires c.Valid() && i in c.Ids()
    ensures |c.peers[i]| + 1 == |c.Ids()|
  {
    var peers := c.peers[i];
    assert c.ListsOthers(i);
    DistinctCount(peers);
    assert c.Ids() == (set p | p in peers) + {i};
  }

  lemma {:induction false} DistinctCount(ps: seq<NodeId>)
    requires forall a, b :: 0 <= a < b < |ps| ==> ps[a] != ps[b]
    ensures |set p | p in ps| == |ps|
  {
    if ps == [] {
      assert (set p | p in ps) == {};
    } else {
      DistinctCount(ps[1..]);
      assert ps[0] !in ps[1..];
      assert ps == [ps[0]] + ps[1..];
      assert (set p | p in ps) == {ps[0]} + set p | p in ps[1..];
    }
  }

  lemma HalfOfEven(n: nat, votes: nat)
    requires (n + 1) % 2 == 1 && votes >= n / 2 + 1
    ensures 2 * votes > n + 1
  {
  }

  /** A majority whose ballots in term t are all for node i. */
  ghost predicate Elects(ids: set<NodeId>, h: History, i: NodeId, t: nat, quorum: set<NodeId>) {
    && Majority(ids, quorum)
    && forall w {:trigger (w, t) in h.ballots} :: w in quorum ==>
         (w, t) in h.ballots && h.ballots[(w, t)].candidate == i
  }

  /** With an odd number of nodes, enough votes are the votes of a majority. */
  lemma VotersAreMajority(c: Config, h: History, i: NodeId, t: nat, votes: nat)
    requires c.Valid() && i in c.Ids() && |c.Ids()| % 2 == 1
    requires VotesNeeded(c.peers[i]) <= votes <= |Voters(h, i, t, c.peers[i])|
    ensures Majority(c.Ids(), Voters(h, i, t, c.peers[i]))
  {
    PeersCount(c, i);
    HalfOfEven(|c.peers[i]|, votes);
    VotersAreNodes(c, h, i, t);
  }

  lemma VotersAreNodes(c: Config, h: History, i: NodeId, t: nat)
    requires c.Valid() && i in c.Ids()
    ensures Voters(h, i, t, c.peers[i]) <= c.Ids()
  {
    assert c.ListsOthers(i);
  }

  lemma CloseElectionOk(c: Config, s: Cluster, h: History, i: NodeId) returns (g: History)
    requires c.Valid() && |c.Ids()| % 2 == 1 && Inv(c, s, h) && i in c.Ids()
    requires s.servers[i].task.Requesting? && s.servers[i].task.next == |c.peers[i]|
    ensures var Server(nd, task) := s.servers[i];
            var wins := nd.role == Candidate && task.votes >= VotesNeeded(c.peers[i]);
            Inv(c, s.SetServer(i, if wins then BecomeLeader(i, c.peers[i], nd) else nd, Idle), g)
    ensures Grows(h, g)
  {
    var Server(nd, Requesting(vote, next, votes)) := s.servers[i];
    if nd.role == Candidate && votes >= VotesNeeded(c.peers[i]) {
      var quorum := EnoughVotes(c, s, h, i);
      g := WinOk(c, s, h, i, quorum);
    } else {
      g := h;
      GrowsRefl(h);
      SetTaskOk(c, s, h, i, Idle);
    }
  }

  lemma EnoughVotes(c: Config, s: Cluster, h: History, i: NodeId) returns (quorum: set<NodeId>)
    requires c.Valid() && |c.Ids()| % 2 == 1 && Inv(c, s, h) && i in c.Ids()
    requires s.servers[i].task.Requesting? && s.servers[i].task.next == |c.peers[i]|
    requires s.servers[i].node.role == Candidate && s.servers[i].task.votes >= VotesNeeded(c.peers[i])
    ensures Elects(c.Ids(), h, i, s.servers[i].node.currentTerm, quorum)
  {
    assert ServerOk(c, s, h, i);
    var Server(nd, Requesting(vote, next, votes)) := s.servers[i];
    assert c.peers[i][..next] == c.peers[i];
    VotersAreMajority(c, h, i, vote.term, votes);
    quorum := Voters(h, i, nd.currentTerm, c.peers[i]);
  }

  ghost function Crowned(h: History, i: NodeId, nd: Node, quorum: set<NodeId>): History {
    h.(reigns := h.reigns[nd.currentTerm := Reign(i, nd.store.log, quorum, nd.store.log)],
       acks := h.acks[(i, nd.currentTerm) := LastIndex(nd.store.log)])
  }

  lemma WinOk(c: Config, s: Cluster, h: History, i: NodeId, quorum: set<NodeId>) returns (g: History)
    requires c.Valid() && Inv(c, s, h) && i in c.Ids()
    requires s.servers[i].node.role == Candidate
    requires Elects(c.Ids(), h, i, s.servers[i].node.currentTerm, quorum)
    ensures Inv(c, s.SetServer(i, BecomeLeader(i, c.peers[i], s.servers[i].node), Idle), g)
    ensures Grows(h, g)
  {
    var nd := s.servers[i].node;
    var nd' := BecomeLeader(i, c.peers[i], nd);
    NoOtherLeader(c, s, h, i, quorum);
    g := Crowned(h, i, nd, quorum);
    CrownedGrows(c, s, h, i, quorum);
    CrownedOk(c, s, h, i, quorum);
    NewLeaderNodeOk(c, s, h, i, quorum);
    ChangeServer(c, s, h, g, i, Server(nd', Idle), s.SetServer(i, nd', Idle));
  }

  lemma NewLeaderNodeOk(c: Config, s: Cluster, h: History, i: NodeId, quorum: set<NodeId>)
    requires c.Valid() && Inv(c, s, h) && i in c.Ids()
    requires s.servers[i].node.currentTerm !in h.reigns && (i, s.servers[i].node.currentTerm) !in h.acks
    requires Grows(h, Crowned(h, i, s.servers[i].node, quorum))
    ensures NodeOk(c, s.votes, Crowned(h, i, s.servers[i].node, quorum), i,
                   BecomeLeader(i, c.peers[i], s.servers[i].node))
  {
    assert ServerOk(c, s, h, i);
    var nd := s.servers[i].node;
    var nd' := BecomeLeader(i, c.peers[i], nd);
    var t, log := nd.currentTerm, nd.store.log;
    var g := Crowned(h, i, nd, quorum);
    assert LogOk(g, nd') by { RootedGrows(h, g, log); }
    assert CommitOk(c.Ids(), g, nd') by { CommittedGrows(c.Ids(), h, g, log, nd.commitIndex, t, t); }
    assert AckOk(g, i, nd') by { NewLeaderAckOk(c.Ids(), h, g, i, nd, nd'); }
    assert LeaderOk(c, g, i, nd') by { NewLeaderOk(c, g, i, nd); }
  }

  lemma NewLeaderAckOk(ids: set<NodeId>, h: History, g: History, i: NodeId, nd: Node, nd': Node)
    requires HistoryOk(ids, h) && Grows(h, g) && AckOk(h, i, nd)
    requires nd'.currentTerm == nd.currentTerm && nd'.store == nd.store
    requires nd.currentTerm in g.reigns && g.reigns[nd.currentTerm].log == nd.store.log
    requires g.acks == h.acks[(i, nd.currentTerm) := LastIndex(nd.store.log)]
    ensures AckOk(g, i, nd')
  {
    var t, log := nd.currentTerm, nd.store.log;
    forall u: nat, k: nat | Acked(g, i, u, k) ensures u <= t && Kept(g, log, u, k, t + 1) {
      if u != t {
        assert Acked(h, i, u, k);
        KeptGrows(h, g, log, u, k, t + 1, t + 1);
      }
    }
  }

  lemma NewLeaderOk(c: Config, g: History, i: NodeId, nd: Node)
    requires i in c.Ids() && nd.currentTerm in g.reigns
    requires g.reigns[nd.currentTerm].leader == i && g.reigns[nd.currentTerm].log == nd.store.log
    requires Acked(g, i, nd.currentTerm, LastIndex(nd.store.log))
    ensures LeaderOk(c, g, i, BecomeLeader(i, c.peers[i], nd))
  {
  }

  /** Two majorities share a voter, and a voter has one ballot in a term. */
  lemma ElectedIsLeader(ids: set<NodeId>, h: History, t: nat, i: NodeId, quorum: set<NodeId>)
    requires HistoryOk(ids, h) && t in h.reigns && Elects(ids, h, i, t, quorum)
    ensures h.reigns[t].leader == i
  {
    assert ReignOk(ids, h, t);
    var w := QuorumsMeet(ids, quorum, h.reigns[t].quorum);
    assert ElectedBy(h, t, w);
  }

  lemma NoOtherLeader(c: Config, s: Cluster, h: History, i: NodeId, quorum: set<NodeId>)
    requires c.Valid() && Inv(c, s, h) && i in c.Ids()
    requires s.servers[i].node.role == Candidate
    requires Elects(c.Ids(), h, i, s.servers[i].node.currentTerm, quorum)
    ensures s.servers[i].node.currentTerm !in h.reigns
  {
    assert ServerOk(c, s, h, i);
    if s.servers[i].node.currentTerm in h.reigns {
      ElectedIsLeader(c.Ids(), h, s.servers[i].node.currentTerm, i, quorum);
    }
  }

  lemma CrownedGrows(c: Config, s: Cluster, h: History, i: NodeId, quorum: set<NodeId>)
    requires Inv(c, s, h) && i in c.Ids() && s.servers[i].node.currentTerm !in h.reigns
    ensures (i, s.servers[i].node.currentTerm) !in h.acks
    ensures var g := Crowned(h, i, s.servers[i].node, quorum);
            Grows(h, g) && NewOnlyOf(h, g, i) && BallotsAsked(s.votes, h, g, i)
  {
    assert ServerOk(c, s, h, i);
    var g := Crowned(h, i, s.servers[i].node, quorum);
    forall u: nat, k: nat, t: nat {:trigger Acked(g, i, u, k), (i, t) in g.ballots}
      | Acked(g, i, u, k) && (i, t) in g.ballots && u < t
      ensures Acked(h, i, u, k)
    {
      assert (i, t) in h.ballots;
    }
  }

  lemma CrownedOk(c: Config, s: Cluster, h: History, i: NodeId, quorum: set<NodeId>)
    requires c.Valid() && Inv(c, s, h) && i in c.Ids()
    requires s.servers[i].node.role == Candidate && s.servers[i].node.currentTerm !in h.reigns
    requires Elects(c.Ids(), h, i, s.servers[i].node.currentTerm, quorum)
    ensures HistoryOk(c.Ids(), Crowned(h, i, s.servers[i].node, quorum))
  {
    var nd := s.servers[i].node;
    var t := nd.currentTerm;
    var g := Crowned(h, i, nd, quorum);
    CrownedGrows(c, s, h, i, quorum);
    OldHistoryOk(c.Ids(), h, g, i);
    NewReignOk(c, s, h, i, quorum);
    assert QuorumOk(g, t) by {
      forall w | w in quorum ensures VoterKept(g, t, w) {
        assert ElectedBy(g, t, w);
        NewVoterKept(c.Ids(), h, g, t, w);
      }
    }
    assert forall v {:trigger ReignOk(c.Ids(), g, v)} :: v in g.reigns ==> ReignOk(c.Ids(), g, v);
    assert forall v {:trigger QuorumOk(g, v)} :: v in g.reigns ==> QuorumOk(g, v);
  }

  lemma NewReignOk(c: Config, s: Cluster, h: History, i: NodeId, quorum: set<NodeId>)
    requires c.Valid() && Inv(c, s, h) && i in c.Ids()
    requires s.servers[i].node.role == Candidate && s.servers[i].node.currentTerm !in h.reigns
    requires Elects(c.Ids(), h, i, s.servers[i].node.currentTerm, quorum)
    requires Grows(h, Crowned(h, i, s.servers[i].node, quorum))
    ensures ReignOk(c.Ids(), Crowned(h, i, s.servers[i].node, quorum), s.servers[i].node.currentTerm)
  {
    assert ServerOk(c, s, h, i);
    var nd := s.servers[i].node;
    var t, log := nd.currentTerm, nd.store.log;
    var g := Crowned(h, i, nd, quorum);
    RootedGrows(h, g, log);
    assert forall k :: 0 <= k < |log| ==> log[k].term != t;
    NewElectedBy(c, s, h, i, quorum);
  }

  lemma NewElectedBy(c: Config, s: Cluster, h: History, i: NodeId, quorum: set<NodeId>)
    requires Inv(c, s, h) && i in c.Ids() && s.servers[i].node.role == Candidate
    requires Elects(c.Ids(), h, i, s.servers[i].node.currentTerm, quorum)
    ensures var t := s.servers[i].node.currentTerm;
            var g := Crowned(h, i, s.servers[i].node, quorum);
            forall w {:trigger ElectedBy(g, t, w)} :: w in quorum ==> ElectedBy(g, t, w)
  {
    assert ServerOk(c, s, h, i);
  }

  lemma NewVoterKept(ids: set<NodeId>, h: History, g: History, t: nat, w: NodeId)
    requires HistoryOk(ids, h) && Grows(h, g) && t !in h.reigns
    requires (w, t) in h.ballots
    requires forall u: nat, k: nat {:trigger Acked(g, w, u, k)} :: u < t && Acked(g, w, u, k) ==> Acked(h, w, u, k)
    ensures VoterKept(g, t, w)
  {
    assert BallotOk(h, w, t);
    var l := h.ballots[(w, t)].log;
    forall u: nat, k: nat | u < t && Acked(g, w, u, k) ensures Kept(g, l, u, k, t) {
      assert Acked(h, w, u, k) && Kept(h, l, u, k, t + 1);
      if Broken(h, u, k, t + 1) {
        var v :| u < v < t + 1 && v in h.reigns && !Agree(h.reigns[v].start, h.reigns[u].log, k);
        assert Broken(h, u, k, t);
      }
      KeptGrows(h, g, l, u, k, t, t);
    }
  }
}
