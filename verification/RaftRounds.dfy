/** The leader's steps, the bus and restarts keep the invariant; so every step of the cluster does. */
module RaftRounds {
  import opened RaftTypes
  import opened RaftRules
  import opened RaftCluster
  import opened RaftHistory
  import opened RaftInvariant
  import opened RaftElection
  import opened RaftReplication

  // ---- Sending

  lemma SendVoteOk(c: Config, s: Cluster, h: History, i: NodeId, p: NodeId, r: RequestVote)
    requires c.Valid() && Inv(c, s, h) && i in c.Ids() && p in c.peers[i]
    requires exists next, votes :: VotingOk(c, h, i, s.servers[i].node, r, next, votes)
    ensures Inv(c, s.(votes := s.votes + {(p, r)}), h)
  {
    var s' := s.(votes := s.votes + {(p, r)});
    assert c.ListsOthers(i);
    forall j | j in c.Ids() ensures ServerOk(c, s', h, j) {
      assert ServerOk(c, s, h, j);
    }
    forall q, v | (q, v) in s'.votes ensures VoteSentOk(c, s', q, v) {
      if (q, v) in s.votes { assert VoteSentOk(c, s, q, v); }
    }
    forall w, t | (w, t) in h.ballots ensures BallotCastOk(c, s', h, w, t) {
      assert BallotCastOk(c, s, h, w, t);
    }
  }

  lemma SendAppendOk(c: Config, s: Cluster, h: History, p: NodeId, m: AppendEntries)
    requires Inv(c, s, h) && AppendOk(c, h, p, m)
    ensures Inv(c, s.(appends := s.appends + {(p, m)}), h)
  {
    var s' := s.(appends := s.appends + {(p, m)});
    SameServersOk(c, s, h, s');
  }

  /** The invariant does not look at who is offline, and looks at appends only one by one. */
  lemma SameServersOk(c: Config, s: Cluster, h: History, s': Cluster)
    requires Inv(c, s, h) && s'.servers == s.servers && s'.votes == s.votes
    requires forall p, m {:trigger AppendOk(c, h, p, m)} :: (p, m) in s'.appends ==> AppendOk(c, h, p, m)
    ensures Inv(c, s', h)
  {
    forall j | j in c.Ids() ensures ServerOk(c, s', h, j) {
      assert ServerOk(c, s, h, j);
    }
    forall q, v | (q, v) in s'.votes ensures VoteSentOk(c, s', q, v) {
      assert VoteSentOk(c, s, q, v);
    }
    forall w, t | (w, t) in h.ballots ensures BallotCastOk(c, s', h, w, t) {
      assert BallotCastOk(c, s, h, w, t);
    }
  }

  // ---- Vote calls

  lemma CallVoteOk(c: Config, s: Cluster, h: History, i: NodeId) returns (g: History)
    requires c.Valid() && Inv(c, s, h) && Enabled(c, s, CallVote(i))
    ensures Inv(c, Step(c, s, CallVote(i)), g) && Grows(h, g)
  {
    var Server(nd, Requesting(vote, next, votes)) := s.servers[i];
    var p := c.peers[i][next];
    assert ServerOk(c, s, h, i) && c.ListsOthers(i);
    assert VotingOk(c, h, i, nd, vote, next, votes);
    SendVoteOk(c, s, h, i, p, vote);
    var s1 := s.(votes := s.votes + {(p, vote)});
    g := VoteHandled(c, s1, h, p, vote);
    var (s2, reply) := DeliverVote(s1, p, vote);
    OtherTaskOk(c, h, g, i, nd, s.servers[i].task);
    assert s2.servers[i] == s.servers[i];
    SetTaskOk(c, s2, g, i, VoteAnswered(vote, next, votes, reply));
  }

  lemma MissVoteOk(c: Config, s: Cluster, h: History, i: NodeId)
    requires c.Valid() && Inv(c, s, h) && Enabled(c, s, MissVote(i))
    ensures Inv(c, Step(c, s, MissVote(i)), h)
  {
    var Server(nd, Requesting(vote, next, votes)) := s.servers[i];
    var p := c.peers[i][next];
    assert ServerOk(c, s, h, i);
    assert VotingOk(c, h, i, nd, vote, next, votes);
    SendVoteOk(c, s, h, i, p, vote);
    NoFewerVoters(h, i, vote.term, c.peers[i], next);
    SetTaskOk(c, s.(votes := s.votes + {(p, vote)}), h, i, Requesting(vote, next + 1, votes));
  }

  lemma ReadBallotOk(c: Config, s: Cluster, h: History, i: NodeId)
    requires c.Valid() && Inv(c, s, h) && Enabled(c, s, ReadBallot(i))
    ensures Inv(c, Step(c, s, ReadBallot(i)), h)
  {
    assert ServerOk(c, s, h, i);
    var nd := s.servers[i].node;
    var v := Voters(h, i, nd.currentTerm, c.peers[i][..0]);
    SubsetSize({i}, v);
    SetTaskOk(c, s, h, i, Requesting(Candidacy(i, nd), 0, 1));
  }

  // ---- Rounds of heartbeats

  lemma StartRoundOk(c: Config, s: Cluster, h: History, i: NodeId)
    requires Inv(c, s, h) && Enabled(c, s, StartRound(i))
    ensures Inv(c, Step(c, s, StartRound(i)), h)
  {
    var nd := s.servers[i].node;
    SetTaskOk(c, s, h, i, Beating(nd.currentTerm, nd.commitIndex, 0));
  }

  /** What a leader sends is in order: it reaches to the end of its log, hence past its commit index. */
  lemma HeartbeatOk(c: Config, h: History, i: NodeId, nd: Node, p: NodeId, commit: nat)
    requires c.Valid() && HistoryOk(c.Ids(), h) && i in c.Ids() && p in c.peers[i]
    requires nd.role == Leader && LeaderOk(c, h, i, nd) && CommitOk(c.Ids(), h, nd) && commit <= nd.commitIndex
    ensures AppendOk(c, h, p, Heartbeat(i, nd, p, nd.currentTerm, commit))
  {
    assert c.ListsOthers(i);
    assert PeerOk(h, nd, p);
    var m := Heartbeat(i, nd, p, nd.currentTerm, commit);
    assert Carries(nd.store.log, m);
    CommittedPrefix(c.Ids(), h, nd.store.log, nd.commitIndex, nd.store.log, commit, nd.currentTerm);
  }

  lemma BuildAppendOk(c: Config, s: Cluster, h: History, i: NodeId)
    requires c.Valid() && Inv(c, s, h) && Enabled(c, s, BuildAppend(i))
    ensures Inv(c, Step(c, s, BuildAppend(i)), h)
  {
    assert ServerOk(c, s, h, i);
    var Server(nd, Beating(term, commit, next)) := s.servers[i];
    var p := c.peers[i][next];
    if nd.role == Leader {
      HeartbeatOk(c, h, i, nd, p, commit);
      SetTaskOk(c, s, h, i, Appending(term, commit, next, Heartbeat(i, nd, p, term, commit)));
    } else {
      SetTaskOk(c, s, h, i, Idle);
    }
  }

  lemma CallAppendOk(c: Config, s: Cluster, h: History, i: NodeId) returns (g: History)
    requires c.Valid() && Inv(c, s, h) && Enabled(c, s, CallAppend(i))
    ensures Inv(c, Step(c, s, CallAppend(i)), g) && Grows(h, g)
  {
    var Server(nd, Appending(term, commit, next, m)) := s.servers[i];
    var p := c.peers[i][next];
    assert ServerOk(c, s, h, i) && c.ListsOthers(i);
    SendAppendOk(c, s, h, p, m);
    var s1 := s.(appends := s.appends + {(p, m)});
    g := AppendHandled(c, s1, h, p, m);
    var (s2, reply) := DeliverAppend(s1, p, m);
    OtherTaskOk(c, h, g, i, nd, s.servers[i].task);
    assert s2.servers[i] == s.servers[i];
    SetTaskOk(c, s2, g, i, AppendAnswered(term, commit, next, m, reply));
  }

  lemma MissAppendOk(c: Config, s: Cluster, h: History, i: NodeId)
    requires Inv(c, s, h) && i in c.Ids() && s.servers[i].task.Appending? && s.servers[i].task.next < |c.peers[i]|
    ensures var task := s.servers[i].task;
            Inv(c, s.(appends := s.appends + {(c.peers[i][task.next], task.append)})
                    .SetTask(i, Beating(task.term, task.commit, task.next + 1)), h)
  {
    var Server(nd, Appending(term, commit, next, m)) := s.servers[i];
    var p := c.peers[i][next];
    assert AppendOk(c, h, p, m) && RoundOk(c, i, nd, term, commit, next + 1) by { assert ServerOk(c, s, h, i); }
    SendAppendOk(c, s, h, p, m);
    SetTaskOk(c, s.(appends := s.appends + {(p, m)}), h, i, Beating(term, commit, next + 1));
  }

  // ---- Counting copies

  lemma {:induction false} CopiesCount(matchIndex: map<NodeId, nat>, peers: seq<NodeId>, n: nat)
    requires forall a, b :: 0 <= a < b < |peers| ==> peers[a] != peers[b]
    ensures Copies(matchIndex, peers, n) == |set p | p in peers && p in matchIndex && matchIndex[p] >= n|
  {
    var held := set p | p in peers && p in matchIndex && matchIndex[p] >= n;
    if peers == [] {
      assert held == {};
    } else {
      var rest := peers[1..];
      CopiesCount(matchIndex, rest, n);
      var restHeld := set p | p in rest && p in matchIndex && matchIndex[p] >= n;
      assert peers == [peers[0]] + rest && peers[0] !in rest;
      assert held == restHeld + if peers[0] in matchIndex && matchIndex[peers[0]] >= n then {peers[0]} else {};
    }
  }

  /** An index that passes the leader's commit test is chosen. */
  lemma CommitsChosen(c: Config, h: History, i: NodeId, nd: Node, n: nat)
    requires c.Valid() && i in c.Ids() && nd.role == Leader && LeaderOk(c, h, i, nd)
    requires n > 0 && Commits(nd, c.peers[i], n)
    ensures Chosen(c.Ids(), h, nd.currentTerm, n)
  {
    var peers := c.peers[i];
    assert c.ListsOthers(i);
    CopiesCount(nd.matchIndex, peers, n);
    PeersCount(c, i);
    var held := set p | p in peers && p in nd.matchIndex && nd.matchIndex[p] >= n;
    var q := held + {i};
    assert Majority(c.Ids(), q);
    assert AllAcked(h, q, nd.currentTerm, n) by {
      forall w | w in q ensures Acked(h, w, nd.currentTerm, n) {
        if w != i { assert PeerOk(h, nd, w); }
      }
    }
  }

  /** The search returns the highest index that passes the test, or the old commit index. */
  lemma {:induction false} NewCommitFinds(nd: Node, peers: seq<NodeId>, n: nat)
    ensures var r := NewCommit(nd, peers, n);
            r == nd.commitIndex || (nd.commitIndex < r <= n && Commits(nd, peers, r))
    ensures forall k :: NewCommit(nd, peers, n) < k <= n && nd.commitIndex < k ==> !Commits(nd, peers, k)
    decreases n
  {
    if n > nd.commitIndex && !Commits(nd, peers, n) {
      NewCommitFinds(nd, peers, n - 1);
    }
  }

  lemma AdvanceOk(c: Config, h: History, i: NodeId, nd: Node)
    requires c.Valid() && i in c.Ids() && nd.role == Leader
    requires LeaderOk(c, h, i, nd) && CommitOk(c.Ids(), h, nd)
    ensures CommitOk(c.Ids(), h, AdvanceCommitIndex(nd, c.peers[i]))
    ensures LeaderOk(c, h, i, AdvanceCommitIndex(nd, c.peers[i]))
  {
    var n := NewCommit(nd, c.peers[i], |nd.store.log| - 1);
    var nd' := AdvanceCommitIndex(nd, c.peers[i]);
    NewCommitFinds(nd, c.peers[i], |nd.store.log| - 1);
    forall p | p in c.peers[i] ensures PeerOk(h, nd', p) { assert PeerOk(h, nd, p); }
    if n != nd.commitIndex {
      CommitsChosen(c, h, i, nd, n);
      assert CommittedBy(c.Ids(), h, nd.store.log, n, nd.currentTerm, nd.currentTerm, n);
    }
  }

  // ---- Replies to appends

  /** Index bookkeeping for one peer. */
  function NotePeer(nd: Node, peer: NodeId, next: nat, match_: nat): Node {
    nd.(nextIndex := nd.nextIndex[peer := next], matchIndex := nd.matchIndex[peer := match_])
  }

  lemma NotePeerOk(c: Config, h: History, i: NodeId, nd: Node, peer: NodeId, next: nat, match_: nat)
    requires i in c.Ids() && nd.role == Leader && LeaderOk(c, h, i, nd)
    requires 1 <= next <= |nd.store.log| && (match_ > 0 ==> Acked(h, peer, nd.currentTerm, match_))
    ensures LeaderOk(c, h, i, NotePeer(nd, peer, next, match_))
  {
    var nd' := NotePeer(nd, peer, next, match_);
    forall p | p in c.peers[i] ensures PeerOk(h, nd', p) {
      if p != peer { assert PeerOk(h, nd, p); }
    }
  }

  /** A leader that learns of a peer's progress, or lack of it, stays in order. */
  lemma ReplyTakenOk(c: Config, h: History, i: NodeId, nd: Node, peer: NodeId, reply: AppendReply)
    requires c.Valid() && HistoryOk(c.Ids(), h) && i in c.Ids() && peer in c.peers[i]
    requires nd.role == Leader && reply.term <= nd.currentTerm
    requires LeaderOk(c, h, i, nd) && CommitOk(c.Ids(), h, nd)
    requires reply.success ==> Acked(h, peer, nd.currentTerm, reply.matchIndex)
    ensures var nd' := TakeAppendReply(nd, c.peers[i], peer, reply);
            LeaderOk(c, h, i, nd') && CommitOk(c.Ids(), h, nd')
    ensures var nd' := TakeAppendReply(nd, c.peers[i], peer, reply);
            nd.commitIndex <= nd'.commitIndex &&
            nd' == nd.(nextIndex := nd'.nextIndex, matchIndex := nd'.matchIndex, commitIndex := nd'.commitIndex)
  {
    if reply.success {
      var nd1 := NotePeer(nd, peer, reply.matchIndex + 1, reply.matchIndex);
      NotePeerOk(c, h, i, nd, peer, reply.matchIndex + 1, reply.matchIndex);
      AdvanceOk(c, h, i, nd1);
      NewCommitFinds(nd1, c.peers[i], |nd.store.log| - 1);
    } else {
      assert PeerOk(h, nd, peer);
      var next := nd.nextIndex[peer];
      NotePeerOk(c, h, i, nd, peer, if next > 1 then next - 1 else next, nd.matchIndex[peer]);
      assert nd.matchIndex[peer := nd.matchIndex[peer]] == nd.matchIndex;
    }
  }

  lemma TakeAppendOk(c: Config, s: Cluster, h: History, i: NodeId)
    requires c.Valid() && Inv(c, s, h) && i in c.Ids()
    requires s.servers[i].task.AppendAnswered? && s.servers[i].task.next < |c.peers[i]|
    ensures Inv(c, TakeAppendAnswer(c, s, i), h)
  {
    var Server(nd, task) := s.servers[i];
    if task.appendReply.term > nd.currentTerm {
      StepDownOk(c, s, h, i, task.appendReply.term, NOBODY, Idle);
    } else if nd.role != Leader {
      SetTaskOk(c, s, h, i, Idle);
    } else {
      var nd' := TakeAppendReply(nd, c.peers[i], c.peers[i][task.next], task.appendReply);
      LeaderTakesOk(c, s, h, i, nd, task, nd');
    }
  }

  lemma LeaderTakesOk(c: Config, s: Cluster, h: History, i: NodeId, nd: Node, task: Task, nd': Node)
    requires c.Valid() && Inv(c, s, h) && i in c.Ids() && s.servers[i] == Server(nd, task)
    requires task.AppendAnswered? && task.next < |c.peers[i]|
    requires nd.role == Leader && task.appendReply.term <= nd.currentTerm
    requires nd' == TakeAppendReply(nd, c.peers[i], c.peers[i][task.next], task.appendReply)
    ensures Inv(c, s.SetServer(i, nd', Beating(task.term, task.commit, task.next + 1)), h)
  {
    LeaderAnswered(c, s, h, i);
    ReplyTakenOk(c, h, i, nd, c.peers[i][task.next], task.appendReply);
    LeaderMovedOk(c, s, h, i, nd', Beating(task.term, task.commit, task.next + 1));
  }

  lemma LeaderAnswered(c: Config, s: Cluster, h: History, i: NodeId)
    requires Inv(c, s, h) && i in c.Ids() && s.servers[i].node.role == Leader
    requires s.servers[i].task.AppendAnswered? && s.servers[i].task.next < |c.peers[i]|
    ensures var Server(nd, task) := s.servers[i];
            && LeaderOk(c, h, i, nd) && CommitOk(c.Ids(), h, nd)
            && RoundOk(c, i, nd, task.term, task.commit, task.next + 1)
            && (task.appendReply.success ==>
                  Acked(h, c.peers[i][task.next], nd.currentTerm, task.appendReply.matchIndex))
  {
    assert ServerOk(c, s, h, i);
  }

  /** A leader changes only its bookkeeping. */
  lemma LeaderMovedOk(c: Config, s: Cluster, h: History, i: NodeId, nd': Node, task: Task)
    requires Inv(c, s, h) && i in c.Ids() && s.servers[i].node.role == Leader
    requires var nd := s.servers[i].node;
             nd' == nd.(nextIndex := nd'.nextIndex, matchIndex := nd'.matchIndex, commitIndex := nd'.commitIndex)
    requires LeaderOk(c, h, i, nd') && CommitOk(c.Ids(), h, nd') && TaskOk(c, h, i, nd', task)
    ensures Inv(c, s.SetServer(i, nd', task), h)
  {
    assert ServerOk(c, s, h, i);
    ChangeServerOnly(c, s, h, i, Server(nd', task), s.SetServer(i, nd', task));
  }

  // ---- Clients, restarts, the bus

  ghost function Extended(h: History, nd: Node, log: Log): History
    requires nd.currentTerm in h.reigns
  {
    var t := nd.currentTerm;
    h.(reigns := h.reigns[t := h.reigns[t].(log := log)],
       acks := h.acks[(h.reigns[t].leader, t) := LastIndex(log)])
  }

  /** A leader's log, and with it the history, grows by the submitted command. */
  lemma ExtendedOk(c: Config, s: Cluster, h: History, i: NodeId, log: Log)
    requires Inv(c, s, h) && i in c.Ids() && s.servers[i].node.role == Leader
    requires var nd := s.servers[i].node;
             log == nd.store.log + [LogEntry(nd.currentTerm, |nd.store.log|, log[|log| - 1].command)]
    ensures var nd := s.servers[i].node;
            nd.currentTerm in h.reigns && h.reigns[nd.currentTerm].leader == i &&
            var g := Extended(h, nd, log);
            Grows(h, g) && NewOnlyOf(h, g, i) && BallotsAsked(s.votes, h, g, i) && HistoryOk(c.Ids(), g)
  {
    var nd := s.servers[i].node;
    var t := nd.currentTerm;
    assert VoteOk(h, i, nd) && LeaderOk(c, h, i, nd) by { assert ServerOk(c, s, h, i); }
    var g := Extended(h, nd, log);
    ExtendedGrows(h, g, i, nd, log);
    OldHistoryOk(c.Ids(), h, g, i);
    ExtendedReignOk(c.Ids(), h, g, t, log);
    assert forall v {:trigger ReignOk(c.Ids(), g, v)} :: v in g.reigns ==> ReignOk(c.Ids(), g, v);
  }

  lemma ExtendedGrows(h: History, g: History, i: NodeId, nd: Node, log: Log)
    requires nd.currentTerm in h.reigns && h.reigns[nd.currentTerm].leader == i
    requires h.reigns[nd.currentTerm].log == nd.store.log && Acked(h, i, nd.currentTerm, LastIndex(nd.store.log))
    requires h.acks[(i, nd.currentTerm)] < |nd.store.log| < |log| && nd.store.log == log[..|nd.store.log|]
    requires g == Extended(h, nd, log) && VoteOk(h, i, nd)
    ensures Grows(h, g) && NewOnlyOf(h, g, i)
  {
    var t := nd.currentTerm;
    assert ReignGrows(h, g, t);
    forall u: nat, k: nat, v: nat {:trigger Acked(g, i, u, k), (i, v) in g.ballots}
      | Acked(g, i, u, k) && (i, v) in g.ballots && u < v
      ensures Acked(h, i, u, k)
    {
      assert (i, v) in h.ballots;
    }
  }

  lemma ExtendedReignOk(ids: set<NodeId>, h: History, g: History, t: nat, log: Log)
    requires HistoryOk(ids, h) && Grows(h, g) && t in h.reigns
    requires g.reigns == h.reigns[t := h.reigns[t].(log := log)]
    requires log == h.reigns[t].log + [LogEntry(t, |h.reigns[t].log|, log[|log| - 1].command)]
    requires Acked(g, h.reigns[t].leader, t, LastIndex(log))
    requires forall w {:trigger ElectedBy(g, t, w)} :: w in h.reigns[t].quorum ==> ElectedBy(g, t, w)
    ensures ReignOk(ids, g, t)
  {
    assert ReignOk(ids, h, t);
    var old_ := h.reigns[t].log;
    RootedGrows(h, g, old_);
    forall k | 1 <= k < |log|
      ensures log[k].index == k && log[k].term in g.reigns && Agree(log, g.reigns[log[k].term].log, k)
    {
      if k < |old_| {
        assert log[k] == old_[k];
        assert Agree(old_, g.reigns[old_[k].term].log, k);
      }
    }
  }

  lemma SubmitOk(c: Config, s: Cluster, h: History, i: NodeId, command: string) returns (g: History)
    requires c.Valid() && Inv(c, s, h) && i in c.Ids()
    ensures Inv(c, s.SetNode(i, SubmitCommand(s.servers[i].node, command).0), g) && Grows(h, g)
  {
    var Server(nd, task) := s.servers[i];
    if nd.role != Leader {
      g := h;
      GrowsRefl(h);
      assert s.SetNode(i, nd).servers == s.servers;
    } else {
      var nd' := SubmitCommand(nd, command).0;
      ExtendedOk(c, s, h, i, nd'.store.log);
      g := Extended(h, nd, nd'.store.log);
      LeaderExtendedOk(c, s, h, i, nd');
      ChangeServer(c, s, h, g, i, Server(nd', task), s.SetNode(i, nd'));
    }
  }

  lemma LeaderExtendedOk(c: Config, s: Cluster, h: History, i: NodeId, nd': Node)
    requires c.Valid() && Inv(c, s, h) && i in c.Ids() && s.servers[i].node.role == Leader
    requires s.servers[i].node.currentTerm in h.reigns && h.reigns[s.servers[i].node.currentTerm].leader == i
    requires var nd := s.servers[i].node;
             && |nd'.store.log| == |nd.store.log| + 1
             && nd'.store.log == nd.store.log +
                  [LogEntry(nd.currentTerm, |nd.store.log|, nd'.store.log[|nd.store.log|].command)]
             && nd' == nd.WithLog(nd'.store.log)
    requires var g := Extended(h, s.servers[i].node, nd'.store.log); Grows(h, g) && HistoryOk(c.Ids(), g)
    ensures var g := Extended(h, s.servers[i].node, nd'.store.log);
            NodeOk(c, s.votes, g, i, nd') && TaskOk(c, g, i, nd', s.servers[i].task)
  {
    var Server(nd, task) := s.servers[i];
    var t, log := nd.currentTerm, nd'.store.log;
    var g := Extended(h, nd, log);
    assert NodeOk(c, s.votes, h, i, nd) && TaskOk(c, h, i, nd, task) by { assert ServerOk(c, s, h, i); }
    assert LogOk(g, nd') by { assert ReignOk(c.Ids(), g, t); }
    assert CommitOk(c.Ids(), g, nd') by {
      CommittedGrows(c.Ids(), h, g, nd.store.log, nd.commitIndex, t, t);
      CommittedPrefix(c.Ids(), g, nd.store.log, nd.commitIndex, log, nd.commitIndex, t);
    }
    assert AckOk(g, i, nd') by { ExtendedAckOk(c.Ids(), h, g, i, nd, nd'); }
    assert LeaderOk(c, g, i, nd') by {
      forall p | p in c.peers[i] ensures PeerOk(g, nd', p) { assert PeerOk(h, nd, p); }
    }
    OtherTaskOk(c, h, g, i, nd, task);
  }

  lemma ExtendedAckOk(ids: set<NodeId>, h: History, g: History, i: NodeId, nd: Node, nd': Node)
    requires HistoryOk(ids, h) && Grows(h, g) && AckOk(h, i, nd) && nd'.currentTerm == nd.currentTerm
    requires nd.currentTerm in g.reigns && g.reigns[nd.currentTerm].log == nd'.store.log
    requires |nd.store.log| < |nd'.store.log| && nd'.store.log[..|nd.store.log|] == nd.store.log
    requires g.acks == h.acks[(i, nd.currentTerm) := LastIndex(nd'.store.log)]
    ensures AckOk(g, i, nd')
  {
    var t, log := nd.currentTerm, nd'.store.log;
    forall u: nat, k: nat | Acked(g, i, u, k) ensures u <= t && Kept(g, log, u, k, t + 1) {
      if u != t {
        assert Acked(h, i, u, k);
        KeptGrows(h, g, nd.store.log, u, k, t + 1, t + 1);
        assert forall j :: 0 <= j < |nd.store.log| ==> log[j] == nd.store.log[j];
      }
    }
  }

  lemma RestartOk(c: Config, s: Cluster, h: History, i: NodeId)
    requires c.Valid() && Inv(c, s, h) && i in c.Ids()
    ensures Inv(c, s.SetServer(i, Recover(s.servers[i].node.store), Idle), h)
  {
    var nd := s.servers[i].node;
    var nd' := Recover(nd.store);
    assert NodeOk(c, s.votes, h, i, nd) by { assert ServerOk(c, s, h, i); }
    assert AckOk(h, i, nd') by {
      forall t: nat, k: nat | Acked(h, i, t, k)
        ensures t <= nd'.currentTerm && Kept(h, nd'.store.log, t, k, nd'.currentTerm + 1) {}
    }
    ChangeServerOnly(c, s, h, i, Server(nd', Idle), s.SetServer(i, nd', Idle));
  }

  // ---- Every step, every run

  lemma ElectionStepInv(c: Config, s: Cluster, h: History, e: Event) returns (g: History)
    requires c.Valid() && |c.Ids()| % 2 == 1 && Inv(c, s, h) && Enabled(c, s, e)
    requires e.StartElection? || e.ReadBallot? || e.CallVote? || e.MissVote? || e.TakeVote? || e.CloseElection?
    ensures Inv(c, Step(c, s, e), g) && Grows(h, g)
  {
    g := h;
    GrowsRefl(h);
    match e
    case StartElection(i) => g := StartElectionOk(c, s, h, i);
    case ReadBallot(i) => ReadBallotOk(c, s, h, i);
    case CallVote(i) => g := CallVoteOk(c, s, h, i);
    case MissVote(i) => MissVoteOk(c, s, h, i);
    case TakeVote(i) => TakeVoteOk(c, s, h, i);
    case CloseElection(i) => g := CloseElectionOk(c, s, h, i);
  }

  lemma RoundStepInv(c: Config, s: Cluster, h: History, e: Event) returns (g: History)
    requires c.Valid() && Inv(c, s, h) && Enabled(c, s, e)
    requires e.StartRound? || e.BuildAppend? || e.CallAppend? || e.MissAppend? || e.TakeAppend? || e.CloseRound?
    ensures Inv(c, Step(c, s, e), g) && Grows(h, g)
  {
    g := h;
    GrowsRefl(h);
    match e
    case StartRound(i) => StartRoundOk(c, s, h, i);
    case BuildAppend(i) => BuildAppendOk(c, s, h, i);
    case CallAppend(i) => g := CallAppendOk(c, s, h, i);
    case MissAppend(i) => MissAppendOk(c, s, h, i);
    case TakeAppend(i) => TakeAppendOk(c, s, h, i);
    case CloseRound(i) => SetTaskOk(c, s, h, i, Idle);
  }

  lemma OtherStepInv(c: Config, s: Cluster, h: History, e: Event) returns (g: History)
    requires c.Valid() && Inv(c, s, h) && Enabled(c, s, e)
    requires e.Submit? || e.Restart? || e.Partition? || e.Heal? || e.LateVote? || e.LateAppend?
    ensures Inv(c, Step(c, s, e), g) && Grows(h, g)
  {
    g := h;
    GrowsRefl(h);
    match e
    case Submit(i, command) => g := SubmitOk(c, s, h, i, command);
    case Restart(i) => RestartOk(c, s, h, i);
    case Partition(i) => SameServersOk(c, s, h, Step(c, s, e));
    case Heal(i) => SameServersOk(c, s, h, Step(c, s, e));
    case LateVote(i, vote) => g := VoteHandled(c, s, h, i, vote);
    case LateAppend(i, append) =>
      assert AppendOk(c, h, i, append);
      g := AppendHandled(c, s, h, i, append);
  }

  /** In a cluster of an odd number of nodes every step keeps the invariant. */
  lemma StepInv(c: Config, s: Cluster, h: History, e: Event) returns (g: History)
    requires c.Valid() && |c.Ids()| % 2 == 1 && Inv(c, s, h) && Enabled(c, s, e)
    ensures Inv(c, Step(c, s, e), g) && Grows(h, g)
  {
    if e.StartElection? || e.ReadBallot? || e.CallVote? || e.MissVote? || e.TakeVote? || e.CloseElection? {
      g := ElectionStepInv(c, s, h, e);
    } else if e.StartRound? || e.BuildAppend? || e.CallAppend? || e.MissAppend? || e.TakeAppend? || e.CloseRound? {
      g := RoundStepInv(c, s, h, e);
    } else {
      g := OtherStepInv(c, s, h, e);
    }
  }

  lemma GrowsTrans(h: History, g: History, k: History)
    requires Grows(h, g) && Grows(g, k)
    ensures Grows(h, k)
  {
    forall t | t in h.reigns ensures ReignGrows(h, k, t) {
      assert ReignGrows(h, g, t) && ReignGrows(g, k, t);
    }
  }

  lemma {:induction false} RunInv(c: Config, s: Cluster, h: History, events: seq<Event>, s': Cluster)
    returns (g: History)
    requires c.Valid() && |c.Ids()| % 2 == 1 && Inv(c, s, h) && Run(c, s, events, s')
    ensures Inv(c, s', g) && Grows(h, g)
    decreases |events|
  {
    if events == [] {
      g := h;
      GrowsRefl(h);
    } else {
      var h1 := StepInv(c, s, h, events[0]);
      g := RunInv(c, Step(c, s, events[0]), h1, events[1..], s');
      GrowsTrans(h, h1, g);
    }
  }
}
