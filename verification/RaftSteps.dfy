/** What the single steps come to, in terms of terms, sets of nodes and logs: commits, votes, messages and replies. */
module RaftSteps {
  import opened RaftTypes
  import opened RaftRules
  import opened RaftCluster
  import opened RaftElection
  import opened RaftRounds

  // ---- Commits

  /** The peers that are known to hold the log up to the index. */
  function Holders(nd: Node, peers: seq<NodeId>, n: nat): set<NodeId> {
    set p | p in peers && p in nd.matchIndex && nd.matchIndex[p] >= n
  }

  /** The leader and its holders of an entry of its own term are more than half of the cluster. */
  predicate MajorityHolds(c: Config, i: NodeId, nd: Node, n: nat)
    requires i in c.Ids()
  {
    && n < |nd.store.log| && nd.store.log[n].term == nd.currentTerm
    && 2 * (|Holders(nd, c.peers[i], n)| + 1) > |c.Ids()|
  }

  lemma CommitsIff(c: Config, i: NodeId, nd: Node, n: nat)
    requires c.Valid() && i in c.Ids()
    ensures Commits(nd, c.peers[i], n) <==> MajorityHolds(c, i, nd, n)
  {
    assert c.ListsOthers(i);
    CopiesCount(nd.matchIndex, c.peers[i], n);
    PeersCount(c, i);
  }

  /** The commit index goes to the greatest index that a majority holds, and stays if there is none above it. */
  lemma CommitIndexIff(c: Config, i: NodeId, nd: Node, n: nat)
    requires c.Valid() && i in c.Ids() && n > nd.commitIndex
    ensures var r := AdvanceCommitIndex(nd, c.peers[i]);
            && r == nd.(commitIndex := r.commitIndex) && r.commitIndex >= nd.commitIndex
            && (r.commitIndex == n <==> MajorityHolds(c, i, nd, n) && forall k :: k > n ==> !MajorityHolds(c, i, nd, k))
            && (MajorityHolds(c, i, nd, n) ==> r.commitIndex >= n)
  {
    var last := |nd.store.log| - 1;
    NewCommitFinds(nd, c.peers[i], last);
    var r := NewCommit(nd, c.peers[i], last);
    CommitsIff(c, i, nd, n);
    forall k: nat | k > nd.commitIndex ensures MajorityHolds(c, i, nd, k) <==> Commits(nd, c.peers[i], k) {
      CommitsIff(c, i, nd, k);
    }
    if r != nd.commitIndex { assert MajorityHolds(c, i, nd, r); }
  }

  // ---- Votes

  /** The log is not ahead of the claim: its last entry is earlier, or of the same term and no further on. */
  predicate Behind(l: Log, lastTerm: nat, lastIndex: nat) {
    l[|l| - 1].term < lastTerm || (l[|l| - 1].term == lastTerm && |l| - 1 <= lastIndex)
  }

  /**
   A vote is granted exactly when the request is of no earlier term, no other candidate has the vote of that term, and
   the voter's log is not ahead. The voter takes over a later term, and a vote that it casts is stored.
   */
  lemma VoteGrantedIff(id: NodeId, nd: Node, rpc: RequestVote)
    ensures var (n, reply) := HandleRequestVote(id, nd, rpc);
            && (reply.voteGranted <==>
                 && rpc.term >= nd.currentTerm && Behind(nd.store.log, rpc.lastLogTerm, rpc.lastLogIndex)
                 && (rpc.term == nd.currentTerm ==> nd.votedFor == NOBODY || nd.votedFor == rpc.candidateId))
            && reply.term == n.currentTerm && reply.voterId == id
            && n.currentTerm == (if rpc.term > nd.currentTerm then rpc.term else nd.currentTerm)
            && n.store.log == nd.store.log && n.commitIndex == nd.commitIndex
            && (reply.voteGranted ==> n.votedFor == rpc.candidateId && n.store.votedFor == rpc.candidateId)
            && (rpc.term > nd.currentTerm ==> n.role == Follower && n.leaderId == NOBODY && n.store.term == rpc.term)
            && (rpc.term <= nd.currentTerm ==> n.role == nd.role && n.leaderId == nd.leaderId)
  {
  }

  /** What the log of a candidate lets it claim. */
  function Claim(j: NodeId, l: Log, t: nat): RequestVote {
    RequestVote(t, j, |l| - 1, l[|l| - 1].term)
  }

  /** Of any two nodes that are free to vote in a later term, one would vote for the other. */
  lemma OneWouldVote(i: NodeId, a: Node, j: NodeId, b: Node, t: nat)
    requires a.currentTerm < t && b.currentTerm < t
    ensures || HandleRequestVote(i, a, Claim(j, b.store.log, t)).1.voteGranted
            || HandleRequestVote(j, b, Claim(i, a.store.log, t)).1.voteGranted
  {
  }

  // ---- Messages and replies

  /** A message goes on where the peer's next index says: what it builds on and what it brings make up the log. */
  lemma MessageJoins(id: NodeId, nd: Node, peer: NodeId, term: nat, commit: nat)
    requires peer in nd.nextIndex && 1 <= nd.nextIndex[peer] <= |nd.store.log|
    ensures var m, l := Heartbeat(id, nd, peer, term, commit), nd.store.log;
            && m.term == term && m.leaderId == id && m.leaderCommit == commit
            && m.prevLogIndex + 1 == nd.nextIndex[peer] && m.prevLogTerm == l[m.prevLogIndex].term
            && l[..m.prevLogIndex + 1] + m.entries == l
  {
  }

  /**
   An append succeeds exactly when it is of no earlier term and the log has the entry before it; it then reports the
   end of what it brought, and makes the receiver follow the sender.
   */
  lemma AppendSucceedsIff(id: NodeId, nd: Node, m: AppendEntries)
    ensures var (n, reply), l := HandleAppendEntries(id, nd, m), nd.store.log;
            && (reply.success <==>
                 && m.term >= nd.currentTerm
                 && m.prevLogIndex < |l| && l[m.prevLogIndex].term == m.prevLogTerm)
            && reply.matchIndex == (if reply.success then m.prevLogIndex + |m.entries| else 0)
            && reply.term == n.currentTerm == (if m.term > nd.currentTerm then m.term else nd.currentTerm)
            && reply.followerId == id
            && (m.term >= nd.currentTerm ==> n.role == Follower && n.leaderId == m.leaderId)
            && n.votedFor == (if m.term > nd.currentTerm then NOBODY else nd.votedFor)
            && n.nextIndex == nd.nextIndex && n.matchIndex == nd.matchIndex
            && (!reply.success ==> n.store.log == l && n.commitIndex == nd.commitIndex)
            && (reply.success ==>
                 n.commitIndex == if m.leaderCommit <= nd.commitIndex then nd.commitIndex
                                  else if m.leaderCommit < |n.store.log| then m.leaderCommit
                                  else |n.store.log| - 1)
  {
  }

  /** Whoever learns of a later term from a reply follows in it, its vote free; who does not lead ignores the rest. */
  lemma ReplyEndsReign(nd: Node, peers: seq<NodeId>, peer: NodeId, reply: AppendReply)
    ensures var n := TakeAppendReply(nd, peers, peer, reply);
            && (reply.term > nd.currentTerm ==>
                 && n.role == Follower && n.currentTerm == reply.term == n.store.term && n.leaderId == NOBODY
                 && n.votedFor == NOBODY == n.store.votedFor
                 && n.store.log == nd.store.log && n.commitIndex == nd.commitIndex)
            && (reply.term <= nd.currentTerm && nd.role != Leader ==> n == nd)
  {
  }

  /** A refusal moves the next index back by one, but not below one; a success notes how far the peer has come. */
  lemma ReplyMoves(nd: Node, peers: seq<NodeId>, peer: NodeId, reply: AppendReply)
    requires reply.term <= nd.currentTerm && nd.role == Leader && peer in nd.nextIndex
    ensures var n := TakeAppendReply(nd, peers, peer, reply);
            && n.role == Leader && n.currentTerm == nd.currentTerm && n.store == nd.store
            && (!reply.success ==> n == nd.(nextIndex := n.nextIndex) && n.nextIndex.Keys == nd.nextIndex.Keys)
            && (!reply.success && nd.nextIndex[peer] > 1 ==> n.nextIndex[peer] == nd.nextIndex[peer] - 1)
            && (!reply.success && nd.nextIndex[peer] <= 1 ==> n.nextIndex[peer] == nd.nextIndex[peer])
            && (forall q :: q in nd.nextIndex && q != peer ==> q in n.nextIndex && n.nextIndex[q] == nd.nextIndex[q])
            && (reply.success ==>
                 && peer in n.nextIndex && n.nextIndex[peer] == reply.matchIndex + 1
                 && n.matchIndex == nd.matchIndex[peer := reply.matchIndex])
  {
  }
}
