/**
 One node as an object with the fields of the consensus class, its methods being the bodies of its critical sections.
 Each method is proved to do to the fields what the step function of the same name does to their value.
 */
module RaftNode {
  import opened RaftTypes
  import opened RaftLogStore
  import Rules = RaftRules

  class RaftNode {
    const id: NodeId
    const peers: seq<NodeId>
    const logStore: InMemoryLogStore

    var currentTerm: nat
    var votedFor: NodeId
    var role: Role
    var leaderId: NodeId
    var commitIndex: nat
    var nextIndex: map<NodeId, nat>
    var matchIndex: map<NodeId, nat>

    ghost predicate Valid()
      reads this, logStore
    {
      logStore.Valid()
    }

    ghost function View(): Node
      reads this, logStore
      requires Valid()
    {
      Node(currentTerm, votedFor, logStore.View(), role, leaderId, commitIndex, nextIndex, matchIndex)
    }

    /** A node over a given store picks up the term and vote kept there. */
    constructor (id: NodeId, peers: seq<NodeId>, logStore: InMemoryLogStore)
      requires logStore.Valid()
      ensures this.id == id && this.peers == peers && this.logStore == logStore
      ensures Valid() && View() == Rules.Recover(logStore.View())
    {
      this.id, this.peers, this.logStore := id, peers, logStore;
      role, leaderId, commitIndex := Follower, NOBODY, 0;
      nextIndex, matchIndex := map[], map[];
      currentTerm, votedFor := logStore.term, logStore.votedFor;
    }

    // ---- Role changes

    method BecomeFollower(term: nat, leader: NodeId)
      requires Valid()
      modifies this, logStore
      ensures Valid() && View() == Rules.BecomeFollower(old(View()), term, leader)
      ensures role == Follower && currentTerm == term == logStore.term && leaderId == leader
      ensures votedFor == NOBODY == logStore.votedFor && logStore.log == old(logStore.log)
    {
      currentTerm := term;
      role := Follower;
      votedFor := NOBODY;
      leaderId := leader;
      logStore.PersistState(currentTerm, votedFor);
    }

    method BecomeCandidate()
      requires Valid()
      modifies this, logStore
      ensures Valid() && View() == Rules.BecomeCandidate(id, old(View()))
      ensures role == Candidate && currentTerm == old(currentTerm) + 1 == logStore.term && leaderId == NOBODY
      ensures votedFor == id == logStore.votedFor && logStore.log == old(logStore.log)
    {
      currentTerm := currentTerm + 1;
      role := Candidate;
      votedFor := id;
      leaderId := NOBODY;
      logStore.PersistState(currentTerm, votedFor);
    }

    method BecomeLeader()
      requires Valid()
      modifies this
      ensures Valid() && View() == Rules.BecomeLeader(id, peers, old(View()))
      ensures role == Leader && leaderId == id && currentTerm == old(currentTerm) && votedFor == old(votedFor)
      ensures forall p :: p in peers ==>
                p in nextIndex && nextIndex[p] == |logStore.log| && p in matchIndex && matchIndex[p] == 0
    {
      role := Leader;
      leaderId := id;
      var lastIdx := logStore.LastIndex();
      nextIndex, matchIndex := ResetPeers(nextIndex, matchIndex, peers, lastIdx + 1);
    }

    /** The loop over the peers: where to send from, and that nothing is known to be held. */
    static method ResetPeers(next0: map<NodeId, nat>, match0: map<NodeId, nat>, peers: seq<NodeId>, from: nat)
      returns (next: map<NodeId, nat>, match_: map<NodeId, nat>)
      ensures next == Rules.SetAll(next0, peers, from)
      ensures match_ == Rules.SetAll(match0, peers, 0)
    {
      next, match_ := next0, match0;
      var i := 0;
      while i < |peers|
        invariant i <= |peers|
        invariant next == Rules.SetAll(next0, peers[..i], from)
        invariant match_ == Rules.SetAll(match0, peers[..i], 0)
      {
        Rules.SetAllMore(next0, peers, from, i);
        Rules.SetAllMore(match0, peers, 0, i);
        next := next[peers[i] := from];
        match_ := match_[peers[i] := 0];
        i := i + 1;
      }
      assert peers[..i] == peers;
    }

    // ---- RPC handlers

    method HandleRequestVote(rpc: RequestVote) returns (reply: VoteReply)
      requires Valid()
      modifies this, logStore
      ensures Valid() && (View(), reply) == Rules.HandleRequestVote(id, old(View()), rpc)
    {
      if rpc.term > currentTerm {
        currentTerm := rpc.term;
        role := Follower;
        votedFor := NOBODY;
        leaderId := NOBODY;
        logStore.PersistState(currentTerm, votedFor);
      }
      if rpc.term < currentTerm {
        return VoteReply(currentTerm, false, id);
      }
      var lastTerm := logStore.LastTerm();
      var lastIndex := logStore.LastIndex();
      var votedForOk := votedFor == NOBODY || votedFor == rpc.candidateId;
      var logOk := rpc.lastLogTerm > lastTerm || (rpc.lastLogTerm == lastTerm && rpc.lastLogIndex >= lastIndex);
      var granted := false;
      if votedForOk && logOk {
        votedFor := rpc.candidateId;
        granted := true;
        logStore.PersistState(currentTerm, votedFor);
      }
      reply := VoteReply(currentTerm, granted, id);
    }

    method HandleAppendEntries(rpc: AppendEntries) returns (reply: AppendReply)
      requires Valid()
      modifies this, logStore
      ensures Valid() && (View(), reply) == Rules.HandleAppendEntries(id, old(View()), rpc)
    {
      if rpc.term > currentTerm {
        currentTerm := rpc.term;
        role := Follower;
        votedFor := NOBODY;
        logStore.PersistState(currentTerm, votedFor);
      }
      if rpc.term < currentTerm {
        return AppendReply(currentTerm, false, id, 0);
      }
      leaderId := rpc.leaderId;
      if role != Follower {
        role := Follower;
      }
      var logSize := logStore.Size();
      if rpc.prevLogIndex >= logSize {
        return AppendReply(currentTerm, false, id, 0);
      }
      var prevEntry := logStore.Get(rpc.prevLogIndex);
      if prevEntry.term != rpc.prevLogTerm {
        return AppendReply(currentTerm, false, id, 0);
      }
      MergeEntries(rpc.prevLogIndex + 1, rpc.entries);
      if rpc.leaderCommit > commitIndex {
        var size := logStore.Size();
        commitIndex := Rules.Min(rpc.leaderCommit, size - 1);
      }
      reply := AppendReply(currentTerm, true, id, rpc.prevLogIndex + |rpc.entries|);
    }

    /** The loop of the append handler over the entries of the message. */
    method MergeEntries(insertPos: nat, entries: seq<LogEntry>)
      requires Valid() && 1 <= insertPos <= |logStore.log|
      modifies logStore`log
      ensures Valid() && logStore.log == Rules.Merge(old(logStore.log), insertPos, entries)
    {
      var i := 0;
      while i < |entries|
        invariant i <= |entries| && insertPos + i <= |logStore.log| && Valid()
        invariant Rules.Merge(logStore.log, insertPos + i, entries[i..])
               == Rules.Merge(old(logStore.log), insertPos, entries)
      {
        var pos := insertPos + i;
        var size := logStore.Size();
        var e := entries[i].(index := pos);
        ghost var before := logStore.log;
        Rules.MergeNext(before, pos, entries, i);
        if pos < size {
          var existing := logStore.Get(pos);
          if existing.term != entries[i].term {
            logStore.TruncateAfter(pos - 1);
            var at := logStore.Append(e);
          }
        } else {
          var at := logStore.Append(e);
        }
        assert logStore.log == Rules.MergeOne(before, pos, entries[i]);
        i := i + 1;
      }
    }

    // ---- Client

    method SubmitCommand(command: string) returns (ok: bool)
      requires Valid()
      modifies logStore`log
      ensures Valid() && (View(), ok) == Rules.SubmitCommand(old(View()), command)
      ensures ok <==> role == Leader
      ensures logStore.log
           == old(logStore.log) + if ok then [LogEntry(currentTerm, old(|logStore.log|), command)] else []
    {
      if role != Leader {
        return false;
      }
      var size := logStore.Size();
      var at := logStore.Append(LogEntry(currentTerm, size, command));
      return true;
    }

    method CommittedLog() returns (entries: seq<LogEntry>)
      requires Valid()
      ensures entries == Rules.CommittedLog(View())
      ensures commitIndex < |logStore.log| ==> entries == logStore.log[1..commitIndex + 1]
    {
      if commitIndex == 0 {
        return [];
      }
      entries := logStore.GetRange(1, commitIndex);
    }

    // ---- Leader

    /** What the leader sends to one peer in a round that began with the given term and commit index. */
    method BuildAppend(peer: NodeId, term: nat, commit: nat) returns (rpc: AppendEntries)
      requires Valid()
      ensures rpc == Rules.Heartbeat(id, View(), peer, term, commit)
    {
      var nextIdx := if peer in nextIndex then nextIndex[peer] else 1;
      var prevLogIndex := if nextIdx > 0 then nextIdx - 1 else 0;
      var prevEntry := logStore.Get(prevLogIndex);
      var entries: seq<LogEntry> := [];
      var logSize := logStore.Size();
      var i := nextIdx;
      while i < logSize
        invariant nextIdx <= i
        invariant nextIdx < logSize ==> i <= logSize && entries == logStore.log[nextIdx..i]
        invariant nextIdx >= logSize ==> entries == []
      {
        var e := logStore.Get(i);
        entries := entries + [e];
        i := i + 1;
      }
      rpc := AppendEntries(term, id, prevLogIndex, prevEntry.term, entries, commit);
    }

    /** What the leader does with the reply of one peer. */
    method TakeAppendReply(peer: NodeId, reply: AppendReply)
      requires Valid()
      modifies this, logStore
      ensures Valid() && View() == Rules.TakeAppendReply(old(View()), peers, peer, reply)
    {
      if reply.term > currentTerm {
        BecomeFollower(reply.term, NOBODY);
        return;
      }
      if role != Leader {
        return;
      }
      if reply.success {
        matchIndex := matchIndex[peer := reply.matchIndex];
        nextIndex := nextIndex[peer := reply.matchIndex + 1];
        AdvanceCommitIndex();
      } else {
        var next := if peer in nextIndex then nextIndex[peer] else 0;
        nextIndex := nextIndex[peer := next];
        if next > 1 {
          nextIndex := nextIndex[peer := next - 1];
        }
      }
    }

    method AdvanceCommitIndex()
      requires Valid()
      modifies this`commitIndex
      ensures Valid() && View() == Rules.AdvanceCommitIndex(old(View()), peers)
    {
      var logLen := logStore.Size();
      var n := logLen - 1;
      while n > commitIndex
        invariant 0 <= n < logLen && commitIndex == old(commitIndex)
        invariant Rules.NewCommit(View(), peers, n) == Rules.NewCommit(old(View()), peers, logLen - 1)
      {
        var entry := logStore.Get(n);
        if entry.term == currentTerm {
          var copies := CountCopies(n);
          var majority := (|peers| + 1) / 2 + 1;
          if 1 + copies >= majority {
            commitIndex := n;
            return;
          }
        }
        n := n - 1;
      }
    }

    method CountCopies(n: nat) returns (count: nat)
      ensures count == Rules.Copies(matchIndex, peers, n)
    {
      count := 0;
      var i := 0;
      while i < |peers|
        invariant i <= |peers|
        invariant count + Rules.Copies(matchIndex, peers[i..], n) == Rules.Copies(matchIndex, peers, n)
      {
        if peers[i] in matchIndex && matchIndex[peers[i]] >= n {
          count := count + 1;
        }
        i := i + 1;
      }
    }
  }
}
