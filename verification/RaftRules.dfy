/** The atomic steps of one node, each as a function of the node's state (one critical section each). */
module RaftRules {
  import opened RaftTypes

  // ---- Log store operations

  function Get(log: Log, index: nat): LogEntry {
    if index < |log| then log[index] else SENTINEL
  }

  function LastIndex(log: Log): nat {
    |log| - 1
  }

  function LastTerm(log: Log): nat {
    log[|log| - 1].term
  }

  /** The store overwrites the index of an appended entry by its position. */
  function Append(log: Log, e: LogEntry): Log {
    log + [e.(index := |log|)]
  }

  /** Keeps entries 0 to `index`. */
  function TruncateAfter(log: Log, index: nat): Log {
    if index + 1 < |log| then log[..index + 1] else log
  }

  /** Entries `start` to `end` inclusive, clamped to the log. */
  function GetRange(log: Log, start: nat, end: nat): seq<LogEntry> {
    if start > end || start >= |log| then []
    else if end < |log| then log[start..end + 1] else log[start..]
  }

  /** What the follower does with the entry for position `pos`. */
  function MergeOne(log: Log, pos: nat, entry: LogEntry): (next: Log)
    requires 1 <= pos <= |log|
    ensures pos < |next|
  {
    var e := entry.(index := pos);
    if pos < |log| then
      if log[pos].term != e.term then Append(TruncateAfter(log, pos - 1), e) else log
    else
      Append(log, e)
  }

  /** The follower's loop over the entries of a message, from position `pos` on. */
  function Merge(log: Log, pos: nat, entries: seq<LogEntry>): Log
    requires 1 <= pos <= |log|
    decreases |entries|
  {
    if entries == [] then log else Merge(MergeOne(log, pos, entries[0]), pos + 1, entries[1..])
  }

  lemma MergeNext(log: Log, pos: nat, entries: seq<LogEntry>, i: nat)
    requires 1 <= pos <= |log| && i < |entries|
    ensures Merge(log, pos, entries[i..]) == Merge(MergeOne(log, pos, entries[i]), pos + 1, entries[i + 1..])
  {
    assert entries[i..][0] == entries[i] && entries[i..][1..] == entries[i + 1..];
  }

  // ---- Roles

  function Fresh(): Node {
    Recover(EMPTY_STORE)
  }

  /** A node built over an existing store: the persisted term and vote are loaded, the rest is new. */
  function Recover(store: Store): Node {
    Node(store.term, store.votedFor, store, Follower, NOBODY, 0, map[], map[])
  }

  function BecomeFollower(nd: Node, term: nat, leaderId: NodeId): Node {
    nd.(currentTerm := term, role := Follower, votedFor := NOBODY, leaderId := leaderId).Persist()
  }

  function BecomeCandidate(id: NodeId, nd: Node): Node {
    nd.(currentTerm := nd.currentTerm + 1, role := Candidate, votedFor := id, leaderId := NOBODY).Persist()
  }

  /** The map m with v for each of the peers. */
  function SetAll(m: map<NodeId, nat>, peers: seq<NodeId>, v: nat): map<NodeId, nat> {
    m + (map p | p in peers :: v)
  }

  lemma SetAllMore(m: map<NodeId, nat>, peers: seq<NodeId>, v: nat, k: nat)
    requires k < |peers|
    ensures SetAll(m, peers[..k + 1], v) == SetAll(m, peers[..k], v)[peers[k] := v]
  {
    assert peers[..k + 1] == peers[..k] + [peers[k]];
  }

  function BecomeLeader(id: NodeId, peers: seq<NodeId>, nd: Node): Node {
    nd.(role := Leader, leaderId := id,
        nextIndex := SetAll(nd.nextIndex, peers, |nd.store.log|),
        matchIndex := SetAll(nd.matchIndex, peers, 0))
  }

  // ---- RPC handlers

  predicate UpToDate(lastIndex: nat, lastTerm: nat, log: Log) {
    lastTerm > LastTerm(log) || (lastTerm == LastTerm(log) && lastIndex >= LastIndex(log))
  }

  function HandleRequestVote(id: NodeId, nd: Node, rpc: RequestVote): (Node, VoteReply) {
    var n := if rpc.term > nd.currentTerm then BecomeFollower(nd, rpc.term, NOBODY) else nd;
    if rpc.term < n.currentTerm then
      (n, VoteReply(n.currentTerm, false, id))
    else if (n.votedFor == NOBODY || n.votedFor == rpc.candidateId)
            && UpToDate(rpc.lastLogIndex, rpc.lastLogTerm, n.store.log) then
      (n.(votedFor := rpc.candidateId).Persist(), VoteReply(n.currentTerm, true, id))
    else
      (n, VoteReply(n.currentTerm, false, id))
  }

  /** True when the follower's log has the entry the message builds on. */
  predicate HasPrevious(log: Log, rpc: AppendEntries) {
    rpc.prevLogIndex < |log| && log[rpc.prevLogIndex].term == rpc.prevLogTerm
  }

  function Min(a: nat, b: nat): nat {
    if b < a then b else a
  }

  function HandleAppendEntries(id: NodeId, nd: Node, rpc: AppendEntries): (Node, AppendReply) {
    var n0 := if rpc.term > nd.currentTerm then BecomeFollower(nd, rpc.term, nd.leaderId) else nd;
    if rpc.term < n0.currentTerm then
      (n0, AppendReply(n0.currentTerm, false, id, 0))
    else
      var n := n0.(leaderId := rpc.leaderId, role := Follower);
      if !HasPrevious(n.store.log, rpc) then
        (n, AppendReply(n.currentTerm, false, id, 0))
      else
        var log := Merge(n.store.log, rpc.prevLogIndex + 1, rpc.entries);
        var commit := if rpc.leaderCommit > n.commitIndex then Min(rpc.leaderCommit, |log| - 1) else n.commitIndex;
        (n.WithLog(log).(commitIndex := commit),
         AppendReply(n.currentTerm, true, id, rpc.prevLogIndex + |rpc.entries|))
  }

  // ---- Client and leader steps

  function SubmitCommand(nd: Node, command: string): (Node, bool) {
    if nd.role != Leader then (nd, false)
    else (nd.WithLog(Append(nd.store.log, LogEntry(nd.currentTerm, |nd.store.log|, command))), true)
  }

  function CommittedLog(nd: Node): seq<LogEntry> {
    if nd.commitIndex == 0 then [] else GetRange(nd.store.log, 1, nd.commitIndex)
  }

  function Candidacy(id: NodeId, nd: Node): RequestVote {
    RequestVote(nd.currentTerm, id, LastIndex(nd.store.log), LastTerm(nd.store.log))
  }

  /** Votes needed to win: computed from the number of peers, which does not count the node itself. */
  function VotesNeeded(peers: seq<NodeId>): nat {
    |peers| / 2 + 1
  }

  /** Copies needed to commit: computed from the size of the whole cluster. */
  function CopiesNeeded(peers: seq<NodeId>): nat {
    (|peers| + 1) / 2 + 1
  }

  /** The message for one peer: everything from the peer's next index to the end of the log. */
  function Heartbeat(id: NodeId, nd: Node, peer: NodeId, term: nat, commit: nat): AppendEntries {
    var next := if peer in nd.nextIndex then nd.nextIndex[peer] else 1;
    var prev := if next > 0 then next - 1 else 0;
    AppendEntries(term, id, prev, Get(nd.store.log, prev).term,
                  if next < |nd.store.log| then nd.store.log[next..] else [], commit)
  }

  /** How many of the peers are known to hold the log up to index `n`. */
  function Copies(matchIndex: map<NodeId, nat>, peers: seq<NodeId>, n: nat): nat {
    if peers == [] then 0
    else (if peers[0] in matchIndex && matchIndex[peers[0]] >= n then 1 else 0)
         + Copies(matchIndex, peers[1..], n)
  }

  predicate Commits(nd: Node, peers: seq<NodeId>, n: nat) {
    && n < |nd.store.log|
    && nd.store.log[n].term == nd.currentTerm
    && 1 + Copies(nd.matchIndex, peers, n) >= CopiesNeeded(peers)
  }

  /** The downward search of `_advanceCommitIndex`, from `n`. */
  function NewCommit(nd: Node, peers: seq<NodeId>, n: nat): nat
    decreases n
  {
    if n <= nd.commitIndex then nd.commitIndex
    else if Commits(nd, peers, n) then n
    else NewCommit(nd, peers, n - 1)
  }

  function AdvanceCommitIndex(nd: Node, peers: seq<NodeId>): Node {
    nd.(commitIndex := NewCommit(nd, peers, |nd.store.log| - 1))
  }

  function TakeAppendReply(nd: Node, peers: seq<NodeId>, peer: NodeId, reply: AppendReply): Node {
    if reply.term > nd.currentTerm then BecomeFollower(nd, reply.term, NOBODY)
    else if nd.role != Leader then nd
    else if reply.success then
      AdvanceCommitIndex(
        nd.(matchIndex := nd.matchIndex[peer := reply.matchIndex],
            nextIndex := nd.nextIndex[peer := reply.matchIndex + 1]), peers)
    else
      var next := if peer in nd.nextIndex then nd.nextIndex[peer] else 0;
      nd.(nextIndex := nd.nextIndex[peer := if next > 1 then next - 1 else next])
  }
}
