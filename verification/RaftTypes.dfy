/** The values of the Raft layer: log entries, the four RPC messages, and the state of one node. */
module RaftTypes {

  /** A node id; the empty string stands for "no node", as in the `_votedFor` field. */
  type NodeId = string

  const NOBODY: NodeId := ""

  datatype Role = Follower | Candidate | Leader

  datatype LogEntry = LogEntry(term: nat, index: nat, command: string)

  /** The entry at index 0 of every log; also what a store returns for an index it does not hold. */
  const SENTINEL := LogEntry(0, 0, "")

  /** A log always holds its sentinel. */
  type Log = l: seq<LogEntry> | |l| >= 1 witness [SENTINEL]

  datatype RequestVote = RequestVote(
    term: nat, candidateId: NodeId, lastLogIndex: nat, lastLogTerm: nat)

  datatype VoteReply = VoteReply(term: nat, voteGranted: bool, voterId: NodeId)

  datatype AppendEntries = AppendEntries(
    term: nat, leaderId: NodeId, prevLogIndex: nat, prevLogTerm: nat,
    entries: seq<LogEntry>, leaderCommit: nat)

  datatype AppendReply = AppendReply(term: nat, success: bool, followerId: NodeId, matchIndex: nat)

  /** What a log store keeps: the log and the persisted term and vote. */
  datatype Store = Store(log: Log, term: nat, votedFor: NodeId)

  const EMPTY_STORE := Store([SENTINEL], 0, NOBODY)

  datatype Node = Node(
    currentTerm: nat,
    votedFor: NodeId,
    store: Store,
    role: Role,
    leaderId: NodeId,
    commitIndex: nat,
    nextIndex: map<NodeId, nat>,
    matchIndex: map<NodeId, nat>)
  {
    /** Writes the current term and vote to the store. */
    function Persist(): Node {
      this.(store := store.(term := currentTerm, votedFor := votedFor))
    }

    function WithLog(log: Log): Node {
      this.(store := store.(log := log))
    }
  }
}
