/**
 The whole cluster as a state machine. Each node has one thread, which runs one election or one round of
 heartbeats at a time and calls its peers one after the other; a call waits for its reply. Between any two
 critical sections of a thread every other step may happen. Every request ever sent stays in the bus, so that it
 may also arrive late, again, or after the caller was told that it did not arrive.
 */
module RaftCluster {
  import opened RaftTypes
  import opened RaftRules

  // ---- Configuration

  datatype Config = Config(peers: map<NodeId, seq<NodeId>>) {
    function Ids(): set<NodeId> {
      peers.Keys
    }

    /** Every node lists all the others, each once; ids are not empty. */
    ghost predicate Valid() {
      && Ids() != {}
      && NOBODY !in Ids()
      && forall i {:trigger ListsOthers(i)} :: i in Ids() ==> ListsOthers(i)
    }

    ghost predicate ListsOthers(i: NodeId)
      requires i in Ids()
    {
      && (forall p :: p in peers[i] <==> p in Ids() && p != i)
      && (forall a, b :: 0 <= a < b < |peers[i]| ==> peers[i][a] != peers[i][b])
    }
  }

  // ---- State

  /** What a node's own thread is doing. `next` is the position of the peer to call. */
  datatype Task =
    | Idle
    | Campaigning
    | Requesting(vote: RequestVote, next: nat, votes: nat)
    | VoteAnswered(vote: RequestVote, next: nat, votes: nat, voteReply: VoteReply)
    | Beating(term: nat, commit: nat, next: nat)
    | Appending(term: nat, commit: nat, next: nat, append: AppendEntries)
    | AppendAnswered(term: nat, commit: nat, next: nat, append: AppendEntries, appendReply: AppendReply)

  datatype Server = Server(node: Node, task: Task)

  datatype Cluster = Cluster(
    servers: map<NodeId, Server>,
    votes: set<(NodeId, RequestVote)>,
    appends: set<(NodeId, AppendEntries)>,
    offline: set<NodeId>)
  {
    function SetNode(i: NodeId, nd: Node): Cluster
      requires i in servers
    {
      this.(servers := servers[i := servers[i].(node := nd)])
    }

    function SetServer(i: NodeId, nd: Node, task: Task): Cluster
      requires i in servers
    {
      this.(servers := servers[i := Server(nd, task)])
    }

    function SetTask(i: NodeId, task: Task): Cluster
      requires i in servers
    {
      this.(servers := servers[i := servers[i].(task := task)])
    }
  }

  function Init(c: Config): Cluster {
    Cluster(map i | i in c.Ids() :: Server(Fresh(), Idle), {}, {}, {})
  }

  // ---- Steps

  datatype Event =
    | StartElection(i: NodeId)
    | ReadBallot(i: NodeId)
    | CallVote(i: NodeId)
    | MissVote(i: NodeId)
    | TakeVote(i: NodeId)
    | CloseElection(i: NodeId)
    | StartRound(i: NodeId)
    | BuildAppend(i: NodeId)
    | CallAppend(i: NodeId)
    | MissAppend(i: NodeId)
    | TakeAppend(i: NodeId)
    | CloseRound(i: NodeId)
    | Submit(i: NodeId, command: string)
    | Restart(i: NodeId)
    | Partition(i: NodeId)
    | Heal(i: NodeId)
    | LateVote(i: NodeId, vote: RequestVote)
    | LateAppend(i: NodeId, append: AppendEntries)

  predicate Enabled(c: Config, s: Cluster, e: Event) {
    && e.i in c.Ids() && e.i in s.servers && s.servers.Keys == c.Ids()
    && var Server(nd, task) := s.servers[e.i];
       var peers := c.peers[e.i];
       match e
       case StartElection(_) => task.Idle? && nd.role != Leader
       case ReadBallot(_) => task.Campaigning?
       case CallVote(_) => task.Requesting? && task.next < |peers| && peers[task.next] in c.Ids() - s.offline
       case MissVote(_) => task.Requesting? && task.next < |peers| && peers[task.next] in s.offline
       case TakeVote(_) => task.VoteAnswered?
       case CloseElection(_) => task.Requesting? && task.next == |peers|
       case StartRound(_) => task.Idle? && nd.role == Leader
       case BuildAppend(_) => task.Beating? && task.next < |peers|
       case CallAppend(_) => task.Appending? && task.next < |peers| && peers[task.next] in c.Ids() - s.offline
       case MissAppend(_) => task.Appending? && task.next < |peers| && peers[task.next] in s.offline
       case TakeAppend(_) => task.AppendAnswered? && task.next < |peers|
       case CloseRound(_) => task.Beating? && task.next == |peers|
       case Submit(_, _) => true
       case Restart(_) => true
       case Partition(_) => true
       case Heal(_) => true
       case LateVote(i, vote) => (i, vote) in s.votes
       case LateAppend(i, append) => (i, append) in s.appends
  }

  /** Node p handles a vote request. */
  function DeliverVote(s: Cluster, p: NodeId, rpc: RequestVote): (Cluster, VoteReply)
    requires p in s.servers
  {
    var (nd, reply) := HandleRequestVote(p, s.servers[p].node, rpc);
    (s.SetNode(p, nd), reply)
  }

  /** Node p handles an append request. */
  function DeliverAppend(s: Cluster, p: NodeId, rpc: AppendEntries): (Cluster, AppendReply)
    requires p in s.servers
  {
    var (nd, reply) := HandleAppendEntries(p, s.servers[p].node, rpc);
    (s.SetNode(p, nd), reply)
  }

  /** The end of one vote call: step down, give up, or count the vote. */
  function TakeVoteReply(s: Cluster, i: NodeId): Cluster
    requires i in s.servers && s.servers[i].task.VoteAnswered?
  {
    var Server(nd, VoteAnswered(vote, next, votes, reply)) := s.servers[i];
    if reply.term > nd.currentTerm then
      s.SetServer(i, BecomeFollower(nd, reply.term, NOBODY), Idle)
    else if nd.role != Candidate then
      s.SetTask(i, Idle)
    else
      s.SetTask(i, Requesting(vote, next + 1, votes + if reply.voteGranted then 1 else 0))
  }

  /** The end of one append call. */
  function TakeAppendAnswer(c: Config, s: Cluster, i: NodeId): Cluster
    requires i in c.Ids() && i in s.servers
    requires s.servers[i].task.AppendAnswered? && s.servers[i].task.next < |c.peers[i]|
  {
    var Server(nd, AppendAnswered(term, commit, next, append, reply)) := s.servers[i];
    var peer := c.peers[i][next];
    s.SetServer(i, TakeAppendReply(nd, c.peers[i], peer, reply),
                if reply.term > nd.currentTerm || nd.role != Leader then Idle else Beating(term, commit, next + 1))
  }

  function Step(c: Config, s: Cluster, e: Event): Cluster
    requires Enabled(c, s, e)
  {
    var i := e.i;
    var Server(nd, task) := s.servers[i];
    var peers := c.peers[i];
    match e
    case StartElection(_) => s.SetServer(i, BecomeCandidate(i, nd), Campaigning)
    case ReadBallot(_) => s.SetTask(i, Requesting(Candidacy(i, nd), 0, 1))
    case CallVote(_) =>
      var p := peers[task.next];
      var (s1, reply) := DeliverVote(s.(votes := s.votes + {(p, task.vote)}), p, task.vote);
      s1.SetTask(i, VoteAnswered(task.vote, task.next, task.votes, reply))
    case MissVote(_) =>
      s.(votes := s.votes + {(peers[task.next], task.vote)})
       .SetTask(i, Requesting(task.vote, task.next + 1, task.votes))
    case TakeVote(_) => TakeVoteReply(s, i)
    case CloseElection(_) =>
      var wins := nd.role == Candidate && task.votes >= VotesNeeded(peers);
      s.SetServer(i, if wins then BecomeLeader(i, peers, nd) else nd, Idle)
    case StartRound(_) => s.SetTask(i, Beating(nd.currentTerm, nd.commitIndex, 0))
    case BuildAppend(_) =>
      s.SetTask(i, if nd.role != Leader then Idle
                   else Appending(task.term, task.commit, task.next,
                                  Heartbeat(i, nd, peers[task.next], task.term, task.commit)))
    case CallAppend(_) =>
      var p := peers[task.next];
      var (s1, reply) := DeliverAppend(s.(appends := s.appends + {(p, task.append)}), p, task.append);
      s1.SetTask(i, AppendAnswered(task.term, task.commit, task.next, task.append, reply))
    case MissAppend(_) =>
      s.(appends := s.appends + {(peers[task.next], task.append)})
       .SetTask(i, Beating(task.term, task.commit, task.next + 1))
    case TakeAppend(_) => TakeAppendAnswer(c, s, i)
    case CloseRound(_) => s.SetTask(i, Idle)
    case Submit(_, command) => s.SetNode(i, SubmitCommand(nd, command).0)
    case Restart(_) => s.SetServer(i, Recover(nd.store), Idle)
    case Partition(_) => s.(offline := s.offline + {i})
    case Heal(_) => s.(offline := s.offline - {i})
    case LateVote(_, vote) => DeliverVote(s, i, vote).0
    case LateAppend(_, append) => DeliverAppend(s, i, append).0
  }

  // ---- Runs

  /** True when the events, taken in order from s, are all possible and lead to t. */
  ghost predicate Run(c: Config, s: Cluster, events: seq<Event>, t: Cluster)
    decreases |events|
  {
    if events == [] then s == t
    else Enabled(c, s, events[0]) && Run(c, Step(c, s, events[0]), events[1..], t)
  }

  ghost predicate Reachable(c: Config, s: Cluster) {
    exists events :: Run(c, Init(c), events, s)
  }

  lemma {:induction false} RunThen(c: Config, s: Cluster, es: seq<Event>, m: Cluster, fs: seq<Event>, t: Cluster)
    requires Run(c, s, es, m) && Run(c, m, fs, t)
    ensures Run(c, s, es + fs, t)
    decreases |es|
  {
    if es == [] {
      assert es + fs == fs;
    } else {
      RunThen(c, Step(c, s, es[0]), es[1..], m, fs, t);
      assert (es + fs)[0] == es[0] && (es + fs)[1..] == es[1..] + fs;
    }
  }

  lemma RunOne(c: Config, s: Cluster, e: Event)
    requires Enabled(c, s, e)
    ensures Run(c, s, [e], Step(c, s, e))
  {
    assert [e][1..] == [];
  }

  lemma RunMore(c: Config, s: Cluster, es: seq<Event>, m: Cluster, e: Event)
    requires Run(c, s, es, m) && Enabled(c, m, e)
    ensures Run(c, s, es + [e], Step(c, m, e))
  {
    RunOne(c, m, e);
    RunThen(c, s, es, m, [e], Step(c, m, e));
  }

  lemma ReachableThen(c: Config, s: Cluster, events: seq<Event>, t: Cluster)
    requires Reachable(c, s) && Run(c, s, events, t)
    ensures Reachable(c, t)
  {
    var before :| Run(c, Init(c), before, s);
    RunThen(c, Init(c), before, s, events, t);
  }

  // ---- What the cluster promises

  /** No two nodes lead in the same term. */
  ghost predicate OneLeaderPerTerm(s: Cluster) {
    forall i, j ::
      && i in s.servers && j in s.servers
      && s.servers[i].node.role == Leader && s.servers[j].node.role == Leader
      && s.servers[i].node.currentTerm == s.servers[j].node.currentTerm
      ==> i == j
  }

  /** Two committed logs never disagree: one is a prefix of the other. */
  ghost predicate CommittedLogsAgree(s: Cluster) {
    forall i, j, k ::
      && i in s.servers && j in s.servers
      && 0 <= k < |CommittedLog(s.servers[i].node)|
      && k < |CommittedLog(s.servers[j].node)|
      ==> CommittedLog(s.servers[i].node)[k] == CommittedLog(s.servers[j].node)[k]
  }
}
