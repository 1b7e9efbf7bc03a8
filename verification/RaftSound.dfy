/**
 What every reachable state of a cluster of any size keeps: logs begin with the sentinel's term, no log and no message
 has an entry of a later term than its node or itself, and what has to outlast a restart is stored.
 */
module RaftSound {
  import opened RaftTypes
  import opened RaftRules
  import opened RaftCluster

  /** No entry is of a later term. */
  predicate TermsUpTo(entries: seq<LogEntry>, t: nat) {
    forall k :: 0 <= k < |entries| ==> entries[k].term <= t
  }

  predicate NodeSound(nd: Node) {
    && nd.store.log[0].term == 0 && TermsUpTo(nd.store.log, nd.currentTerm)
    && nd.store.term == nd.currentTerm && nd.store.votedFor == nd.votedFor
  }

  /** A round that its node still leads is of the node's term. */
  predicate TaskSound(nd: Node, task: Task) {
    match task
    case Beating(term, _, _) => nd.role == Leader ==> term == nd.currentTerm
    case Appending(term, _, _, m) => (nd.role == Leader ==> term == nd.currentTerm) && TermsUpTo(m.entries, m.term)
    case AppendAnswered(term, _, _, _, _) => nd.role == Leader ==> term == nd.currentTerm
    case _ => true
  }

  ghost predicate Sound(c: Config, s: Cluster) {
    && s.servers.Keys == c.Ids()
    && (forall i {:trigger s.servers[i]} :: i in c.Ids() ==> NodeSound(s.servers[i].node))
    && (forall i {:trigger s.servers[i]} :: i in c.Ids() ==> TaskSound(s.servers[i].node, s.servers[i].task))
    && (forall p, m :: (p, m) in s.appends ==> TermsUpTo(m.entries, m.term))
  }

  lemma MergeOneSound(log: Log, pos: nat, e: LogEntry, t: nat)
    requires 1 <= pos <= |log| && log[0].term == 0 && TermsUpTo(log, t) && e.term <= t
    ensures var l := MergeOne(log, pos, e); l[0].term == 0 && TermsUpTo(l, t)
  {
  }

  lemma {:induction false} MergeSound(log: Log, pos: nat, entries: seq<LogEntry>, t: nat)
    requires 1 <= pos <= |log| && log[0].term == 0 && TermsUpTo(log, t) && TermsUpTo(entries, t)
    ensures var l := Merge(log, pos, entries); l[0].term == 0 && TermsUpTo(l, t)
    decreases |entries|
  {
    if entries != [] {
      MergeOneSound(log, pos, entries[0], t);
      MergeSound(MergeOne(log, pos, entries[0]), pos + 1, entries[1..], t);
    }
  }

  lemma AppendSound(p: NodeId, nd: Node, m: AppendEntries)
    requires NodeSound(nd) && TermsUpTo(m.entries, m.term)
    ensures NodeSound(HandleAppendEntries(p, nd, m).0)
  {
    if m.term >= nd.currentTerm && HasPrevious(nd.store.log, m) {
      MergeSound(nd.store.log, m.prevLogIndex + 1, m.entries, m.term);
    }
  }

  /** Handling a request leaves the node's own task in order: it leads no other term than before. */
  lemma HandledTaskSound(p: NodeId, nd: Node, task: Task, v: RequestVote, m: AppendEntries)
    requires TaskSound(nd, task)
    ensures TaskSound(HandleRequestVote(p, nd, v).0, task) && TaskSound(HandleAppendEntries(p, nd, m).0, task)
  {
  }

  lemma ReplySound(nd: Node, peers: seq<NodeId>, peer: NodeId, reply: AppendReply)
    requires NodeSound(nd)
    ensures NodeSound(TakeAppendReply(nd, peers, peer, reply))
  {
  }

  /** One server changes, and a sound message may be added to the bus. */
  lemma ChangedSound(c: Config, s: Cluster, i: NodeId, server: Server, s': Cluster)
    requires Sound(c, s) && i in c.Ids() && NodeSound(server.node) && TaskSound(server.node, server.task)
    requires s'.servers == s.servers[i := server]
    requires forall p, m :: (p, m) in s'.appends ==> (p, m) in s.appends || TermsUpTo(m.entries, m.term)
    ensures Sound(c, s')
  {
  }

  lemma VoteDelivered(c: Config, s: Cluster, p: NodeId, v: RequestVote)
    requires Sound(c, s) && p in c.Ids()
    ensures Sound(c, DeliverVote(s, p, v).0)
  {
    var nd := HandleRequestVote(p, s.servers[p].node, v).0;
    HandledTaskSound(p, s.servers[p].node, s.servers[p].task, v, AppendEntries(0, p, 0, 0, [], 0));
    ChangedSound(c, s, p, s.servers[p].(node := nd), DeliverVote(s, p, v).0);
  }

  lemma AppendDelivered(c: Config, s: Cluster, p: NodeId, m: AppendEntries)
    requires Sound(c, s) && p in c.Ids() && TermsUpTo(m.entries, m.term)
    ensures Sound(c, DeliverAppend(s, p, m).0)
  {
    var nd := HandleAppendEntries(p, s.servers[p].node, m).0;
    AppendSound(p, s.servers[p].node, m);
    HandledTaskSound(p, s.servers[p].node, s.servers[p].task, RequestVote(0, p, 0, 0), m);
    ChangedSound(c, s, p, s.servers[p].(node := nd), DeliverAppend(s, p, m).0);
  }

  lemma CallVoteSound(c: Config, s: Cluster, i: NodeId)
    requires c.Valid() && Sound(c, s) && Enabled(c, s, CallVote(i))
    ensures Sound(c, Step(c, s, CallVote(i)))
  {
    var Server(nd, task) := s.servers[i];
    var p := c.peers[i][task.next];
    var s0 := s.(votes := s.votes + {(p, task.vote)});
    var (s1, reply) := DeliverVote(s0, p, task.vote);
    assert p != i by { assert c.ListsOthers(i); }
    VoteDelivered(c, s0, p, task.vote);
    ChangedSound(c, s1, i, Server(nd, VoteAnswered(task.vote, task.next, task.votes, reply)), Step(c, s, CallVote(i)));
  }

  lemma CallAppendSound(c: Config, s: Cluster, i: NodeId)
    requires c.Valid() && Sound(c, s) && Enabled(c, s, CallAppend(i))
    ensures Sound(c, Step(c, s, CallAppend(i)))
  {
    var Server(nd, Appending(term, commit, next, m)) := s.servers[i];
    var p := c.peers[i][next];
    var s0 := s.(appends := s.appends + {(p, m)});
    var (s1, reply) := DeliverAppend(s0, p, m);
    assert p != i && s1.servers[i] == s.servers[i] by { assert c.ListsOthers(i); }
    AppendDelivered(c, s0, p, m);
    ChangedSound(c, s1, i, Server(nd, AppendAnswered(term, commit, next, m, reply)), Step(c, s, CallAppend(i)));
  }

  /** The steps of a node by itself. */
  lemma OwnStepSound(c: Config, s: Cluster, e: Event)
    requires c.Valid() && Sound(c, s) && Enabled(c, s, e) && !e.CallVote? && !e.CallAppend?
    requires !e.LateVote? && !e.LateAppend?
    ensures Sound(c, Step(c, s, e))
  {
    var i, t := e.i, Step(c, s, e);
    var nd := s.servers[i].node;
    if e.TakeAppend? {
      ReplySound(nd, c.peers[i], c.peers[i][s.servers[i].task.next], s.servers[i].task.appendReply);
    }
    ChangedSound(c, s, i, t.servers[i], t);
  }

  lemma StepSound(c: Config, s: Cluster, e: Event)
    requires c.Valid() && Sound(c, s) && Enabled(c, s, e)
    ensures Sound(c, Step(c, s, e))
  {
    match e
    case CallVote(i) => CallVoteSound(c, s, i);
    case CallAppend(i) => CallAppendSound(c, s, i);
    case LateVote(p, v) => VoteDelivered(c, s, p, v);
    case LateAppend(p, m) => AppendDelivered(c, s, p, m);
    case _ => OwnStepSound(c, s, e);
  }

  lemma {:induction false} RunSound(c: Config, s: Cluster, events: seq<Event>, s': Cluster)
    requires c.Valid() && Sound(c, s) && Run(c, s, events, s')
    ensures Sound(c, s')
    decreases |events|
  {
    if events != [] {
      StepSound(c, s, events[0]);
      RunSound(c, Step(c, s, events[0]), events[1..], s');
    }
  }

  /** Every reachable state of a cluster of any size is sound. */
  lemma ReachableSound(c: Config, s: Cluster)
    requires c.Valid() && Reachable(c, s)
    ensures Sound(c, s)
  {
    var events :| Run(c, Init(c), events, s);
    RunSound(c, Init(c), events, s);
  }
}
