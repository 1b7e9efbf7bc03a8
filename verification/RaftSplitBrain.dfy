/** From two leaders in one term to two nodes that have committed different entries. */
module RaftSplitBrain {
  import opened RaftTypes
  import opened RaftRules
  import opened RaftCluster
  import opened RaftElection
  import opened RaftReplication
  import opened RaftRounds
  import opened RaftSafety
  import opened RaftEvenCluster

  function Entry(command: string): LogEntry {
    LogEntry(1, 1, command)
  }

  /** A log with at most one entry, of term 1. */
  predicate Short(log: Log) {
    log[0] == SENTINEL && (|log| == 1 || (|log| == 2 && log[1].term == 1))
  }

  /** The log is still empty or as it was. */
  predicate SameOrNew(old_: Log, now: Log) {
    Short(now) && (|old_| == 2 ==> now == old_)
  }

  /** Leader a in a round of heartbeats for its one entry; it has called the peers before next. */
  ghost predicate Beats(c: Config, s: Cluster, a: NodeId, x: LogEntry, commit: nat, next: nat) {
    && AllOnline(c, s) && a in c.Ids() && next <= |c.peers[a]| && commit <= 1
    && var Server(nd, task) := s.servers[a];
       && task == Beating(1, commit, next)
       && Leads(c, s, a, x)
       && commit <= nd.commitIndex
  }

  /** Node a leads term 1 with the entry x, and every other node is in term 1 with at most one entry. */
  ghost predicate Leads(c: Config, s: Cluster, a: NodeId, x: LogEntry)
    requires a in s.servers && a in c.Ids() && s.servers.Keys == c.Ids()
  {
    var nd := s.servers[a].node;
    && nd.currentTerm == 1 && nd.role == Leader && nd.store.log == [SENTINEL, x] && x.term == 1 && x.index == 1
    && nd.commitIndex <= 1
    && (forall p {:trigger Follows(s, nd, p)} :: p in c.peers[a] ==> Follows(s, nd, p))
  }

  /** Peer p of the leader nd: its log is short, and full if the leader thinks so. */
  ghost predicate Follows(s: Cluster, nd: Node, p: NodeId) {
    && p in s.servers && p in nd.nextIndex
    && var f := s.servers[p].node;
       && f.currentTerm == 1 && Short(f.store.log) && f.commitIndex < |f.store.log|
       && (nd.nextIndex[p] == 1 || (nd.nextIndex[p] == 2 && |f.store.log| == 2))
  }

  /** What a follower does with the leader's message in either case. */
  lemma FollowerTakes(p: NodeId, f: Node, m: AppendEntries, x: LogEntry)
    requires f.currentTerm == 1 == m.term && Short(f.store.log) && f.commitIndex < |f.store.log|
    requires m.leaderCommit <= 1 && x.term == 1 && x.index == 1
    requires (m.prevLogIndex == 0 && m.prevLogTerm == 0 && m.entries == [x])
             || (m.prevLogIndex == 1 && m.prevLogTerm == 1 && m.entries == [] && |f.store.log| == 2)
    ensures var (f', reply) := HandleAppendEntries(p, f, m);
            && reply == AppendReply(1, true, p, 1)
            && f'.currentTerm == 1 && |f'.store.log| == 2 && SameOrNew(f.store.log, f'.store.log)
            && f'.role == Follower
            && f.commitIndex <= f'.commitIndex <= 1 && m.leaderCommit <= f'.commitIndex
  {
    if m.entries == [x] {
      var l := f.store.log;
      assert Merge(l, 1, [x]) == if |l| == 1 then Append(l, x) else l by {
        assert [x][1..] == [];
        assert x.(index := 1) == x;
      }
    }
  }

  lemma MessageFor(c: Config, s: Cluster, a: NodeId, x: LogEntry, p: NodeId, commit: nat)
    requires a in c.Ids() && s.servers.Keys == c.Ids() && Leads(c, s, a, x) && p in c.peers[a]
    ensures p in s.servers
    ensures var m := Heartbeat(a, s.servers[a].node, p, 1, commit);
            && m.term == 1 && m.leaderCommit == commit
            && ((m.prevLogIndex == 0 && m.prevLogTerm == 0 && m.entries == [x])
                || (m.prevLogIndex == 1 && m.prevLogTerm == 1 && m.entries == []
                    && |s.servers[p].node.store.log| == 2))
  {
    var nd := s.servers[a].node;
    assert Follows(s, nd, p);
    assert nd.store.log[1..] == [x];
  }

  /** The leader's own state after a successful reply of peer p. */
  ghost predicate Credited(c: Config, a: NodeId, nd: Node, p: NodeId, nd': Node)
    requires a in c.Ids()
  {
    && nd'.nextIndex == nd.nextIndex[p := 2]
    && nd'.matchIndex == nd.matchIndex[p := 1]
    && nd.commitIndex <= nd'.commitIndex <= 1
    && nd' == nd.(nextIndex := nd'.nextIndex, matchIndex := nd'.matchIndex, commitIndex := nd'.commitIndex)
    && (nd'.commitIndex == 1 || !Commits(nd', c.peers[a], 1))
  }

  lemma LeaderCredits(c: Config, a: NodeId, nd: Node, p: NodeId)
    requires a in c.Ids() && nd.role == Leader && nd.currentTerm == 1 && |nd.store.log| == 2 && nd.commitIndex <= 1
    ensures Credited(c, a, nd, p, TakeAppendReply(nd, c.peers[a], p, AppendReply(1, true, p, 1)))
  {
    var nd1 := nd.(matchIndex := nd.matchIndex[p := 1], nextIndex := nd.nextIndex[p := 2]);
    NewCommitFinds(nd1, c.peers[a], 1);
    SameCopies(nd1.matchIndex, c.peers[a], 1);
  }

  lemma SameCopies(matchIndex: map<NodeId, nat>, peers: seq<NodeId>, n: nat)
    ensures Copies(matchIndex, peers, n) <= |peers|
  {
  }

  /** What one call of a round does to the other nodes. */
  ghost predicate Called(s: Cluster, s': Cluster, a: NodeId, p: NodeId, commit: nat) {
    && s'.servers.Keys == s.servers.Keys
    && p in s.servers && a in s.servers
    && (forall i :: i in s.servers && i != a && i != p ==> s'.servers[i] == s.servers[i])
    && s'.servers[p].task == s.servers[p].task
    && var f, f' := s.servers[p].node, s'.servers[p].node;
       && f'.currentTerm == 1 && |f'.store.log| == 2 && SameOrNew(f.store.log, f'.store.log)
       && f'.role == Follower
       && f.commitIndex <= f'.commitIndex <= 1 && commit <= f'.commitIndex
  }

  lemma BeatOne(c: Config, s: Cluster, a: NodeId, x: LogEntry, commit: nat, next: nat)
    returns (events: seq<Event>, s': Cluster)
    requires c.Valid() && Beats(c, s, a, x, commit, next) && next < |c.peers[a]|
    ensures Run(c, s, events, s') && Beats(c, s', a, x, commit, next + 1)
    ensures Called(s, s', a, c.peers[a][next], commit)
    ensures Credited(c, a, s.servers[a].node, c.peers[a][next], s'.servers[a].node)
  {
    var nd := s.servers[a].node;
    var p := c.peers[a][next];
    assert c.ListsOthers(a) && Follows(s, nd, p);
    var m := Heartbeat(a, nd, p, 1, commit);
    MessageFor(c, s, a, x, p, commit);
    FollowerTakes(p, s.servers[p].node, m, x);
    LeaderCredits(c, a, nd, p);
    events, s' := BeatEvents(c, s, a, commit, next, m);
    assert Leads(c, s', a, x) by {
      forall q | q in c.peers[a] ensures Follows(s', s'.servers[a].node, q) {
        assert Follows(s, nd, q);
      }
    }
  }

  /** The three events of one call. */
  lemma BeatEvents(c: Config, s: Cluster, a: NodeId, commit: nat, next: nat, m: AppendEntries)
    returns (events: seq<Event>, s': Cluster)
    requires c.Valid() && AllOnline(c, s) && a in c.Ids() && next < |c.peers[a]| && c.peers[a][next] in c.Ids() - {a}
    requires s.servers[a].task == Beating(1, commit, next)
    requires s.servers[a].node.role == Leader && s.servers[a].node.currentTerm == 1
    requires m == Heartbeat(a, s.servers[a].node, c.peers[a][next], 1, commit)
    requires HandleAppendEntries(c.peers[a][next], s.servers[c.peers[a][next]].node, m).1.term == 1
    ensures Run(c, s, events, s') && AllOnline(c, s')
    ensures var nd, p := s.servers[a].node, c.peers[a][next];
            var (f', reply) := HandleAppendEntries(p, s.servers[p].node, m);
            s'.servers == s.servers[p := Server(f', s.servers[p].task)]
                                   [a := Server(TakeAppendReply(nd, c.peers[a], p, reply),
                                                Beating(1, commit, next + 1))]
  {
    var s1 := Step(c, s, BuildAppend(a));
    RunOne(c, s, BuildAppend(a));
    var s2 := Step(c, s1, CallAppend(a));
    RunMore(c, s, [BuildAppend(a)], s1, CallAppend(a));
    s' := Step(c, s2, TakeAppend(a));
    RunMore(c, s, [BuildAppend(a)] + [CallAppend(a)], s2, TakeAppend(a));
    events := [BuildAppend(a)] + [CallAppend(a)] + [TakeAppend(a)];
  }

  /** What a round has done so far, for the peers in `done`. */
  ghost predicate Heard(s: Cluster, s': Cluster, a: NodeId, done: seq<NodeId>, commit: nat) {
    && s'.servers.Keys == s.servers.Keys && a in s.servers
    && (forall p {:trigger HeardBy(s', a, p, commit)} :: p in done ==> HeardBy(s', a, p, commit))
    && (forall i {:trigger Kept(s, s', i)} :: i in s.servers && i != a ==> Kept(s, s', i))
    && s.servers[a].node.commitIndex <= s'.servers[a].node.commitIndex
  }

  ghost predicate HeardBy(s': Cluster, a: NodeId, p: NodeId, commit: nat) {
    && p in s'.servers && a in s'.servers && p != a
    && p in s'.servers[a].node.matchIndex && s'.servers[a].node.matchIndex[p] == 1
    && commit <= s'.servers[p].node.commitIndex && s'.servers[p].node.role == Follower
  }

  ghost predicate Kept(s: Cluster, s': Cluster, i: NodeId) {
    && i in s.servers && i in s'.servers
    && var f, f' := s.servers[i].node, s'.servers[i].node;
       && (f'.store.log == f.store.log || SameOrNew(f.store.log, f'.store.log))
       && f.commitIndex <= f'.commitIndex
       && s'.servers[i].task == s.servers[i].task
  }

  lemma {:induction false} BeatAll(c: Config, s: Cluster, a: NodeId, x: LogEntry, commit: nat, next: nat)
    returns (events: seq<Event>, s': Cluster)
    requires c.Valid() && Beats(c, s, a, x, commit, 0) && next <= |c.peers[a]|
    ensures Run(c, s, events, s') && Beats(c, s', a, x, commit, next)
    ensures Heard(s, s', a, c.peers[a][..next], commit)
    ensures next > 0 ==> s'.servers[a].node.commitIndex == 1 || !Commits(s'.servers[a].node, c.peers[a], 1)
    decreases next
  {
    if next == 0 {
      events, s' := [], s;
    } else {
      var e1, s1 := BeatAll(c, s, a, x, commit, next - 1);
      var e2;
      e2, s' := BeatOne(c, s1, a, x, commit, next - 1);
      RunThen(c, s, e1, s1, e2, s');
      events := e1 + e2;
      HeardMore(c, s, s1, s', a, next - 1, commit);
    }
  }

  lemma HeardMore(c: Config, s: Cluster, s1: Cluster, s': Cluster, a: NodeId, next: nat, commit: nat)
    requires c.Valid() && a in c.Ids() && next < |c.peers[a]| && a in s1.servers && a in s'.servers
    requires Heard(s, s1, a, c.peers[a][..next], commit)
    requires Called(s1, s', a, c.peers[a][next], commit)
    requires Credited(c, a, s1.servers[a].node, c.peers[a][next], s'.servers[a].node)
    ensures Heard(s, s', a, c.peers[a][..next + 1], commit)
  {
    assert c.ListsOthers(a);
    var p := c.peers[a][next];
    assert c.peers[a][..next + 1] == c.peers[a][..next] + [p];
    forall i | i in s.servers && i != a ensures Kept(s, s', i) {
      assert Kept(s, s1, i);
    }
    forall q | q in c.peers[a][..next + 1] ensures HeardBy(s', a, q, commit) {
      if q != p { assert HeardBy(s1, a, q, commit); }
    }
  }

  /** Every other node follows, has heard the commit index that the leader began with, and keeps what it had. */
  ghost predicate Served(s: Cluster, s': Cluster, a: NodeId) {
    a in s.servers && forall i {:trigger ServedOne(s, s', a, i)} :: i in s.servers && i != a ==> ServedOne(s, s', a, i)
  }

  ghost predicate ServedOne(s: Cluster, s': Cluster, a: NodeId, i: NodeId)
    requires a in s.servers
  {
    && Kept(s, s', i)
    && s.servers[a].node.commitIndex <= s'.servers[i].node.commitIndex && s'.servers[i].node.role == Follower
  }

  /** A whole round: every follower hears the commit index, and the leader's own reaches its entry. */
  lemma Round(c: Config, s: Cluster, a: NodeId, x: LogEntry) returns (events: seq<Event>, s': Cluster)
    requires c.Valid() && |c.Ids()| > 1 && AllOnline(c, s) && a in c.Ids()
    requires s.servers[a].task == Idle && Leads(c, s, a, x)
    ensures Run(c, s, events, s') && AllOnline(c, s')
    ensures s'.servers[a].task == Idle && Leads(c, s', a, x) && s'.servers[a].node.commitIndex == 1
    ensures Served(s, s', a)
  {
    var n := |c.peers[a]|;
    var commit := s.servers[a].node.commitIndex;
    PeersCount(c, a);
    var s1 := Step(c, s, StartRound(a));
    RunOne(c, s, StartRound(a));
    assert Leads(c, s1, a, x) by {
      forall q | q in c.peers[a] ensures Follows(s1, s1.servers[a].node, q) {
        assert Follows(s, s.servers[a].node, q);
      }
    }
    var e2, s2 := BeatAll(c, s1, a, x, commit, n);
    RunThen(c, s, [StartRound(a)], s1, e2, s2);
    s' := Step(c, s2, CloseRound(a));
    RunMore(c, s, [StartRound(a)] + e2, s2, CloseRound(a));
    events := [StartRound(a)] + e2 + [CloseRound(a)];
    assert c.peers[a][..n] == c.peers[a];
    RoundDone(c, s, s1, s2, s', a, x, commit);
  }

  lemma RoundDone(c: Config, s: Cluster, s1: Cluster, s2: Cluster, s': Cluster, a: NodeId, x: LogEntry, commit: nat)
    requires c.Valid() && AllOnline(c, s) && AllOnline(c, s1) && a in c.Ids()
    requires s1.servers == s.servers[a := s1.servers[a]] && s1.servers[a].node == s.servers[a].node
    requires Beats(c, s2, a, x, commit, |c.peers[a]|) && Heard(s1, s2, a, c.peers[a], commit)
    requires s2.servers[a].node.commitIndex == 1 || !Commits(s2.servers[a].node, c.peers[a], 1)
    requires commit == s.servers[a].node.commitIndex && |c.peers[a]| > 0
    requires s' == s2.SetTask(a, Idle)
    ensures Leads(c, s', a, x) && s'.servers[a].node.commitIndex == 1
    ensures Served(s, s', a)
  {
    var nd := s2.servers[a].node;
    forall p | p in c.peers[a] ensures p in nd.matchIndex && nd.matchIndex[p] == 1 {
      assert HeardBy(s2, a, p, commit);
    }
    AllCopies(nd.matchIndex, c.peers[a]);
    assert Leads(c, s', a, x) by {
      forall q | q in c.peers[a] ensures Follows(s', nd, q) {
        assert Follows(s2, nd, q) && HeardBy(s2, a, q, commit);
      }
    }
    assert c.ListsOthers(a);
    forall i | i in s.servers && i != a ensures ServedOne(s, s', a, i) {
      assert Kept(s1, s2, i) && HeardBy(s2, a, i, commit);
    }
  }

  lemma {:induction false} AllCopies(matchIndex: map<NodeId, nat>, peers: seq<NodeId>)
    requires forall p :: p in peers ==> p in matchIndex && matchIndex[p] == 1
    ensures Copies(matchIndex, peers, 1) == |peers|
  {
    if peers != [] { AllCopies(matchIndex, peers[1..]); }
  }

  // ---- Two histories

  /** Each of the two leaders takes a command of its own. */
  lemma TwoCommands(c: Config, s: Cluster, a: NodeId, b: NodeId, x: string, y: string)
    returns (events: seq<Event>, s': Cluster)
    requires c.Valid() && Split(c, s, a, b)
    ensures Run(c, s, events, s') && AllOnline(c, s')
    ensures s'.servers[a].task == Idle && Leads(c, s', a, Entry(x))
    ensures s'.servers[b].node.store.log == [SENTINEL, Entry(y)] && s'.servers[b].task == Idle
  {
    var s1 := Step(c, s, Submit(a, x));
    RunOne(c, s, Submit(a, x));
    s' := Step(c, s1, Submit(b, y));
    RunMore(c, s, [Submit(a, x)], s1, Submit(b, y));
    events := [Submit(a, x)] + [Submit(b, y)];
    SplitLeads(c, s, a, b, s', x, y);
  }

  lemma SplitLeads(c: Config, s: Cluster, a: NodeId, b: NodeId, s': Cluster, x: string, y: string)
    requires c.Valid() && Split(c, s, a, b) && s'.servers.Keys == c.Ids()
    requires s'.servers[a].node == SubmitCommand(s.servers[a].node, x).0
    requires s'.servers[b].node == SubmitCommand(s.servers[b].node, y).0
    requires forall i :: i in c.Ids() && i != a && i != b ==> s'.servers[i] == s.servers[i]
    ensures Leads(c, s', a, Entry(x))
  {
    assert c.ListsOthers(a);
    forall p | p in c.peers[a] ensures Follows(s', s'.servers[a].node, p) {}
  }

  /** Every cluster of even size comes to two leaders of term 1 with an entry each. */
  lemma TwoEntries(c: Config, a: NodeId, b: NodeId, half: nat) returns (events: seq<Event>, s: Cluster)
    requires c.Valid() && Rivals(c, a, b, half)
    ensures Run(c, Init(c), events, s) && AllOnline(c, s)
    ensures a in c.Ids() && b in c.Ids() && a != b && |c.Ids()| > 1
    ensures s.servers[a].task == Idle && Leads(c, s, a, Entry("x"))
    ensures s.servers[b].node.store.log == [SENTINEL, Entry("y")] && s.servers[b].task == Idle
  {
    var e1, s1 := TwoLeaders(c, a, b, half);
    var e2;
    e2, s := TwoCommands(c, s1, a, b, "x", "y");
    RunThen(c, Init(c), e1, s1, e2, s);
    events := e1 + e2;
    PeersCount(c, a);
  }

  /** After two rounds of leader a, both a and b have committed index 1, each with its own entry. */
  lemma TwoRounds(c: Config, s: Cluster, a: NodeId, b: NodeId) returns (events: seq<Event>, s': Cluster)
    requires c.Valid() && AllOnline(c, s) && a in c.Ids() && b in c.Ids() && a != b
    requires s.servers[a].task == Idle && Leads(c, s, a, Entry("x"))
    requires |c.Ids()| > 1 && s.servers[b].node.store.log == [SENTINEL, Entry("y")]
    ensures Run(c, s, events, s') && !CommittedLogsAgree(s')
  {
    var e1, s1 := Round(c, s, a, Entry("x"));
    var e2;
    e2, s' := Round(c, s1, a, Entry("x"));
    RunThen(c, s, e1, s1, e2, s');
    events := e1 + e2;
    assert ServedOne(s, s1, a, b) && ServedOne(s1, s', a, b);
    Disagree(s', a, b);
  }

  lemma Diverge(c: Config, a: NodeId, b: NodeId, half: nat) returns (events: seq<Event>, s: Cluster)
    requires c.Valid() && Rivals(c, a, b, half)
    ensures Run(c, Init(c), events, s) && !CommittedLogsAgree(s)
  {
    var e1, s1 := TwoEntries(c, a, b, half);
    var e2;
    e2, s := TwoRounds(c, s1, a, b);
    RunThen(c, Init(c), e1, s1, e2, s);
    events := e1 + e2;
  }

  lemma Disagree(s: Cluster, a: NodeId, b: NodeId)
    requires a in s.servers && b in s.servers
    requires s.servers[a].node.store.log == [SENTINEL, Entry("x")] && s.servers[a].node.commitIndex == 1
    requires s.servers[b].node.store.log == [SENTINEL, Entry("y")] && s.servers[b].node.commitIndex >= 1
    ensures !CommittedLogsAgree(s)
  {
    var la, lb := CommittedLog(s.servers[a].node), CommittedLog(s.servers[b].node);
    assert la == [Entry("x")] && lb == [Entry("y")];
    assert "x"[0] != "y"[0];
    assert la[0] != lb[0];
  }

  // ---- The rival stands again

  /** The second candidacy of b, with its one entry. */
  function Second(b: NodeId): RequestVote {
    RequestVote(2, b, 1, 1)
  }

  /** Candidate b of term 2 has the votes of the peers before next; the others are still in term 1. */
  ghost predicate Repolling(c: Config, s: Cluster, b: NodeId, y: LogEntry, next: nat) {
    && AllOnline(c, s) && b in c.Ids() && next <= |c.peers[b]|
    && var Server(nd, task) := s.servers[b];
       && task == Requesting(Second(b), next, 1 + next)
       && nd.role == Candidate && nd.currentTerm == 2 && nd.store.log == [SENTINEL, y]
       && forall k {:trigger Behind(s, c.peers[b][k])} :: next <= k < |c.peers[b]| ==> Behind(s, c.peers[b][k])
  }

  predicate Behind(s: Cluster, p: NodeId) {
    p in s.servers && s.servers[p].node.currentTerm == 1 && Short(s.servers[p].node.store.log)
  }

  lemma BehindVotes(p: NodeId, nd: Node, b: NodeId)
    requires nd.currentTerm == 1 && Short(nd.store.log)
    ensures HandleRequestVote(p, nd, Second(b)).1 == VoteReply(2, true, p)
  {
  }

  lemma RepollOne(c: Config, s: Cluster, b: NodeId, y: LogEntry, next: nat) returns (events: seq<Event>, s': Cluster)
    requires c.Valid() && Repolling(c, s, b, y, next) && next < |c.peers[b]|
    ensures Run(c, s, events, s') && Repolling(c, s', b, y, next + 1)
  {
    var p := c.peers[b][next];
    assert c.ListsOthers(b) && Behind(s, p);
    BehindVotes(p, s.servers[p].node, b);
    var s1 := Step(c, s, CallVote(b));
    RunOne(c, s, CallVote(b));
    s' := Step(c, s1, TakeVote(b));
    RunMore(c, s, [CallVote(b)], s1, TakeVote(b));
    events := [CallVote(b)] + [TakeVote(b)];
    forall k | next + 1 <= k < |c.peers[b]| ensures Behind(s', c.peers[b][k]) {
      assert Behind(s, c.peers[b][k]);
    }
  }

  lemma {:induction false} RepollAll(c: Config, s: Cluster, b: NodeId, y: LogEntry, next: nat)
    returns (events: seq<Event>, s': Cluster)
    requires c.Valid() && Repolling(c, s, b, y, next)
    ensures Run(c, s, events, s') && Repolling(c, s', b, y, |c.peers[b]|)
    decreases |c.peers[b]| - next
  {
    if next == |c.peers[b]| {
      events, s' := [], s;
    } else {
      var e1, s1 := RepollOne(c, s, b, y, next);
      var e2;
      e2, s' := RepollAll(c, s1, b, y, next + 1);
      RunThen(c, s, e1, s1, e2, s');
      events := e1 + e2;
    }
  }

  /** The rival is idle and no leader, and every other node is in term 1 with at most one entry. */
  ghost predicate CanStand(c: Config, s: Cluster, b: NodeId, y: LogEntry) {
    && AllOnline(c, s) && b in c.Ids() && s.servers[b].task == Idle && y.term == 1
    && var nd := s.servers[b].node;
       && nd.role == Follower && nd.currentTerm == 1 && nd.store.log == [SENTINEL, y]
       && forall p {:trigger Behind(s, p)} :: p in c.peers[b] ==> Behind(s, p)
  }

  /** The rival is elected in term 2 with its own entry and without the committed one. */
  lemma StandAgain(c: Config, s: Cluster, b: NodeId, y: LogEntry) returns (events: seq<Event>, s': Cluster)
    requires c.Valid() && CanStand(c, s, b, y)
    ensures Run(c, s, events, s') && b in s'.servers
    ensures var nd := s'.servers[b].node; nd.role == Leader && nd.currentTerm == 2 && nd.store.log == [SENTINEL, y]
  {
    assert c.ListsOthers(b);
    var s1 := Step(c, s, StartElection(b));
    RunOne(c, s, StartElection(b));
    var s2 := Step(c, s1, ReadBallot(b));
    RunMore(c, s, [StartElection(b)], s1, ReadBallot(b));
    forall k | 0 <= k < |c.peers[b]| ensures Behind(s2, c.peers[b][k]) { assert Behind(s, c.peers[b][k]); }
    var e3, s3 := RepollAll(c, s2, b, y, 0);
    RunThen(c, s, [StartElection(b)] + [ReadBallot(b)], s2, e3, s3);
    s' := Step(c, s3, CloseElection(b));
    RunMore(c, s, [StartElection(b)] + [ReadBallot(b)] + e3, s3, CloseElection(b));
    events := [StartElection(b)] + [ReadBallot(b)] + e3 + [CloseElection(b)];
  }

  /** Leader a commits its entry; the rival, with another one in its place, follows it and could stand. */
  lemma FirstCommit(c: Config, a: NodeId, b: NodeId, half: nat) returns (s: Cluster)
    requires c.Valid() && Rivals(c, a, b, half)
    ensures Reachable(c, s) && CanStand(c, s, b, Entry("y"))
    ensures a in c.Ids() && Leads(c, s, a, Entry("x")) && s.servers[a].node.commitIndex == 1
  {
    var e1, s1 := TwoEntries(c, a, b, half);
    var e2;
    e2, s := Round(c, s1, a, Entry("x"));
    RunThen(c, Init(c), e1, s1, e2, s);
    assert ServedOne(s1, s, a, b);
    RivalCanStand(c, s1, s, a, b);
  }

  /** So b comes to lead in term 2 without what a had committed in term 1. */
  lemma Overtake(c: Config, a: NodeId, b: NodeId, half: nat) returns (s: Cluster, events: seq<Event>, s': Cluster)
    requires c.Valid() && Rivals(c, a, b, half)
    ensures Reachable(c, s) && Run(c, s, events, s') && !Complete(s, s')
  {
    s := FirstCommit(c, a, b, half);
    events, s' := StandAgain(c, s, b, Entry("y"));
    Lost(s, s', a, b);
  }

  lemma RivalCanStand(c: Config, s: Cluster, s': Cluster, a: NodeId, b: NodeId)
    requires c.Valid() && AllOnline(c, s') && a in c.Ids() && b in c.Ids() && a != b
    requires Leads(c, s', a, Entry("x")) && Kept(s, s', b) && s'.servers[b].node.role == Follower
    requires s.servers[b].node.store.log == [SENTINEL, Entry("y")] && s.servers[b].task == Idle
    ensures CanStand(c, s', b, Entry("y"))
  {
    assert c.ListsOthers(a) && c.ListsOthers(b);
    forall p | p in c.Ids() && p != b ensures Behind(s', p) {
      if p != a { assert Follows(s', s'.servers[a].node, p); }
    }
    assert Follows(s', s'.servers[a].node, b);
  }

  lemma Lost(s: Cluster, s': Cluster, a: NodeId, b: NodeId)
    requires a in s.servers && b in s'.servers
    requires var nd := s.servers[a].node;
             nd.store.log == [SENTINEL, Entry("x")] && nd.commitIndex == 1 && nd.currentTerm == 1
    requires var nd := s'.servers[b].node;
             nd.role == Leader && nd.currentTerm == 2 && nd.store.log == [SENTINEL, Entry("y")]
    ensures !Complete(s, s')
  {
    assert CommittedLog(s.servers[a].node) == [Entry("x")];
    assert "x"[0] != "y"[0];
    assert s'.servers[b].node.store.log[0 + 1] != CommittedLog(s.servers[a].node)[0];
    assert !CompleteFor(s.servers[a].node, s'.servers[b].node);
  }

  // ---- The exact condition

  /** Election safety holds in every reachable state exactly when the number of nodes is odd. */
  lemma ElectionSafetyIffOdd(c: Config)
    requires c.Valid()
    ensures (forall s :: Reachable(c, s) ==> OneLeaderPerTerm(s)) <==> |c.Ids()| % 2 == 1
  {
    if |c.Ids()| % 2 == 1 {
      forall s | Reachable(c, s) ensures OneLeaderPerTerm(s) { ElectionSafety(c, s); }
    } else {
      var a, b, half := PickRivals(c);
      var events, s := TwoLeaders(c, a, b, half);
      assert Reachable(c, s);
    }
  }

  /** State machine safety holds in every reachable state exactly when the number of nodes is odd. */
  lemma StateMachineSafetyIffOdd(c: Config)
    requires c.Valid()
    ensures (forall s :: Reachable(c, s) ==> CommittedLogsAgree(s)) <==> |c.Ids()| % 2 == 1
  {
    if |c.Ids()| % 2 == 1 {
      forall s | Reachable(c, s) ensures CommittedLogsAgree(s) { StateMachineSafety(c, s); }
    } else {
      var a, b, half := PickRivals(c);
      var events, s := Diverge(c, a, b, half);
      assert Reachable(c, s);
    }
  }

  ghost predicate LogsMatch(s: Cluster) {
    forall i, j :: i in s.servers && j in s.servers ==>
      Matching(s.servers[i].node.store.log, s.servers[j].node.store.log)
  }

  lemma Unmatched(s: Cluster, a: NodeId, b: NodeId)
    requires a in s.servers && s.servers[a].node.store.log == [SENTINEL, Entry("x")]
    requires b in s.servers && s.servers[b].node.store.log == [SENTINEL, Entry("y")]
    ensures !LogsMatch(s)
  {
    var l, r := s.servers[a].node.store.log, s.servers[b].node.store.log;
    assert "x"[0] != "y"[0];
    assert l[1].term == r[1].term && l[1] != r[1];
    assert !Matching(l, r);
  }

  /** Log matching holds in every reachable state exactly when the number of nodes is odd. */
  lemma LogMatchingIffOdd(c: Config)
    requires c.Valid()
    ensures (forall s :: Reachable(c, s) ==> LogsMatch(s)) <==> |c.Ids()| % 2 == 1
  {
    if |c.Ids()| % 2 == 1 {
      forall s | Reachable(c, s) ensures LogsMatch(s) {
        forall i, j | i in s.servers && j in s.servers
          ensures Matching(s.servers[i].node.store.log, s.servers[j].node.store.log)
        {
          LogMatching(c, s, i, j);
        }
      }
    } else {
      var a, b, half := PickRivals(c);
      var events, s := TwoEntries(c, a, b, half);
      Unmatched(s, a, b);
      assert Reachable(c, s);
    }
  }

  /** The log begins with the committed entries, after its sentinel. */
  predicate Includes(log: Log, committed: seq<LogEntry>) {
    |committed| < |log| && forall k :: 0 <= k < |committed| ==> log[k + 1] == committed[k]
  }

  /** Every leader of s' has what any node of s, in its term or an earlier one, had committed. */
  ghost predicate Complete(s: Cluster, s': Cluster) {
    forall i, j {:trigger s.servers[i], s'.servers[j]} :: i in s.servers && j in s'.servers ==>
      CompleteFor(s.servers[i].node, s'.servers[j].node)
  }

  predicate CompleteFor(a: Node, b: Node) {
    b.role == Leader && a.currentTerm <= b.currentTerm ==> Includes(b.store.log, CommittedLog(a))
  }

  ghost predicate AlwaysComplete(c: Config) {
    forall s, events, s' {:trigger Run(c, s, events, s')} ::
      Reachable(c, s) && Run(c, s, events, s') ==> Complete(s, s')
  }

  /** Leaders have all that was ever committed, in every run, exactly when the number of nodes is odd. */
  lemma LeaderCompletenessIffOdd(c: Config)
    requires c.Valid()
    ensures AlwaysComplete(c) <==> |c.Ids()| % 2 == 1
  {
    if |c.Ids()| % 2 == 1 {
      forall s, events, s' | Reachable(c, s) && Run(c, s, events, s') ensures Complete(s, s') {
        OddComplete(c, s, events, s');
      }
    } else {
      var a, b, half := PickRivals(c);
      var s, events, s' := Overtake(c, a, b, half);
      assert Run(c, s, events, s');
    }
  }

  lemma OddComplete(c: Config, s: Cluster, events: seq<Event>, s': Cluster)
    requires c.Valid() && |c.Ids()| % 2 == 1 && Reachable(c, s) && Run(c, s, events, s')
    ensures Complete(s, s')
  {
    forall i, j | i in s.servers && j in s'.servers ensures CompleteFor(s.servers[i].node, s'.servers[j].node) {
      var a, b := s.servers[i].node, s'.servers[j].node;
      if b.role == Leader && a.currentTerm <= b.currentTerm {
        forall k | 0 <= k < |CommittedLog(a)|
          ensures k + 1 < |b.store.log| && b.store.log[k + 1] == CommittedLog(a)[k]
        {
          LeadersHaveCommitted(c, s, events, s', i, j, k);
        }
        if CommittedLog(a) != [] { LeadersHaveCommitted(c, s, events, s', i, j, |CommittedLog(a)| - 1); }
      }
    }
  }
}
