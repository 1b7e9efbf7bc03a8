/**
 A cluster of two nodes or more goes on as long as more than half of it is there: from every reachable state, with every
 other node away, such a group restarts, elects a leader, takes a command and commits it on all of its nodes.
 */
module RaftRecovery {
  import opened RaftTypes
  import opened RaftRules
  import opened RaftCluster
  import opened RaftElection
  import opened RaftRounds
  import opened RaftSafety
  import opened RaftSound
  import opened RaftSteps
  import opened RaftElectable
  import RaftHistory

  // ---- A leader's log and its followers

  /** A log whose last entry is the only one of the term. */
  predicate OwnLog(l: Log, t: nat) {
    && t > 0 && |l| > 1 && l[0].term == 0 && TermsUpTo(l[..|l| - 1], t - 1)
    && l[|l| - 1].term == t && l[|l| - 1].index == |l| - 1
  }

  /** The log has the leader's last entry in its place. */
  predicate HasLast(l: Log, r: Log) {
    |l| <= |r| && r[|l| - 1] == l[|l| - 1]
  }

  /** The follower has the leader's last entry, and the leader knows. */
  predicate Matched(nd: Node, f: Node, p: NodeId, l: Log) {
    && p in nd.nextIndex && nd.nextIndex[p] == |l| && p in nd.matchIndex && nd.matchIndex[p] == |l| - 1
    && HasLast(l, f.store.log)
  }

  /** The follower has no entry of the term, and is sent what follows the d-th entry or an earlier one. */
  predicate Lagging(nd: Node, f: Node, p: NodeId, l: Log, t: nat, d: nat) {
    && t > 0 && p in nd.nextIndex && 1 <= nd.nextIndex[p] <= d < |l| && TermsUpTo(f.store.log, t - 1)
  }

  predicate Level(nd: Node, f: Node, p: NodeId, l: Log, t: nat, d: nat) {
    f.currentTerm == t && f.store.log[0].term == 0 && (Matched(nd, f, p, l) || Lagging(nd, f, p, l, t, d))
  }

  /** Merging entries that end in the only one of the term makes a log without that term end in it too. */
  lemma {:induction false} MergeEnds(log: Log, pos: nat, entries: seq<LogEntry>, t: nat)
    requires 1 <= pos <= |log| && t > 0 && TermsUpTo(log, t - 1) && log[0].term == 0 && entries != []
    requires TermsUpTo(entries[..|entries| - 1], t - 1)
    requires entries[|entries| - 1].term == t && entries[|entries| - 1].index == pos + |entries| - 1
    ensures var r := Merge(log, pos, entries);
            |r| == pos + |entries| && r[|r| - 1] == entries[|entries| - 1] && r[0].term == 0
    decreases |entries|
  {
    var e, rest := entries[0], entries[1..];
    var next := MergeOne(log, pos, e);
    if rest == [] {
      assert e.(index := pos) == e;
      assert Merge(log, pos, entries) == next;
    } else {
      assert entries[..|entries| - 1][0] == e && entries[..|entries| - 1][1..] == rest[..|rest| - 1];
      MergeEnds(next, pos + 1, rest, t);
    }
  }

  /** What a follower does with the leader's message: take it, unless an entry that it builds on is missing. */
  lemma FollowerTakes(z: NodeId, nd: Node, p: NodeId, f: Node, l: Log, t: nat, d: nat, commit: nat)
    requires nd.store.log == l && OwnLog(l, t) && Level(nd, f, p, l, t, d) && commit < |l|
    ensures var (f', reply) := HandleAppendEntries(p, f, Heartbeat(z, nd, p, t, commit));
            && f'.currentTerm == t == reply.term && f'.store.log[0].term == 0
            && (reply.success ==> HasLast(l, f'.store.log) && reply.matchIndex == |l| - 1 && f'.commitIndex >= commit)
            && (!reply.success ==> f'.store.log == f.store.log && nd.nextIndex[p] > 1 && !Matched(nd, f, p, l))
  {
    var m := Heartbeat(z, nd, p, t, commit);
    var next := nd.nextIndex[p];
    if Matched(nd, f, p, l) {
      assert m.entries == [] && m.prevLogIndex == |l| - 1;
    } else if HasPrevious(f.store.log, m) {
      assert m.entries == l[next..] && m.entries[..|m.entries| - 1] == l[..|l| - 1][next..];
      MergeEnds(f.store.log, next, m.entries, t);
    }
  }

  /** The leader knows the same of the peer. */
  predicate SameFor(nd: Node, nd': Node, r: NodeId) {
    && (r in nd'.nextIndex <==> r in nd.nextIndex) && (r in nd.nextIndex ==> nd'.nextIndex[r] == nd.nextIndex[r])
    && (r in nd'.matchIndex <==> r in nd.matchIndex) && (r in nd.matchIndex ==> nd'.matchIndex[r] == nd.matchIndex[r])
  }

  /** What the leader makes of the reply. */
  lemma LeaderTakes(c: Config, z: NodeId, nd: Node, p: NodeId, l: Log, t: nat, reply: AppendReply)
    requires c.Valid() && z in c.Ids() && nd.role == Leader && nd.currentTerm == t == reply.term && nd.store.log == l
    requires p in nd.nextIndex && nd.commitIndex < |l|
    ensures var nd' := TakeAppendReply(nd, c.peers[z], p, reply);
            && nd'.role == Leader && nd'.currentTerm == t && nd'.store.log == l
            && nd.commitIndex <= nd'.commitIndex < |l|
            && (forall r :: r != p ==> SameFor(nd, nd', r))
            && p in nd'.nextIndex
            && (!reply.success && nd.nextIndex[p] > 1 ==> nd'.nextIndex[p] == nd.nextIndex[p] - 1)
            && (reply.success ==>
                 && p in nd'.matchIndex && nd'.matchIndex[p] == reply.matchIndex
                 && nd'.nextIndex[p] == reply.matchIndex + 1)
  {
    if reply.success {
      var nd1 := nd.(matchIndex := nd.matchIndex[p := reply.matchIndex],
                     nextIndex := nd.nextIndex[p := reply.matchIndex + 1]);
      NewCommitFinds(nd1, c.peers[z], |l| - 1);
    }
  }

  /** Once the leader knows that all of the group have its last entry, the next success commits it. */
  lemma LeaderCommits(c: Config, q: set<NodeId>, z: NodeId, nd: Node, p: NodeId, l: Log, t: nat, reply: AppendReply)
    requires c.Valid() && q <= c.Ids() && z in q && p in q && p != z && 2 * |q| > |c.Ids()|
    requires nd.role == Leader && nd.currentTerm == t == reply.term && nd.store.log == l && OwnLog(l, t)
    requires nd.commitIndex < |l| && reply.success && reply.matchIndex == |l| - 1
    requires forall r :: r in q && r != z && r != p ==> r in nd.matchIndex && nd.matchIndex[r] == |l| - 1
    ensures TakeAppendReply(nd, c.peers[z], p, reply).commitIndex == |l| - 1
  {
    var nd1 := nd.(matchIndex := nd.matchIndex[p := reply.matchIndex],
                   nextIndex := nd.nextIndex[p := reply.matchIndex + 1]);
    NewCommitFinds(nd1, c.peers[z], |l| - 1);
    if nd.commitIndex < |l| - 1 {
      assert c.ListsOthers(z);
      assert q - {z} <= Holders(nd1, c.peers[z], |l| - 1);
      RaftHistory.SubsetSize(q - {z}, Holders(nd1, c.peers[z], |l| - 1));
      CommitIndexIff(c, z, nd1, |l| - 1);
    }
  }

  // ---- One call of a round

  /** The leader is at the given point of its thread. */
  ghost predicate Leads(c: Config, q: set<NodeId>, s: Cluster, z: NodeId, l: Log, t: nat, task: Task) {
    && Apart(c, s, q) && z in q
    && var Server(nd, now) := s.servers[z];
       now == task && nd.role == Leader && nd.currentTerm == t && nd.store.log == l && nd.commitIndex < |l|
  }

  lemma MissIs(c: Config, q: set<NodeId>, s: Cluster, z: NodeId, l: Log, t: nat, commit: nat, next: nat)
    returns (events: seq<Event>, s': Cluster)
    requires c.Valid() && Leads(c, q, s, z, l, t, Beating(t, commit, next))
    requires next < |c.peers[z]| && c.peers[z][next] !in q
    ensures Goes(c, q, s, events, s') && Leads(c, q, s', z, l, t, Beating(t, commit, next + 1))
    ensures s'.servers == s.servers[z := Server(s.servers[z].node, Beating(t, commit, next + 1))]
  {
    assert c.ListsOthers(z);
    var s1 := Step(c, s, BuildAppend(z));
    GoesStep(c, q, s, BuildAppend(z));
    s' := Step(c, s1, MissAppend(z));
    GoesMore(c, q, s, [BuildAppend(z)], s1, MissAppend(z));
    events := [BuildAppend(z)] + [MissAppend(z)];
  }

  lemma BuildIs(c: Config, q: set<NodeId>, s: Cluster, z: NodeId, l: Log, t: nat, commit: nat, next: nat)
    returns (s': Cluster)
    requires c.Valid() && Leads(c, q, s, z, l, t, Beating(t, commit, next)) && next < |c.peers[z]|
    ensures Goes(c, q, s, [BuildAppend(z)], s')
    ensures var nd := s.servers[z].node;
            s'.servers == s.servers[z := Server(nd, Appending(t, commit, next,
                                                              Heartbeat(z, nd, c.peers[z][next], t, commit)))]
  {
    s' := Step(c, s, BuildAppend(z));
    GoesStep(c, q, s, BuildAppend(z));
  }

  lemma CallIs(c: Config, q: set<NodeId>, s: Cluster, z: NodeId, t: nat, commit: nat, next: nat, m: AppendEntries)
    returns (s': Cluster)
    requires c.Valid() && Apart(c, s, q) && z in q && next < |c.peers[z]| && c.peers[z][next] in q
    requires s.servers[z].task == Appending(t, commit, next, m)
    ensures Goes(c, q, s, [CallAppend(z)], s')
    ensures var p := c.peers[z][next];
            var (f, reply) := HandleAppendEntries(p, s.servers[p].node, m);
            p != z && s'.servers == s.servers[p := Server(f, s.servers[p].task)]
                                     [z := Server(s.servers[z].node, AppendAnswered(t, commit, next, m, reply))]
  {
    assert c.ListsOthers(z);
    s' := Step(c, s, CallAppend(z));
    GoesStep(c, q, s, CallAppend(z));
  }

  lemma TakeIs(c: Config, q: set<NodeId>, s: Cluster, z: NodeId, t: nat, commit: nat, next: nat, m: AppendEntries,
               reply: AppendReply) returns (s': Cluster)
    requires c.Valid() && Apart(c, s, q) && z in q && next < |c.peers[z]|
    requires s.servers[z].task == AppendAnswered(t, commit, next, m, reply)
    requires s.servers[z].node.role == Leader && reply.term <= s.servers[z].node.currentTerm
    ensures Goes(c, q, s, [TakeAppend(z)], s')
    ensures s'.servers == s.servers[z := Server(TakeAppendReply(s.servers[z].node, c.peers[z], c.peers[z][next], reply),
                                                Beating(t, commit, next + 1))]
  {
    s' := Step(c, s, TakeAppend(z));
    GoesStep(c, q, s, TakeAppend(z));
  }

  /** The three events of one call to a node of the group, and what they change. */
  lemma BeatIs(c: Config, q: set<NodeId>, s: Cluster, z: NodeId, l: Log, t: nat, commit: nat, next: nat)
    returns (events: seq<Event>, s': Cluster)
    requires c.Valid() && Leads(c, q, s, z, l, t, Beating(t, commit, next))
    requires next < |c.peers[z]| && c.peers[z][next] in q
    requires var nd, p := s.servers[z].node, c.peers[z][next];
             HandleAppendEntries(p, s.servers[p].node, Heartbeat(z, nd, p, t, commit)).1.term == t
    ensures Goes(c, q, s, events, s')
    ensures var nd, p := s.servers[z].node, c.peers[z][next];
            var (f, reply) := HandleAppendEntries(p, s.servers[p].node, Heartbeat(z, nd, p, t, commit));
            p != z && s'.servers == s.servers[p := Server(f, s.servers[p].task)]
                                     [z := Server(TakeAppendReply(nd, c.peers[z], p, reply),
                                                  Beating(t, commit, next + 1))]
  {
    var nd, p := s.servers[z].node, c.peers[z][next];
    var m := Heartbeat(z, nd, p, t, commit);
    assert p != z by { assert c.ListsOthers(z); }
    var s1 := BuildIs(c, q, s, z, l, t, commit, next);
    var s2 := CallIs(c, q, s1, z, t, commit, next, m);
    GoesThen(c, q, s, [BuildAppend(z)], s1, [CallAppend(z)], s2);
    s' := TakeIs(c, q, s2, z, t, commit, next, m, HandleAppendEntries(p, s.servers[p].node, m).1);
    GoesThen(c, q, s, [BuildAppend(z)] + [CallAppend(z)], s2, [TakeAppend(z)], s');
    events := [BuildAppend(z)] + [CallAppend(z)] + [TakeAppend(z)];
  }

  // ---- A round

  function Less(d: nat): nat {
    if d == 0 then 0 else d - 1
  }

  /**
   Where a follower is in a round that began with all of them on level d: once called it is one level further, and if
   there was none left it has heard the commit index, and the leader has committed its whole log.
   */
  ghost predicate Placed(s: Cluster, z: NodeId, p: NodeId, l: Log, t: nat, d: nat, commit: nat, called: bool) {
    && p in s.servers && z in s.servers && s.servers[p].task == Idle
    && var nd, f := s.servers[z].node, s.servers[p].node;
       && Level(nd, f, p, l, t, if called then Less(d) else d)
       && (called && d == 0 ==> nd.commitIndex == |l| - 1 && f.commitIndex >= commit)
  }

  ghost predicate AllPlaced(c: Config, q: set<NodeId>, s: Cluster, z: NodeId, l: Log, t: nat, d: nat, commit: nat,
                            next: nat)
    requires z in c.Ids() && next <= |c.peers[z]|
  {
    forall p {:trigger Placed(s, z, p, l, t, d, commit, p in c.peers[z][..next])} :: p in q && p != z ==>
      Placed(s, z, p, l, t, d, commit, p in c.peers[z][..next])
  }

  lemma PlacedMore(c: Config, q: set<NodeId>, s: Cluster, s': Cluster, z: NodeId, l: Log, t: nat, d: nat, commit: nat,
                   next: nat)
    requires c.Valid() && z in c.Ids() && next < |c.peers[z]| && AllPlaced(c, q, s, z, l, t, d, commit, next)
    requires z in s.servers && z in s'.servers && s.servers[z].node.commitIndex <= s'.servers[z].node.commitIndex < |l|
    requires forall r :: r in q && r != z && r != c.peers[z][next] ==>
               r in s.servers && r in s'.servers && s'.servers[r] == s.servers[r]
               && SameFor(s.servers[z].node, s'.servers[z].node, r)
    requires c.peers[z][next] in q ==> Placed(s', z, c.peers[z][next], l, t, d, commit, true)
    ensures AllPlaced(c, q, s', z, l, t, d, commit, next + 1)
  {
    var ps := c.peers[z];
    assert c.ListsOthers(z) && ps[..next + 1] == ps[..next] + [ps[next]];
    forall r | r in q && r != z ensures Placed(s', z, r, l, t, d, commit, r in ps[..next + 1]) {
      assert Placed(s, z, r, l, t, d, commit, r in ps[..next]);
    }
  }

  /** Once none is left behind, the leader knows that all have its last entry. */
  lemma AllMatched(c: Config, q: set<NodeId>, s: Cluster, z: NodeId, l: Log, t: nat, commit: nat, next: nat)
    requires z in c.Ids() && z in s.servers && next <= |c.peers[z]| && AllPlaced(c, q, s, z, l, t, 0, commit, next)
    ensures forall r :: r in q && r != z ==>
              r in s.servers[z].node.matchIndex && s.servers[z].node.matchIndex[r] == |l| - 1
  {
    forall r | r in q && r != z
      ensures r in s.servers[z].node.matchIndex && s.servers[z].node.matchIndex[r] == |l| - 1
    {
      assert Placed(s, z, r, l, t, 0, commit, r in c.peers[z][..next]);
    }
  }

  /** The leader in the middle of a round. */
  ghost predicate Beats(c: Config, q: set<NodeId>, s: Cluster, z: NodeId, l: Log, t: nat, d: nat, commit: nat,
                        next: nat) {
    && Leads(c, q, s, z, l, t, Beating(t, commit, next)) && next <= |c.peers[z]|
    && AllPlaced(c, q, s, z, l, t, d, commit, next)
  }

  lemma BeatMember(c: Config, q: set<NodeId>, s: Cluster, z: NodeId, l: Log, t: nat, d: nat, commit: nat, next: nat)
    returns (events: seq<Event>, s': Cluster)
    requires c.Valid() && 2 * |q| > |c.Ids()| && OwnLog(l, t) && commit < |l| && d < |l|
    requires Beats(c, q, s, z, l, t, d, commit, next) && next < |c.peers[z]| && c.peers[z][next] in q
    ensures Goes(c, q, s, events, s') && Beats(c, q, s', z, l, t, d, commit, next + 1)
  {
    var nd, p := s.servers[z].node, c.peers[z][next];
    assert c.ListsOthers(z) && p !in c.peers[z][..next];
    assert Placed(s, z, p, l, t, d, commit, p in c.peers[z][..next]);
    var f := s.servers[p].node;
    FollowerTakes(z, nd, p, f, l, t, d, commit);
    var (f', reply) := HandleAppendEntries(p, f, Heartbeat(z, nd, p, t, commit));
    LeaderTakes(c, z, nd, p, l, t, reply);
    if d == 0 {
      AllMatched(c, q, s, z, l, t, commit, next);
      LeaderCommits(c, q, z, nd, p, l, t, reply);
    }
    events, s' := BeatIs(c, q, s, z, l, t, commit, next);
    PlacedMore(c, q, s, s', z, l, t, d, commit, next);
  }

  lemma BeatOutsider(c: Config, q: set<NodeId>, s: Cluster, z: NodeId, l: Log, t: nat, d: nat, commit: nat, next: nat)
    returns (events: seq<Event>, s': Cluster)
    requires c.Valid() && Beats(c, q, s, z, l, t, d, commit, next) && next < |c.peers[z]| && c.peers[z][next] !in q
    ensures Goes(c, q, s, events, s') && Beats(c, q, s', z, l, t, d, commit, next + 1)
  {
    events, s' := MissIs(c, q, s, z, l, t, commit, next);
    PlacedMore(c, q, s, s', z, l, t, d, commit, next);
  }

  lemma {:induction false} BeatFirst(c: Config, q: set<NodeId>, s: Cluster, z: NodeId, l: Log, t: nat, d: nat,
                                     commit: nat, n: nat) returns (events: seq<Event>, s': Cluster)
    requires c.Valid() && 2 * |q| > |c.Ids()| && OwnLog(l, t) && commit < |l| && d < |l|
    requires Beats(c, q, s, z, l, t, d, commit, 0) && n <= |c.peers[z]|
    ensures Goes(c, q, s, events, s') && Beats(c, q, s', z, l, t, d, commit, n)
    decreases n
  {
    if n == 0 {
      events, s' := [], s;
    } else {
      var es, m := BeatFirst(c, q, s, z, l, t, d, commit, n - 1);
      var fs;
      if c.peers[z][n - 1] in q {
        fs, s' := BeatMember(c, q, m, z, l, t, d, commit, n - 1);
      } else {
        fs, s' := BeatOutsider(c, q, m, z, l, t, d, commit, n - 1);
      }
      GoesThen(c, q, s, es, m, fs, s');
      events := es + fs;
    }
  }

  /** Between rounds: all followers are on the level, and have heard the commit index. */
  ghost predicate Rests(c: Config, q: set<NodeId>, s: Cluster, z: NodeId, l: Log, t: nat, d: nat, heard: nat) {
    && Leads(c, q, s, z, l, t, Idle)
    && forall p {:trigger s.servers[p]} :: p in q && p != z ==>
         && s.servers[p].task == Idle && Level(s.servers[z].node, s.servers[p].node, p, l, t, d)
         && s.servers[p].node.commitIndex >= heard
  }

  lemma RoundStarts(c: Config, q: set<NodeId>, s: Cluster, z: NodeId, l: Log, t: nat, d: nat, heard: nat)
    returns (s': Cluster)
    requires c.Valid() && Rests(c, q, s, z, l, t, d, heard)
    ensures Goes(c, q, s, [StartRound(z)], s') && Beats(c, q, s', z, l, t, d, s.servers[z].node.commitIndex, 0)
    ensures s'.servers[z].node == s.servers[z].node
  {
    var commit := s.servers[z].node.commitIndex;
    s' := Step(c, s, StartRound(z));
    GoesStep(c, q, s, StartRound(z));
    forall p | p in q && p != z ensures Placed(s', z, p, l, t, d, commit, p in c.peers[z][..0]) {
      assert s'.servers[p] == s.servers[p];
    }
  }

  lemma RoundEnds(c: Config, q: set<NodeId>, s: Cluster, z: NodeId, l: Log, t: nat, d: nat, commit: nat, p: NodeId)
    returns (s': Cluster)
    requires c.Valid() && z in c.Ids() && p in q && p != z && Beats(c, q, s, z, l, t, d, commit, |c.peers[z]|)
    ensures Goes(c, q, s, [CloseRound(z)], s') && Rests(c, q, s', z, l, t, Less(d), if d == 0 then commit else 0)
    ensures d == 0 ==> s'.servers[z].node.commitIndex == |l| - 1
  {
    var ps := c.peers[z];
    assert c.ListsOthers(z) && ps[..|ps|] == ps;
    s' := Step(c, s, CloseRound(z));
    GoesStep(c, q, s, CloseRound(z));
    forall r | r in q && r != z ensures Placed(s, z, r, l, t, d, commit, true) {
      assert Placed(s, z, r, l, t, d, commit, r in ps);
    }
    assert Placed(s, z, p, l, t, d, commit, true);
  }

  /** A whole round takes every follower one level further, or commits the leader's log and tells all what it had. */
  lemma Round(c: Config, q: set<NodeId>, s: Cluster, z: NodeId, l: Log, t: nat, d: nat, heard: nat)
    returns (events: seq<Event>, s': Cluster)
    requires c.Valid() && 2 * |q| > |c.Ids()| > 1 && OwnLog(l, t) && d < |l| && Rests(c, q, s, z, l, t, d, heard)
    ensures Goes(c, q, s, events, s')
    ensures Rests(c, q, s', z, l, t, Less(d), if d == 0 then s.servers[z].node.commitIndex else 0)
    ensures d == 0 ==> s'.servers[z].node.commitIndex == |l| - 1
  {
    var commit := s.servers[z].node.commitIndex;
    var p := Other(q, z);
    var s1 := RoundStarts(c, q, s, z, l, t, d, heard);
    var e2, s2 := BeatFirst(c, q, s1, z, l, t, d, commit, |c.peers[z]|);
    GoesThen(c, q, s, [StartRound(z)], s1, e2, s2);
    s' := RoundEnds(c, q, s2, z, l, t, d, commit, p);
    GoesThen(c, q, s, [StartRound(z)] + e2, s2, [CloseRound(z)], s');
    events := [StartRound(z)] + e2 + [CloseRound(z)];
  }

  lemma Other(q: set<NodeId>, z: NodeId) returns (p: NodeId)
    requires |q| > 1 && z in q
    ensures p in q && p != z
  {
    assert |q - {z}| > 0;
    p :| p in q - {z};
  }

  lemma {:induction false} Rounds(c: Config, q: set<NodeId>, s: Cluster, z: NodeId, l: Log, t: nat, d: nat)
    returns (events: seq<Event>, s': Cluster)
    requires c.Valid() && 2 * |q| > |c.Ids()| > 1 && OwnLog(l, t) && d < |l| && Rests(c, q, s, z, l, t, d, 0)
    ensures Goes(c, q, s, events, s') && Rests(c, q, s', z, l, t, 0, 0)
    decreases d
  {
    if d == 0 {
      events, s' := [], s;
    } else {
      var es, m := Round(c, q, s, z, l, t, d, 0);
      var fs;
      fs, s' := Rounds(c, q, m, z, l, t, d - 1);
      GoesThen(c, q, s, es, m, fs, s');
      events := es + fs;
    }
  }

  // ---- A command

  /** The new leader takes a command. */
  lemma Takes(c: Config, q: set<NodeId>, s: Cluster, z: NodeId, t: nat, command: string) returns (s': Cluster)
    requires c.Valid() && Led(c, q, s, z, t) && Sound(c, s)
    ensures var l := Append(s.servers[z].node.store.log, LogEntry(t, 0, command));
            OwnLog(l, t) && Goes(c, q, s, [Submit(z, command)], s') && Rests(c, q, s', z, l, t, |l| - 1, 0)
  {
    var l := Append(s.servers[z].node.store.log, LogEntry(t, 0, command));
    assert l[..|l| - 1] == s.servers[z].node.store.log;
    s' := Step(c, s, Submit(z, command));
    GoesStep(c, q, s, Submit(z, command));
    assert c.ListsOthers(z);
    forall p | p in q ensures s.servers[p].node.store.log[0].term == 0 { assert NodeSound(s.servers[p].node); }
  }

  /** On every node of the group, the entry at the index is the command in the term, and is committed. */
  ghost predicate CommittedOn(s: Cluster, q: set<NodeId>, n: nat, e: LogEntry)
    requires q <= s.servers.Keys
  {
    forall p {:trigger s.servers[p]} :: p in q ==>
      var nd := s.servers[p].node;
      n <= nd.commitIndex && n < |nd.store.log| && nd.store.log[n] == e
  }

  /** Two rounds more: the leader commits its log, and tells the others. */
  lemma Confirm(c: Config, q: set<NodeId>, s: Cluster, z: NodeId, l: Log, t: nat)
    returns (events: seq<Event>, s': Cluster)
    requires c.Valid() && 2 * |q| > |c.Ids()| > 1 && OwnLog(l, t) && Rests(c, q, s, z, l, t, 0, 0)
    ensures Goes(c, q, s, events, s') && Rests(c, q, s', z, l, t, 0, |l| - 1)
    ensures s'.servers[z].node.commitIndex == |l| - 1
  {
    var e1, s1 := Round(c, q, s, z, l, t, 0, 0);
    var e2;
    e2, s' := Round(c, q, s1, z, l, t, 0, s.servers[z].node.commitIndex);
    GoesThen(c, q, s, e1, s1, e2, s');
    events := e1 + e2;
  }

  lemma RestsCommitted(c: Config, q: set<NodeId>, s: Cluster, z: NodeId, l: Log, t: nat)
    requires OwnLog(l, t) && Rests(c, q, s, z, l, t, 0, |l| - 1) && s.servers[z].node.commitIndex == |l| - 1
    ensures CommittedOn(s, q, |l| - 1, l[|l| - 1])
  {
  }

  lemma Replicates(c: Config, q: set<NodeId>, s: Cluster, z: NodeId, t: nat, command: string)
    returns (events: seq<Event>, s': Cluster, l: Log)
    requires c.Valid() && 2 * |q| > |c.Ids()| > 1 && Led(c, q, s, z, t) && Sound(c, s)
    ensures l == Append(s.servers[z].node.store.log, LogEntry(t, 0, command)) && OwnLog(l, t)
    ensures Goes(c, q, s, events, s') && Rests(c, q, s', z, l, t, 0, 0)
  {
    l := Append(s.servers[z].node.store.log, LogEntry(t, 0, command));
    var s1 := Takes(c, q, s, z, t, command);
    var e2;
    e2, s' := Rounds(c, q, s1, z, l, t, |l| - 1);
    GoesThen(c, q, s, [Submit(z, command)], s1, e2, s');
    events := [Submit(z, command)] + e2;
  }

  /** A group of more than half of the nodes that leads itself commits a command on all of its nodes. */
  lemma Serves(c: Config, q: set<NodeId>, s: Cluster, z: NodeId, t: nat, command: string)
    returns (events: seq<Event>, s': Cluster, n: nat)
    requires c.Valid() && 2 * |q| > |c.Ids()| > 1 && Led(c, q, s, z, t) && Sound(c, s)
    ensures Goes(c, q, s, events, s') && CommittedOn(s', q, n, LogEntry(t, n, command))
    ensures s'.servers[z].node.role == Leader && s'.servers[z].node.currentTerm == t
  {
    var e1, s1, l := Replicates(c, q, s, z, t, command);
    n := |l| - 1;
    var e2;
    e2, s' := Confirm(c, q, s1, z, l, t);
    GoesThen(c, q, s, e1, s1, e2, s');
    events := e1 + e2;
    RestsCommitted(c, q, s', z, l, t);
  }

  /** Only the group acts, after it has been separated from the rest and restarted. */
  predicate ByGroup(q: set<NodeId>, events: seq<Event>) {
    forall k :: 0 <= k < |events| ==> Gathers(q, events[k]) || Own(q, events[k])
  }

  lemma ByGroupThen(q: set<NodeId>, es: seq<Event>, fs: seq<Event>)
    requires (AllGather(q, es) || ByGroup(q, es)) && AllOwn(q, fs)
    ensures ByGroup(q, es + fs)
  {
  }

  /** The nodes outside the group are as they were. */
  ghost predicate LeftAlone(c: Config, q: set<NodeId>, s: Cluster, s': Cluster) {
    && s.servers.Keys == c.Ids() == s'.servers.Keys
    && forall i {:trigger s'.servers[i]} :: i in c.Ids() && i !in q ==> s'.servers[i] == s.servers[i]
  }

  /** The restarted group, which keeps its terms and is bounded by them. */
  lemma Restarted(c: Config, q: set<NodeId>, s: Cluster) returns (events: seq<Event>, s': Cluster)
    requires c.Valid() && Sound(c, s) && q <= c.Ids()
    ensures Run(c, s, events, s') && AllGather(q, events) && LeftAlone(c, q, s, s')
    ensures Quiet(c, s', q) && Sound(c, s') && Bounded(s', q)
    ensures forall t :: Earlier(s', q, t) ==> Earlier(s, q, t)
  {
    events, s' := Gather(c, q, s);
    RunSound(c, s, events, s');
    forall i | i in q
      ensures TermsUpTo(s'.servers[i].node.store.log, s'.servers[i].node.currentTerm)
      ensures s'.servers[i].node.currentTerm == s.servers[i].node.currentTerm
    {
      assert NodeSound(s.servers[i].node) && NodeSound(s'.servers[i].node);
    }
  }

  lemma GroupElects(c: Config, q: set<NodeId>, s: Cluster)
    returns (events: seq<Event>, s': Cluster, z: NodeId, t: nat)
    requires c.Valid() && Sound(c, s) && q <= c.Ids() && 2 * |q| > |c.Ids()|
    ensures Run(c, s, events, s') && Led(c, q, s', z, t)
    ensures ByGroup(q, events) && LeftAlone(c, q, s, s') && Earlier(s, q, t)
  {
    var e1, s1 := Restarted(c, q, s);
    var e2;
    e2, s', z, t := Elect(c, q, s1);
    RunThen(c, s, e1, s1, e2, s');
    ByGroupThen(q, e1, e2);
    events := e1 + e2;
  }

  /**
   From every reachable state of a cluster of two nodes or more, every group of more than half of the nodes can restart
   and, with the others away, elect a leader and commit a command on all of its nodes.
   */
  lemma Recovers(c: Config, q: set<NodeId>, s: Cluster, command: string)
    returns (events: seq<Event>, s': Cluster, z: NodeId, t: nat, n: nat)
    requires c.Valid() && Reachable(c, s) && q <= c.Ids() && 2 * |q| > |c.Ids()| > 1
    ensures Run(c, s, events, s') && ByGroup(q, events) && LeftAlone(c, q, s, s') && Earlier(s, q, t)
    ensures z in q && s'.servers[z].node.role == Leader && s'.servers[z].node.currentTerm == t
    ensures CommittedOn(s', q, n, LogEntry(t, n, command))
  {
    ReachableSound(c, s);
    var e1, s1;
    e1, s1, z, t := GroupElects(c, q, s);
    RunSound(c, s, e1, s1);
    var e2;
    e2, s', n := Serves(c, q, s1, z, t, command);
    RunThen(c, s, e1, s1, e2, s');
    ByGroupThen(q, e1, e2);
    events := e1 + e2;
  }

  /** The log has all that the node had committed. */
  predicate HasCommitted(nd: Node, l: Log) {
    |CommittedLog(nd)| < |l| && CommittedLog(nd) == l[1..|CommittedLog(nd)| + 1]
  }

  lemma LeaderHasCommitted(c: Config, s: Cluster, events: seq<Event>, s': Cluster, i: NodeId, z: NodeId)
    requires c.Valid() && |c.Ids()| % 2 == 1 && Reachable(c, s) && Run(c, s, events, s')
    requires i in s.servers && z in s'.servers && s'.servers[z].node.role == Leader
    requires s.servers[i].node.currentTerm <= s'.servers[z].node.currentTerm
    ensures HasCommitted(s.servers[i].node, s'.servers[z].node.store.log)
  {
    var l, r := CommittedLog(s.servers[i].node), s'.servers[z].node.store.log;
    if l != [] { LeadersHaveCommitted(c, s, events, s', i, z, |l| - 1); }
    forall k | 0 <= k < |l| ensures r[1..|l| + 1][k] == l[k] { LeadersHaveCommitted(c, s, events, s', i, z, k); }
  }

  /** In clusters of odd size nothing is lost by that: what a node of the group had committed the leader has. */
  lemma RecoversAll(c: Config, q: set<NodeId>, s: Cluster, command: string)
    returns (events: seq<Event>, s': Cluster, z: NodeId, t: nat, n: nat)
    requires c.Valid() && Reachable(c, s) && q <= c.Ids() && 2 * |q| > |c.Ids()| > 1 && |c.Ids()| % 2 == 1
    ensures Run(c, s, events, s') && ByGroup(q, events) && LeftAlone(c, q, s, s')
    ensures z in q && CommittedOn(s', q, n, LogEntry(t, n, command))
    ensures forall i :: i in q ==> HasCommitted(s.servers[i].node, s'.servers[z].node.store.log)
  {
    events, s', z, t, n := Recovers(c, q, s, command);
    forall i | i in q ensures HasCommitted(s.servers[i].node, s'.servers[z].node.store.log) {
      LeaderHasCommitted(c, s, events, s', i, z);
    }
  }

  // ---- A single node

  /** The only node has committed nothing, and nothing has been sent. */
  ghost predicate Uncommitted(c: Config, s: Cluster, i: NodeId) {
    && i in c.Ids() && |c.peers[i]| == 0 && s.servers.Keys == {i} && s.appends == {} && s.votes == {}
    && s.servers[i].node.commitIndex == 0
    && (s.servers[i].task == Idle || s.servers[i].task.Campaigning? || s.servers[i].task.Requesting?
        || s.servers[i].task.Beating?)
  }

  lemma AloneStep(c: Config, s: Cluster, i: NodeId, e: Event)
    requires Uncommitted(c, s, i) && Enabled(c, s, e)
    ensures Uncommitted(c, Step(c, s, e), i)
  {
  }

  lemma {:induction false} AloneRun(c: Config, s: Cluster, i: NodeId, events: seq<Event>, s': Cluster)
    requires Uncommitted(c, s, i) && Run(c, s, events, s')
    ensures Uncommitted(c, s', i)
    decreases |events|
  {
    if events != [] {
      AloneStep(c, s, i, events[0]);
      AloneRun(c, Step(c, s, events[0]), i, events[1..], s');
    }
  }

  /** A cluster of one node never commits anything, as only replies advance the commit index. */
  lemma AloneNeverCommits(c: Config, s: Cluster, i: NodeId)
    requires c.Valid() && |c.Ids()| == 1 && Reachable(c, s) && i in c.Ids()
    ensures i in s.servers && s.servers[i].node.commitIndex == 0
  {
    var events :| Run(c, Init(c), events, s);
    PeersCount(c, i);
    RaftHistory.SubsetSize({i}, c.Ids());
    assert c.Ids() == {i} + (c.Ids() - {i}) && |c.Ids()| == 1 + |c.Ids() - {i}|;
    AloneRun(c, Init(c), i, events, s);
  }
}
