/**
 More than half of the nodes can elect one of them as leader by themselves, whatever has happened before: they restart
 over their stores, the node of the latest term stands, and if it does not win, the node whose log no other one of them
 is ahead of does.
 */
module RaftElectable {
  import opened RaftTypes
  import opened RaftRules
  import opened RaftCluster
  import opened RaftElection
  import opened RaftSound

  // ---- Runs of a group by itself

  /** The nodes that are online are those of the group. */
  ghost predicate Online(c: Config, s: Cluster, q: set<NodeId>) {
    forall i :: i in c.Ids() ==> (i in s.offline <==> i !in q)
  }

  /** A node of the group acts; it is no restart, no trouble with the network and nothing late. */
  predicate Own(q: set<NodeId>, e: Event) {
    e.i in q && !e.Restart? && !e.Partition? && !e.Heal? && !e.LateVote? && !e.LateAppend?
  }

  predicate AllOwn(q: set<NodeId>, events: seq<Event>) {
    forall k :: 0 <= k < |events| ==> Own(q, events[k])
  }

  ghost predicate Apart(c: Config, s: Cluster, q: set<NodeId>) {
    q <= c.Ids() == s.servers.Keys && Online(c, s, q)
  }

  /** The group goes on by itself: the other nodes stay as they are. */
  ghost predicate Goes(c: Config, q: set<NodeId>, s: Cluster, events: seq<Event>, s': Cluster) {
    && s.servers.Keys == c.Ids() && Apart(c, s', q) && Run(c, s, events, s') && AllOwn(q, events)
    && forall i :: i in c.Ids() && i !in q ==> s'.servers[i] == s.servers[i]
  }

  lemma StepApart(c: Config, q: set<NodeId>, s: Cluster, e: Event)
    requires c.Valid() && Apart(c, s, q) && Enabled(c, s, e) && Own(q, e)
    ensures Apart(c, Step(c, s, e), q)
  {
  }

  lemma OthersStay(c: Config, q: set<NodeId>, s: Cluster, e: Event, i: NodeId)
    requires c.Valid() && Apart(c, s, q) && Enabled(c, s, e) && Own(q, e) && i in c.Ids() && i !in q
    ensures i in Step(c, s, e).servers && Step(c, s, e).servers[i] == s.servers[i]
  {
    assert c.ListsOthers(e.i);
  }

  lemma GoesStep(c: Config, q: set<NodeId>, s: Cluster, e: Event)
    requires c.Valid() && Apart(c, s, q) && Enabled(c, s, e) && Own(q, e)
    ensures Goes(c, q, s, [e], Step(c, s, e))
  {
    StepApart(c, q, s, e);
    RunOne(c, s, e);
    forall i | i in c.Ids() && i !in q ensures Step(c, s, e).servers[i] == s.servers[i] { OthersStay(c, q, s, e, i); }
  }

  lemma GoesThen(c: Config, q: set<NodeId>, s: Cluster, es: seq<Event>, m: Cluster, fs: seq<Event>, t: Cluster)
    requires Goes(c, q, s, es, m) && Goes(c, q, m, fs, t)
    ensures Goes(c, q, s, es + fs, t)
  {
    RunThen(c, s, es, m, fs, t);
  }

  lemma GoesMore(c: Config, q: set<NodeId>, s: Cluster, es: seq<Event>, m: Cluster, e: Event)
    requires c.Valid() && Goes(c, q, s, es, m) && Enabled(c, m, e) && Own(q, e)
    ensures Goes(c, q, s, es + [e], Step(c, m, e))
  {
    GoesStep(c, q, m, e);
    GoesThen(c, q, s, es, m, [e], Step(c, m, e));
  }

  // ---- Gathering the group

  /** An event that separates the group from the rest, or restarts one of the group. */
  predicate Gathers(q: set<NodeId>, e: Event) {
    if e.i in q then e.Heal? || e.Restart? else e.Partition?
  }

  predicate AllGather(q: set<NodeId>, events: seq<Event>) {
    forall k :: 0 <= k < |events| ==> Gathers(q, events[k])
  }

  /** The nodes of d are where they belong, those of the group restarted; nothing else has changed. */
  ghost predicate Gathered(c: Config, q: set<NodeId>, s: Cluster, s': Cluster, d: set<NodeId>) {
    && s.servers.Keys == c.Ids() == s'.servers.Keys
    && (forall i :: i in d ==> (i in s'.offline <==> i !in q))
    && forall i :: i in c.Ids() ==>
         s'.servers[i] == if i in d && i in q then Server(Recover(s.servers[i].node.store), Idle) else s.servers[i]
  }

  lemma GatherMember(c: Config, q: set<NodeId>, s: Cluster, s1: Cluster, d: set<NodeId>, i: NodeId)
    returns (events: seq<Event>, s': Cluster)
    requires Gathered(c, q, s, s1, d) && i in c.Ids() && i !in d && i in q
    ensures Run(c, s1, events, s') && Gathered(c, q, s, s', d + {i}) && AllGather(q, events)
  {
    var s2 := Step(c, s1, Heal(i));
    RunOne(c, s1, Heal(i));
    s' := Step(c, s2, Restart(i));
    RunMore(c, s1, [Heal(i)], s2, Restart(i));
    events := [Heal(i)] + [Restart(i)];
  }

  lemma GatherOutsider(c: Config, q: set<NodeId>, s: Cluster, s1: Cluster, d: set<NodeId>, i: NodeId)
    returns (events: seq<Event>, s': Cluster)
    requires Gathered(c, q, s, s1, d) && i in c.Ids() && i !in d && i !in q
    ensures Run(c, s1, events, s') && Gathered(c, q, s, s', d + {i}) && AllGather(q, events)
  {
    s' := Step(c, s1, Partition(i));
    RunOne(c, s1, Partition(i));
    events := [Partition(i)];
  }

  lemma {:induction false} GatherSome(c: Config, q: set<NodeId>, s: Cluster, d: set<NodeId>)
    returns (events: seq<Event>, s': Cluster)
    requires s.servers.Keys == c.Ids() && d <= c.Ids()
    ensures Run(c, s, events, s') && Gathered(c, q, s, s', d) && AllGather(q, events)
    decreases |d|
  {
    if d == {} {
      events, s' := [], s;
    } else {
      var i :| i in d;
      var e1, s1 := GatherSome(c, q, s, d - {i});
      var e2;
      if i in q {
        e2, s' := GatherMember(c, q, s, s1, d - {i}, i);
      } else {
        e2, s' := GatherOutsider(c, q, s, s1, d - {i}, i);
      }
      assert (d - {i}) + {i} == d;
      RunThen(c, s, e1, s1, e2, s');
      events := e1 + e2;
    }
  }

  /** No node of the group does anything or leads, and none has committed anything since its restart. */
  ghost predicate Quiet(c: Config, s: Cluster, q: set<NodeId>) {
    && Apart(c, s, q)
    && forall p {:trigger s.servers[p]} :: p in q ==>
         s.servers[p].task == Idle && s.servers[p].node.role != Leader && s.servers[p].node.commitIndex == 0
  }

  /** From every state the group can be separated from the rest and restarted. */
  lemma Gather(c: Config, q: set<NodeId>, s: Cluster) returns (events: seq<Event>, s': Cluster)
    requires c.Valid() && q <= c.Ids() == s.servers.Keys
    ensures Run(c, s, events, s') && Quiet(c, s', q) && AllGather(q, events)
    ensures forall i :: i in c.Ids() && i !in q ==> s'.servers[i] == s.servers[i]
    ensures forall i :: i in q ==> s'.servers[i].node.store == s.servers[i].node.store
  {
    events, s' := GatherSome(c, q, s, c.Ids());
  }

  // ---- Who stands

  predicate NotAhead(l: Log, m: Log) {
    UpToDate(LastIndex(m), LastTerm(m), l)
  }

  /** No node of the group has a log that is ahead of x's. */
  predicate Foremost(s: Cluster, q: set<NodeId>, x: NodeId)
    requires q <= s.servers.Keys && x in q
  {
    forall p {:trigger s.servers[p]} :: p in q ==> NotAhead(s.servers[p].node.store.log, s.servers[x].node.store.log)
  }

  predicate Latest(s: Cluster, q: set<NodeId>, x: NodeId)
    requires q <= s.servers.Keys && x in q
  {
    forall p {:trigger s.servers[p]} :: p in q ==> s.servers[p].node.currentTerm <= s.servers[x].node.currentTerm
  }

  lemma AheadOfBoth(k: Log, l: Log, m: Log)
    requires NotAhead(k, l) && NotAhead(l, m)
    ensures NotAhead(k, m)
  {
  }

  lemma {:induction false} SomeForemost(s: Cluster, q: set<NodeId>) returns (x: NodeId)
    requires q <= s.servers.Keys && q != {}
    ensures x in q && Foremost(s, q, x)
    decreases |q|
  {
    var w :| w in q;
    if q == {w} {
      x := w;
    } else {
      var rest := q - {w};
      assert rest != {} && q == rest + {w};
      var y := SomeForemost(s, rest);
      x := if NotAhead(s.servers[y].node.store.log, s.servers[w].node.store.log) then w else y;
      var l, m, k := s.servers[w].node.store.log, s.servers[y].node.store.log, s.servers[x].node.store.log;
      assert NotAhead(m, k) && NotAhead(l, k);
      forall p | p in rest ensures NotAhead(s.servers[p].node.store.log, k) {
        assert NotAhead(s.servers[p].node.store.log, m);
        AheadOfBoth(s.servers[p].node.store.log, m, k);
      }
    }
  }

  lemma {:induction false} SomeLatest(s: Cluster, q: set<NodeId>) returns (x: NodeId)
    requires q <= s.servers.Keys && q != {}
    ensures x in q && Latest(s, q, x)
    decreases |q|
  {
    var w :| w in q;
    if q == {w} {
      x := w;
    } else {
      var rest := q - {w};
      assert rest != {} && q == rest + {w};
      var y := SomeLatest(s, rest);
      x := if s.servers[y].node.currentTerm <= s.servers[w].node.currentTerm then w else y;
    }
  }

  // ---- A campaign

  /** How many of the peers are of the group. */
  function CountIn(q: set<NodeId>, ps: seq<NodeId>): nat {
    if ps == [] then 0 else CountIn(q, ps[..|ps| - 1]) + if ps[|ps| - 1] in q then 1 else 0
  }

  function Members(ps: seq<NodeId>): set<NodeId> {
    set p | p in ps
  }

  lemma MembersMore(ps: seq<NodeId>, p: NodeId)
    ensures Members(ps + [p]) == Members(ps) + {p}
  {
  }

  lemma {:induction false} CountInIs(q: set<NodeId>, ps: seq<NodeId>)
    requires forall a, b :: 0 <= a < b < |ps| ==> ps[a] != ps[b]
    ensures CountIn(q, ps) == |Members(ps) * q|
  {
    if ps == [] {
      assert Members(ps) * q == {};
    } else {
      var init, last := ps[..|ps| - 1], ps[|ps| - 1];
      assert ps == init + [last] && last !in init;
      CountInIs(q, init);
      MembersMore(init, last);
      var before := Members(init) * q;
      if last in q {
        assert Members(ps) * q == before + {last} && last !in before;
      } else {
        assert Members(ps) * q == before;
      }
    }
  }

  /** All but the candidate itself can vote for it. */
  lemma GroupCount(c: Config, q: set<NodeId>, x: NodeId)
    requires c.Valid() && q <= c.Ids() && x in q
    ensures 1 + CountIn(q, c.peers[x]) == |q| && |c.peers[x]| + 1 == |c.Ids()|
  {
    var ps := c.peers[x];
    assert c.ListsOthers(x);
    PeersCount(c, x);
    CountInIs(q, ps);
    assert q == Members(ps) * q + {x};
  }

  /** A node of the group that the candidate has asked, or not yet asked, in its term t. */
  ghost predicate Asked(s0: Cluster, s: Cluster, p: NodeId, t: nat, asked: bool) {
    && p in s0.servers && p in s.servers
    && var was, now := s0.servers[p], s.servers[p];
       if asked then
         && now.task == Idle && now.node.role == Follower && now.node.currentTerm == t
         && now.node.store.log == was.node.store.log && now.node.commitIndex == was.node.commitIndex
       else now == was && was.node.currentTerm < t
  }

  /** Of the group, the first peers have been asked. */
  ghost predicate AskedFirst(c: Config, q: set<NodeId>, s0: Cluster, s: Cluster, x: NodeId, t: nat, next: nat)
    requires x in c.Ids() && next <= |c.peers[x]| && q <= s.servers.Keys
  {
    forall p {:trigger s.servers[p]} :: p in q && p != x ==> Asked(s0, s, p, t, p in c.peers[x][..next])
  }

  /** The candidate has asked its first peers. */
  ghost predicate Canvassing(c: Config, q: set<NodeId>, s0: Cluster, s: Cluster, x: NodeId, nd: Node,
                             next: nat, votes: nat) {
    && Apart(c, s, q) && x in q && next <= |c.peers[x]| && nd.role == Candidate
    && s.servers[x] == Server(nd, Requesting(Candidacy(x, nd), next, votes))
    && AskedFirst(c, q, s0, s, x, nd.currentTerm, next)
  }

  /** A node of an earlier term takes over the candidate's, and votes for it unless its own log is ahead. */
  lemma EarlierNodeVotes(p: NodeId, f: Node, x: NodeId, nd: Node)
    requires f.currentTerm < nd.currentTerm
    ensures var (f', reply) := HandleRequestVote(p, f, Candidacy(x, nd));
            && f'.role == Follower && f'.currentTerm == nd.currentTerm == reply.term
            && f'.store.log == f.store.log && f'.commitIndex == f.commitIndex
            && (reply.voteGranted <==> NotAhead(f.store.log, nd.store.log))
  {
  }

  /** One more peer has been asked, or is not of the group; nothing else has changed about the group. */
  lemma AskedMore(c: Config, q: set<NodeId>, s0: Cluster, s: Cluster, s': Cluster, x: NodeId, t: nat, next: nat)
    requires c.Valid() && x in c.Ids() && next < |c.peers[x]| && q <= s.servers.Keys && q <= s'.servers.Keys
    requires AskedFirst(c, q, s0, s, x, t, next)
    requires forall p :: p in q && p != x && p != c.peers[x][next] ==> s'.servers[p] == s.servers[p]
    requires c.peers[x][next] in q ==> Asked(s0, s', c.peers[x][next], t, true)
    ensures AskedFirst(c, q, s0, s', x, t, next + 1)
  {
    var ps := c.peers[x];
    assert c.ListsOthers(x) && ps[..next + 1] == ps[..next] + [ps[next]];
    forall r | r in q && r != x ensures Asked(s0, s', r, t, r in ps[..next + 1]) {
      assert Asked(s0, s, r, t, r in ps[..next]);
    }
  }

  lemma NotAskedYet(c: Config, q: set<NodeId>, s0: Cluster, s: Cluster, x: NodeId, t: nat, next: nat)
    requires c.Valid() && x in c.Ids() && next < |c.peers[x]| && q <= s.servers.Keys
    requires AskedFirst(c, q, s0, s, x, t, next) && c.peers[x][next] in q
    ensures c.peers[x][next] != x && Asked(s0, s, c.peers[x][next], t, false)
  {
    assert c.ListsOthers(x) && c.peers[x][next] !in c.peers[x][..next];
  }

  lemma CallIs(c: Config, q: set<NodeId>, s: Cluster, x: NodeId, next: nat, votes: nat, v: RequestVote)
    returns (m: Cluster)
    requires c.Valid() && Apart(c, s, q) && x in q && next < |c.peers[x]| && c.peers[x][next] in q
    requires s.servers[x].task == Requesting(v, next, votes)
    ensures Goes(c, q, s, [CallVote(x)], m)
    ensures var p := c.peers[x][next];
            var (f, reply) := HandleRequestVote(p, s.servers[p].node, v);
            p != x && m.servers == s.servers[p := Server(f, s.servers[p].task)]
                                     [x := Server(s.servers[x].node, VoteAnswered(v, next, votes, reply))]
  {
    assert c.ListsOthers(x);
    m := Step(c, s, CallVote(x));
    GoesStep(c, q, s, CallVote(x));
  }

  lemma TakeIs(c: Config, q: set<NodeId>, s: Cluster, x: NodeId, next: nat, votes: nat, v: RequestVote, r: VoteReply)
    returns (m: Cluster)
    requires c.Valid() && Apart(c, s, q) && x in q && s.servers[x].task == VoteAnswered(v, next, votes, r)
    requires s.servers[x].node.role == Candidate && r.term <= s.servers[x].node.currentTerm
    ensures Goes(c, q, s, [TakeVote(x)], m)
    ensures m.servers == s.servers[x := Server(s.servers[x].node,
                                               Requesting(v, next + 1, votes + if r.voteGranted then 1 else 0))]
  {
    m := Step(c, s, TakeVote(x));
    GoesStep(c, q, s, TakeVote(x));
  }

  /** The two events of one call, and what they change. */
  lemma CallAndTake(c: Config, q: set<NodeId>, s: Cluster, x: NodeId, nd: Node, next: nat, votes: nat)
    returns (events: seq<Event>, s': Cluster)
    requires c.Valid() && Apart(c, s, q) && x in q && next < |c.peers[x]| && nd.role == Candidate
    requires s.servers[x] == Server(nd, Requesting(Candidacy(x, nd), next, votes))
    requires c.peers[x][next] in q && s.servers[c.peers[x][next]].node.currentTerm < nd.currentTerm
    ensures Goes(c, q, s, events, s')
    ensures var p := c.peers[x][next];
            var (f, reply) := HandleRequestVote(p, s.servers[p].node, Candidacy(x, nd));
            && p != x && s'.servers == s.servers[p := Server(f, s.servers[p].task)]
                 [x := Server(nd, Requesting(Candidacy(x, nd), next + 1, votes + if reply.voteGranted then 1 else 0))]
  {
    var p, v := c.peers[x][next], Candidacy(x, nd);
    EarlierNodeVotes(p, s.servers[p].node, x, nd);
    var s1 := CallIs(c, q, s, x, next, votes, v);
    s' := TakeIs(c, q, s1, x, next, votes, v, HandleRequestVote(p, s.servers[p].node, v).1);
    GoesThen(c, q, s, [CallVote(x)], s1, [TakeVote(x)], s');
    events := [CallVote(x)] + [TakeVote(x)];
  }

  lemma AskMember(c: Config, q: set<NodeId>, s0: Cluster, s: Cluster, x: NodeId, nd: Node, next: nat, votes: nat)
    returns (events: seq<Event>, s': Cluster, more: nat)
    requires c.Valid() && Canvassing(c, q, s0, s, x, nd, next, votes)
    requires next < |c.peers[x]| && c.peers[x][next] in q && Quiet(c, s0, q)
    ensures Goes(c, q, s, events, s') && Canvassing(c, q, s0, s', x, nd, next + 1, votes + more)
    ensures more == if NotAhead(s0.servers[c.peers[x][next]].node.store.log, nd.store.log) then 1 else 0
  {
    var p := c.peers[x][next];
    NotAskedYet(c, q, s0, s, x, nd.currentTerm, next);
    EarlierNodeVotes(p, s.servers[p].node, x, nd);
    events, s' := CallAndTake(c, q, s, x, nd, next, votes);
    more := if NotAhead(s0.servers[p].node.store.log, nd.store.log) then 1 else 0;
    AskedMore(c, q, s0, s, s', x, nd.currentTerm, next);
  }

  lemma AskOutsider(c: Config, q: set<NodeId>, s0: Cluster, s: Cluster, x: NodeId, nd: Node, next: nat, votes: nat)
    returns (events: seq<Event>, s': Cluster)
    requires c.Valid() && Canvassing(c, q, s0, s, x, nd, next, votes)
    requires next < |c.peers[x]| && c.peers[x][next] !in q
    ensures Goes(c, q, s, events, s') && Canvassing(c, q, s0, s', x, nd, next + 1, votes)
  {
    assert c.ListsOthers(x);
    s' := Step(c, s, MissVote(x));
    GoesStep(c, q, s, MissVote(x));
    events := [MissVote(x)];
    AskedMore(c, q, s0, s, s', x, nd.currentTerm, next);
  }

  lemma AskNext(c: Config, q: set<NodeId>, s0: Cluster, s: Cluster, x: NodeId, nd: Node, next: nat, votes: nat,
                best: bool) returns (events: seq<Event>, s': Cluster, more: nat)
    requires c.Valid() && Canvassing(c, q, s0, s, x, nd, next, votes) && next < |c.peers[x]| && Quiet(c, s0, q)
    requires s0.servers[x].node.store.log == nd.store.log && (best ==> Foremost(s0, q, x))
    ensures Goes(c, q, s, events, s') && Canvassing(c, q, s0, s', x, nd, next + 1, votes + more)
    ensures best ==> more == if c.peers[x][next] in q then 1 else 0
  {
    if c.peers[x][next] in q {
      events, s', more := AskMember(c, q, s0, s, x, nd, next, votes);
    } else {
      events, s' := AskOutsider(c, q, s0, s, x, nd, next, votes);
      more := 0;
    }
  }

  lemma CountNext(q: set<NodeId>, ps: seq<NodeId>, n: nat)
    requires n < |ps|
    ensures CountIn(q, ps[..n + 1]) == CountIn(q, ps[..n]) + if ps[n] in q then 1 else 0
  {
    assert ps[..n + 1][..n] == ps[..n];
  }

  lemma AskOn(c: Config, q: set<NodeId>, s0: Cluster, s: Cluster, es: seq<Event>, m: Cluster, x: NodeId, nd: Node,
              n: nat, votes: nat, best: bool) returns (events: seq<Event>, s': Cluster, now: nat)
    requires c.Valid() && Quiet(c, s0, q) && Goes(c, q, s, es, m) && Canvassing(c, q, s0, m, x, nd, n, votes)
    requires s0.servers[x].node.store.log == nd.store.log && n < |c.peers[x]| && (best ==> Foremost(s0, q, x))
    ensures Goes(c, q, s, events, s') && Canvassing(c, q, s0, s', x, nd, n + 1, now)
    ensures best ==> now == votes + if c.peers[x][n] in q then 1 else 0
  {
    var fs, more;
    fs, s', more := AskNext(c, q, s0, m, x, nd, n, votes, best);
    GoesThen(c, q, s, es, m, fs, s');
    events, now := es + fs, votes + more;
  }

  /** All of the first n peers are asked. */
  lemma {:induction false} AskFirst(c: Config, q: set<NodeId>, s0: Cluster, s: Cluster, x: NodeId, nd: Node, n: nat,
                                    best: bool) returns (events: seq<Event>, s': Cluster, votes: nat)
    requires c.Valid() && Quiet(c, s0, q) && Canvassing(c, q, s0, s, x, nd, 0, 1) && n <= |c.peers[x]|
    requires s0.servers[x].node.store.log == nd.store.log && (best ==> Foremost(s0, q, x))
    ensures Goes(c, q, s, events, s') && Canvassing(c, q, s0, s', x, nd, n, votes)
    ensures best ==> votes == 1 + CountIn(q, c.peers[x][..n])
    decreases n
  {
    if n == 0 {
      events, s', votes := [], s, 1;
    } else {
      var es, m, v := AskFirst(c, q, s0, s, x, nd, n - 1, best);
      CountNext(q, c.peers[x], n - 1);
      events, s', votes := AskOn(c, q, s0, s, es, m, x, nd, n - 1, v, best);
    }
  }

  lemma AskAll(c: Config, q: set<NodeId>, s0: Cluster, s: Cluster, x: NodeId, nd: Node, best: bool)
    returns (events: seq<Event>, s': Cluster, votes: nat)
    requires c.Valid() && Quiet(c, s0, q) && Canvassing(c, q, s0, s, x, nd, 0, 1)
    requires s0.servers[x].node.store.log == nd.store.log && (best ==> Foremost(s0, q, x))
    ensures Goes(c, q, s, events, s') && Canvassing(c, q, s0, s', x, nd, |c.peers[x]|, votes)
    ensures best ==> votes == 1 + CountIn(q, c.peers[x])
  {
    var ps := c.peers[x];
    assert ps[..|ps|] == ps;
    events, s', votes := AskFirst(c, q, s0, s, x, nd, |ps|, best);
  }

  /** What a campaign leaves: all of the group in one term later than before, and with the logs they had. */
  ghost predicate Polled(c: Config, q: set<NodeId>, s0: Cluster, s: Cluster, x: NodeId, t: nat) {
    && Apart(c, s, q) && Quiet(c, s0, q) && x in q
    && forall p {:trigger s.servers[p]} :: p in q ==>
         && s.servers[p].task == Idle && s.servers[p].node.currentTerm == t && s.servers[p].node.commitIndex == 0
         && s0.servers[p].node.currentTerm < t && s.servers[p].node.store.log == s0.servers[p].node.store.log
         && (p != x ==> s.servers[p].node.role == Follower)
  }

  /** The node leads, and is to send every peer what follows its whole log. */
  ghost predicate Heads(c: Config, s: Cluster, x: NodeId)
    requires x in c.Ids() && x in s.servers
  {
    var nd := s.servers[x].node;
    && nd.role == Leader
    && forall p :: p in c.peers[x] ==> p in nd.nextIndex && nd.nextIndex[p] == |nd.store.log|
  }

  lemma Stand(c: Config, q: set<NodeId>, s: Cluster, x: NodeId) returns (events: seq<Event>, s': Cluster)
    requires c.Valid() && Quiet(c, s, q) && x in q && Latest(s, q, x)
    ensures Goes(c, q, s, events, s') && Canvassing(c, q, s, s', x, BecomeCandidate(x, s.servers[x].node), 0, 1)
  {
    var s1 := Step(c, s, StartElection(x));
    GoesStep(c, q, s, StartElection(x));
    s' := Step(c, s1, ReadBallot(x));
    GoesMore(c, q, s, [StartElection(x)], s1, ReadBallot(x));
    events := [StartElection(x)] + [ReadBallot(x)];
    forall p | p in q && p != x ensures Asked(s, s', p, s.servers[x].node.currentTerm + 1, false) {}
  }

  lemma StandAndAsk(c: Config, q: set<NodeId>, s: Cluster, x: NodeId, best: bool)
    returns (events: seq<Event>, s': Cluster, votes: nat)
    requires c.Valid() && Quiet(c, s, q) && x in q && Latest(s, q, x) && (best ==> Foremost(s, q, x))
    ensures Goes(c, q, s, events, s')
    ensures Canvassing(c, q, s, s', x, BecomeCandidate(x, s.servers[x].node), |c.peers[x]|, votes)
    ensures best ==> votes == 1 + CountIn(q, c.peers[x])
  {
    var e1, s1 := Stand(c, q, s, x);
    var e2;
    e2, s', votes := AskAll(c, q, s, s1, x, BecomeCandidate(x, s.servers[x].node), best);
    GoesThen(c, q, s, e1, s1, e2, s');
    events := e1 + e2;
  }

  /** With all peers asked, the election is closed. */
  lemma Close(c: Config, q: set<NodeId>, s: Cluster, s3: Cluster, x: NodeId, votes: nat) returns (s': Cluster)
    requires c.Valid() && Quiet(c, s, q) && x in q
    requires Canvassing(c, q, s, s3, x, BecomeCandidate(x, s.servers[x].node), |c.peers[x]|, votes)
    ensures Goes(c, q, s3, [CloseElection(x)], s')
    ensures var nd := BecomeCandidate(x, s.servers[x].node);
            var won := votes >= VotesNeeded(c.peers[x]);
            s'.servers == s3.servers[x := Server(if won then BecomeLeader(x, c.peers[x], nd) else nd, Idle)]
  {
    s' := Step(c, s3, CloseElection(x));
    GoesStep(c, q, s3, CloseElection(x));
  }

  lemma ClosedIsPolled(c: Config, q: set<NodeId>, s: Cluster, s3: Cluster, s': Cluster, x: NodeId, nd: Node)
    requires c.Valid() && Quiet(c, s, q) && x in q && Latest(s, q, x) && Apart(c, s3, q) && Apart(c, s', q)
    requires nd.currentTerm == s.servers[x].node.currentTerm + 1 && nd.store.log == s.servers[x].node.store.log
    requires nd.commitIndex == 0 && AskedFirst(c, q, s, s3, x, nd.currentTerm, |c.peers[x]|)
    requires s'.servers == s3.servers[x := Server(nd, Idle)]
    ensures Polled(c, q, s, s', x, nd.currentTerm)
  {
    forall p | p in q && p != x ensures Asked(s, s3, p, nd.currentTerm, true) {
      AllAsked(c, q, s, s3, x, p, nd.currentTerm);
    }
  }

  lemma AllAsked(c: Config, q: set<NodeId>, s: Cluster, s3: Cluster, x: NodeId, p: NodeId, t: nat)
    requires c.Valid() && Apart(c, s3, q) && x in q && p in q && p != x
    requires AskedFirst(c, q, s, s3, x, t, |c.peers[x]|)
    ensures Asked(s, s3, p, t, true)
  {
    assert c.ListsOthers(x) && c.peers[x][..|c.peers[x]|] == c.peers[x];
    assert Asked(s, s3, p, t, p in c.peers[x]);
  }

  /** The node of the latest term stands; it wins if no log is ahead of its own. */
  lemma Campaign(c: Config, q: set<NodeId>, s: Cluster, x: NodeId, best: bool)
    returns (events: seq<Event>, s': Cluster, won: bool)
    requires c.Valid() && Quiet(c, s, q) && x in q && Latest(s, q, x) && 2 * |q| > |c.Ids()|
    requires best ==> Foremost(s, q, x)
    ensures Goes(c, q, s, events, s') && Polled(c, q, s, s', x, s.servers[x].node.currentTerm + 1)
    ensures if won then Heads(c, s', x) else s'.servers[x].node.role == Candidate
    ensures best ==> won
  {
    var nd, ps := BecomeCandidate(x, s.servers[x].node), c.peers[x];
    var e2, s2, votes := StandAndAsk(c, q, s, x, best);
    s' := Close(c, q, s, s2, x, votes);
    GoesThen(c, q, s, e2, s2, [CloseElection(x)], s');
    events := e2 + [CloseElection(x)];
    GroupCount(c, q, x);
    won := votes >= VotesNeeded(ps);
    ClosedIsPolled(c, q, s, s2, s', x, if won then BecomeLeader(x, ps, nd) else nd);
  }

  // ---- A leader

  /** A new leader of the group: no log has an entry of its term yet. */
  ghost predicate Led(c: Config, q: set<NodeId>, s: Cluster, z: NodeId, t: nat) {
    && Apart(c, s, q) && z in q && Heads(c, s, z) && t > 0
    && forall p {:trigger s.servers[p]} :: p in q ==>
         && s.servers[p].task == Idle && s.servers[p].node.currentTerm == t && s.servers[p].node.commitIndex == 0
         && TermsUpTo(s.servers[p].node.store.log, t - 1)
         && (p != z ==> s.servers[p].node.role == Follower)
  }

  /** No log of the group has an entry of a later term than its node. */
  ghost predicate Bounded(s: Cluster, q: set<NodeId>)
    requires q <= s.servers.Keys
  {
    forall p {:trigger s.servers[p]} :: p in q ==> TermsUpTo(s.servers[p].node.store.log, s.servers[p].node.currentTerm)
  }

  lemma PolledLed(c: Config, q: set<NodeId>, s0: Cluster, s: Cluster, x: NodeId, t: nat)
    requires Polled(c, q, s0, s, x, t) && Bounded(s0, q)
    ensures Bounded(s, q) && (Heads(c, s, x) ==> Led(c, q, s, x, t))
  {
  }

  /** All of the group are in earlier terms. */
  predicate Earlier(s: Cluster, q: set<NodeId>, t: nat) {
    q <= s.servers.Keys && forall p {:trigger s.servers[p]} :: p in q ==> s.servers[p].node.currentTerm < t
  }

  /** A quiet group of more than half of the nodes elects a leader, in at most two campaigns. */
  lemma Elect(c: Config, q: set<NodeId>, s: Cluster) returns (events: seq<Event>, s': Cluster, z: NodeId, t: nat)
    requires c.Valid() && Quiet(c, s, q) && Bounded(s, q) && 2 * |q| > |c.Ids()|
    ensures Goes(c, q, s, events, s') && Led(c, q, s', z, t) && Earlier(s, q, t)
  {
    var y := SomeLatest(s, q);
    var won;
    events, s', won := Campaign(c, q, s, y, false);
    t := s.servers[y].node.currentTerm + 1;
    PolledLed(c, q, s, s', y, t);
    if won {
      z := y;
    } else {
      var s1 := s';
      assert Quiet(c, s1, q);
      z := SomeForemost(s1, q);
      assert Latest(s1, q, z);
      var e2;
      e2, s', won := Campaign(c, q, s1, z, true);
      GoesThen(c, q, s, events, s1, e2, s');
      events, t := events + e2, t + 1;
      PolledLed(c, q, s1, s', z, t);
      forall p | p in q ensures s.servers[p].node.currentTerm < t { assert s1.servers[p].node.currentTerm == t - 1; }
    }
  }
}
