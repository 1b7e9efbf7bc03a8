/**
 With an even number of nodes the number of votes asked for is one short of a majority. This file builds, for every
 such cluster, a run without any loss, restart or partition in which two nodes lead in the same term, and goes on to
 the point where two nodes have committed different entries at the same index.
 */
module RaftEvenCluster {
  import opened RaftTypes
  import opened RaftRules
  import opened RaftCluster
  import opened RaftElection

  // ---- The states on the way

  /** Candidate x of term 1, with an empty log. */
  function Standing(x: NodeId): Node {
    Node(1, x, Store([SENTINEL], 1, x), Candidate, NOBODY, 0, map[], map[])
  }

  /** A node that has only voted, for x in term 1. */
  function Voter(x: NodeId): Node {
    Standing(x).(role := Follower)
  }

  /** The request of candidate x. */
  function Claim(x: NodeId): RequestVote {
    RequestVote(1, x, 0, 0)
  }

  /** The vote of the node in term 1 is gone, to some other node than x. */
  predicate Taken(nd: Node, x: NodeId) {
    nd.currentTerm == 1 && nd.votedFor != NOBODY && nd.votedFor != x
  }

  ghost predicate AllOnline(c: Config, s: Cluster) {
    s.servers.Keys == c.Ids() && s.offline == {}
  }

  ghost predicate Polling(c: Config, s: Cluster, x: NodeId, next: nat, votes: nat) {
    && AllOnline(c, s) && x in c.Ids()
    && next <= |c.peers[x]|
    && s.servers[x] == Server(Standing(x), Requesting(Claim(x), next, votes))
  }

  predicate NotVoted(s: Cluster, p: NodeId) {
    p in s.servers && s.servers[p].node == Fresh()
  }

  /** How many of the peers have not voted. */
  function Undecided(s: Cluster, peers: seq<NodeId>): nat {
    if peers == [] then 0 else (if NotVoted(s, peers[0]) then 1 else 0) + Undecided(s, peers[1..])
  }

  /** The peers can be polled for x: none of them has voted for x already. */
  ghost predicate Pollable(s: Cluster, x: NodeId, peers: seq<NodeId>) {
    forall p :: p in peers ==> p in s.servers && (NotVoted(s, p) || Taken(s.servers[p].node, x))
  }

  /** In s' the undecided peers have voted for x; no other node but x differs. */
  ghost predicate Polled(s: Cluster, s': Cluster, x: NodeId, peers: seq<NodeId>) {
    && s'.servers.Keys == s.servers.Keys
    && forall i :: i in s.servers && i != x ==>
         s'.servers[i] == if i in peers && NotVoted(s, i) then Server(Voter(x), s.servers[i].task) else s.servers[i]
  }

  lemma FreshVotes(p: NodeId, x: NodeId)
    requires x != NOBODY
    ensures HandleRequestVote(p, Fresh(), Claim(x)) == (Voter(x), VoteReply(1, true, p))
  {
  }

  lemma TakenRefuses(p: NodeId, nd: Node, x: NodeId)
    requires Taken(nd, x)
    ensures HandleRequestVote(p, nd, Claim(x)) == (nd, VoteReply(1, false, p))
  {
  }

  /** One vote call: an undecided peer votes for x, a decided one refuses. */
  lemma PollOne(c: Config, s: Cluster, x: NodeId, next: nat, votes: nat) returns (events: seq<Event>, s': Cluster)
    requires c.Valid() && Polling(c, s, x, next, votes) && next < |c.peers[x]|
    requires Pollable(s, x, [c.peers[x][next]])
    ensures Run(c, s, events, s')
    ensures Polling(c, s', x, next + 1, votes + Undecided(s, [c.peers[x][next]]))
    ensures Polled(s, s', x, [c.peers[x][next]])
  {
    var p := c.peers[x][next];
    assert c.ListsOthers(x) && p in [p];
    var nd := s.servers[p].node;
    if NotVoted(s, p) { FreshVotes(p, x); } else { TakenRefuses(p, nd, x); }
    var s1 := Step(c, s, CallVote(x));
    var reply := HandleRequestVote(p, nd, Claim(x)).1;
    assert s1.servers[x] == Server(Standing(x), VoteAnswered(Claim(x), next, votes, reply));
    RunOne(c, s, CallVote(x));
    s' := Step(c, s1, TakeVote(x));
    RunMore(c, s, [CallVote(x)], s1, TakeVote(x));
    events := [CallVote(x)] + [TakeVote(x)];
    assert Undecided(s, [p]) == if NotVoted(s, p) then 1 else 0;
  }

  /** Polling the peers from next to stop collects exactly the undecided ones. */
  lemma {:induction false} Poll(c: Config, s: Cluster, x: NodeId, next: nat, votes: nat, stop: nat)
    returns (events: seq<Event>, s': Cluster, total: nat)
    requires c.Valid() && Polling(c, s, x, next, votes) && next <= stop <= |c.peers[x]|
    requires Pollable(s, x, c.peers[x][next..stop])
    ensures total == votes + Undecided(s, c.peers[x][next..stop])
    ensures Run(c, s, events, s') && Polling(c, s', x, stop, total)
    ensures Polled(s, s', x, c.peers[x][next..stop])
    decreases stop - next
  {
    var peers := c.peers[x];
    if next == stop {
      events, s', total := [], s, votes;
      assert peers[next..stop] == [];
    } else {
      var p, rest := peers[next], peers[next + 1..stop];
      NotAgain(c, x, next, stop);
      var e1, s1 := PollOne(c, s, x, next, votes);
      PolledRest(s, s1, x, p, rest);
      var e2;
      e2, s', total := Poll(c, s1, x, next + 1, votes + Undecided(s, [p]), stop);
      RunThen(c, s, e1, s1, e2, s');
      events := e1 + e2;
      PolledBoth(s, s1, s', x, p, rest);
    }
  }

  lemma NotAgain(c: Config, x: NodeId, next: nat, stop: nat)
    requires c.Valid() && x in c.Ids() && next < stop <= |c.peers[x]|
    ensures c.peers[x][next..stop] == [c.peers[x][next]] + c.peers[x][next + 1..stop]
    ensures c.peers[x][next] !in c.peers[x][next + 1..stop] && x !in c.peers[x][next..stop]
  {
    assert c.ListsOthers(x);
  }

  lemma PolledRest(s: Cluster, s1: Cluster, x: NodeId, p: NodeId, rest: seq<NodeId>)
    requires Pollable(s, x, [p] + rest) && Polled(s, s1, x, [p]) && p !in rest && x !in rest
    ensures Pollable(s1, x, rest) && Undecided(s1, rest) == Undecided(s, rest)
    decreases |rest|
  {
    forall q | q in rest ensures q in s1.servers && s1.servers[q] == s.servers[q] {
      assert q in [p] + rest;
    }
    SameUndecided(s, s1, rest);
  }

  lemma {:induction false} SameUndecided(s: Cluster, s1: Cluster, peers: seq<NodeId>)
    requires forall q :: q in peers ==> NotVoted(s, q) == NotVoted(s1, q)
    ensures Undecided(s, peers) == Undecided(s1, peers)
  {
    if peers != [] {
      SameUndecided(s, s1, peers[1..]);
    }
  }

  lemma PolledBoth(s: Cluster, s1: Cluster, s': Cluster, x: NodeId, p: NodeId, rest: seq<NodeId>)
    requires Polled(s, s1, x, [p]) && Polled(s1, s', x, rest) && p !in rest
    ensures Polled(s, s', x, [p] + rest)
    ensures Undecided(s, [p] + rest) == Undecided(s, [p]) + Undecided(s, rest)
  {
    assert ([p] + rest)[0] == p && ([p] + rest)[1..] == rest;
    assert [p][0] == p && [p][1..] == [];
  }

  /** A node stands for election in term 1. */
  lemma Stand(c: Config, s: Cluster, x: NodeId) returns (events: seq<Event>, s': Cluster)
    requires c.Valid() && AllOnline(c, s) && x in c.Ids() && s.servers[x] == Server(Fresh(), Idle)
    ensures Run(c, s, events, s') && Polling(c, s', x, 0, 1)
    ensures s'.servers == s.servers[x := s'.servers[x]]
  {
    var s1 := Step(c, s, StartElection(x));
    assert s1.servers[x] == Server(Standing(x), Campaigning);
    RunOne(c, s, StartElection(x));
    s' := Step(c, s1, ReadBallot(x));
    RunMore(c, s, [StartElection(x)], s1, ReadBallot(x));
    events := [StartElection(x)] + [ReadBallot(x)];
  }

  /** With enough votes the candidate becomes leader. */
  lemma Win(c: Config, s: Cluster, x: NodeId, votes: nat) returns (s': Cluster)
    requires c.Valid() && x in c.Ids() && Polling(c, s, x, |c.peers[x]|, votes) && votes >= VotesNeeded(c.peers[x])
    ensures Run(c, s, [CloseElection(x)], s')
    ensures AllOnline(c, s')
    ensures s'.servers == s.servers[x := Server(BecomeLeader(x, c.peers[x], Standing(x)), Idle)]
  {
    s' := Step(c, s, CloseElection(x));
    RunOne(c, s, CloseElection(x));
  }

  // ---- Two leaders

  /** Node b is the last peer of a, and the first half - 1 peers of a are its voters. */
  ghost predicate Rivals(c: Config, a: NodeId, b: NodeId, half: nat) {
    && a in c.Ids() && |c.peers[a]| == 2 * half - 1 && half > 0
    && b == c.peers[a][2 * half - 2]
  }

  lemma PickRivals(c: Config) returns (a: NodeId, b: NodeId, half: nat)
    requires c.Valid() && |c.Ids()| % 2 == 0
    ensures Rivals(c, a, b, half)
  {
    a :| a in c.Ids();
    PeersCount(c, a);
    half := |c.Ids()| / 2;
    b := c.peers[a][2 * half - 2];
  }

  lemma RivalsApart(c: Config, a: NodeId, b: NodeId, half: nat)
    requires c.Valid() && Rivals(c, a, b, half)
    ensures b in c.Ids() && a != b && |c.peers[b]| == 2 * half - 1
    ensures b !in c.peers[a][..half - 1] && a !in c.peers[a][..half - 1]
    ensures VotesNeeded(c.peers[a]) == half == VotesNeeded(c.peers[b])
  {
    assert c.ListsOthers(a);
    PeersCount(c, a);
    PeersCount(c, b);
  }

  /** Candidate a polls its first peers; all vote for it. */
  lemma FirstHalf(c: Config, a: NodeId, b: NodeId, half: nat) returns (events: seq<Event>, s: Cluster)
    requires c.Valid() && Rivals(c, a, b, half)
    ensures Run(c, Init(c), events, s) && Polling(c, s, a, half - 1, half)
    ensures b in c.Ids() && a != b && s.servers[b] == Server(Fresh(), Idle)
    ensures FirstVoted(c, s, a, b, half, Fresh())
  {
    var first := c.peers[a][..half - 1];
    var e1, s1 := Stand(c, Init(c), a);
    assert c.peers[a][0..half - 1] == first;
    FirstPollable(c, s1, a, first);
    var e2, total;
    e2, s, total := Poll(c, s1, a, 0, 1, half - 1);
    RivalsApart(c, a, b, half);
    PolledFresh(c, s1, s, a, first);
    RunThen(c, Init(c), e1, s1, e2, s);
    events := e1 + e2;
  }

  lemma FirstPollable(c: Config, s: Cluster, a: NodeId, first: seq<NodeId>)
    requires c.Valid() && a in c.Ids() && first <= c.peers[a] && s.servers.Keys == c.Ids()
    requires s.servers == Init(c).servers[a := s.servers[a]]
    ensures Pollable(s, a, first) && Undecided(s, first) == |first|
    ensures forall i :: i in c.Ids() && i != a ==> s.servers[i] == Server(Fresh(), Idle)
  {
    assert c.ListsOthers(a);
    assert forall p :: p in first ==> NotVoted(s, p);
    AllUndecided(s, first);
  }

  lemma PolledFresh(c: Config, s: Cluster, s': Cluster, a: NodeId, first: seq<NodeId>)
    requires Polled(s, s', a, first) && s.servers.Keys == c.Ids()
    requires forall i :: i in c.Ids() && i != a ==> s.servers[i] == Server(Fresh(), Idle)
    ensures forall i :: i in c.Ids() && i != a ==>
              s'.servers[i] == Server(if i in first then Voter(a) else Fresh(), Idle)
  {
  }

  lemma {:induction false} AllUndecided(s: Cluster, peers: seq<NodeId>)
    requires forall p :: p in peers ==> NotVoted(s, p)
    ensures Undecided(s, peers) == |peers|
  {
    if peers != [] { AllUndecided(s, peers[1..]); }
  }

  lemma {:induction false} NoneUndecided(s: Cluster, peers: seq<NodeId>)
    requires forall p :: p in peers ==> !NotVoted(s, p)
    ensures Undecided(s, peers) == 0
  {
    if peers != [] { NoneUndecided(s, peers[1..]); }
  }

  /** All but the candidates have voted for a if among its first peers, and are as `rest` otherwise. */
  ghost predicate FirstVoted(c: Config, s: Cluster, a: NodeId, b: NodeId, half: nat, rest: Node)
    requires a in c.Ids() && half > 0 && half - 1 <= |c.peers[a]|
  {
    && s.servers.Keys == c.Ids()
    && forall i :: i in c.Ids() && i != a && i != b ==>
         s.servers[i] == Server(if i in c.peers[a][..half - 1] then Voter(a) else rest, Idle)
  }

  /** Candidate b polls everyone; the voters of a and a itself refuse, the others vote for b, which wins. */
  lemma SecondHalf(c: Config, s: Cluster, a: NodeId, b: NodeId, half: nat) returns (events: seq<Event>, s': Cluster)
    requires c.Valid() && Rivals(c, a, b, half) && b in c.Ids() && a != b
    requires Polling(c, s, a, half - 1, half) && s.servers[b] == Server(Fresh(), Idle)
    requires FirstVoted(c, s, a, b, half, Fresh())
    ensures Run(c, s, events, s') && Polling(c, s', a, half - 1, half)
    ensures s'.servers[b] == Server(BecomeLeader(b, c.peers[b], Standing(b)), Idle)
    ensures FirstVoted(c, s', a, b, half, Voter(b))
  {
    assert VotesNeeded(c.peers[b]) == half by { RivalsApart(c, a, b, half); }
    var e1, s1 := SecondPoll(c, s, a, b, half);
    s' := Win(c, s1, b, half);
    RunThen(c, s, e1, s1, [CloseElection(b)], s');
    events := e1 + [CloseElection(b)];
  }

  lemma SecondPoll(c: Config, s: Cluster, a: NodeId, b: NodeId, half: nat) returns (events: seq<Event>, s': Cluster)
    requires c.Valid() && Rivals(c, a, b, half) && b in c.Ids() && a != b
    requires Polling(c, s, a, half - 1, half) && s.servers[b] == Server(Fresh(), Idle)
    requires FirstVoted(c, s, a, b, half, Fresh())
    ensures Run(c, s, events, s') && Polling(c, s', a, half - 1, half)
    ensures Polling(c, s', b, |c.peers[b]|, half)
    ensures FirstVoted(c, s', a, b, half, Voter(b))
  {
    var e1, s1 := Stand(c, s, b);
    StandKeeps(c, s, s1, a, b, half);
    SecondPollable(c, s1, a, b, half);
    var e2;
    e2, s' := PollAll(c, s1, b, half);
    PolledLast(c, s1, s', a, b, half);
    RunThen(c, s, e1, s1, e2, s');
    events := e1 + e2;
  }

  lemma StandKeeps(c: Config, s: Cluster, s1: Cluster, a: NodeId, b: NodeId, half: nat)
    requires a in c.Ids() && half > 0 && half - 1 <= |c.peers[a]| && a != b && b in s.servers && b in s1.servers
    requires Polling(c, s, a, half - 1, half) && FirstVoted(c, s, a, b, half, Fresh())
    requires AllOnline(c, s1) && s1.servers == s.servers[b := s1.servers[b]]
    ensures Polling(c, s1, a, half - 1, half) && FirstVoted(c, s1, a, b, half, Fresh())
  {
  }

  /** A candidate polls all of its peers. */
  lemma PollAll(c: Config, s: Cluster, x: NodeId, votes: nat) returns (events: seq<Event>, s': Cluster)
    requires c.Valid() && Polling(c, s, x, 0, 1) && Pollable(s, x, c.peers[x])
    requires votes == 1 + Undecided(s, c.peers[x])
    ensures Run(c, s, events, s') && Polled(s, s', x, c.peers[x])
    ensures Polling(c, s', x, |c.peers[x]|, votes)
  {
    assert c.peers[x][0..|c.peers[x]|] == c.peers[x];
    var total;
    events, s', total := Poll(c, s, x, 0, 1, |c.peers[x]|);
  }

  lemma SecondPollable(c: Config, s: Cluster, a: NodeId, b: NodeId, half: nat)
    requires c.Valid() && Rivals(c, a, b, half) && b in c.Ids() && a != b
    requires Polling(c, s, a, half - 1, half) && FirstVoted(c, s, a, b, half, Fresh())
    ensures Pollable(s, b, c.peers[b]) && half == 1 + Undecided(s, c.peers[b])
  {
    assert c.ListsOthers(b);
    LastVoters(c, s, a, b, half);
  }

  lemma PolledLast(c: Config, s: Cluster, s': Cluster, a: NodeId, b: NodeId, half: nat)
    requires c.Valid() && a in c.Ids() && b in c.Ids() && a != b && half - 1 <= |c.peers[a]| && half > 0
    requires FirstVoted(c, s, a, b, half, Fresh()) && Polled(s, s', b, c.peers[b])
    requires Polling(c, s, a, half - 1, half) && AllOnline(c, s')
    ensures Polling(c, s', a, half - 1, half) && FirstVoted(c, s', a, b, half, Voter(b))
  {
    assert c.ListsOthers(b);
  }

  /** The second candidate gets all but the two candidates and the voters of the first. */
  lemma LastVoters(c: Config, s: Cluster, a: NodeId, b: NodeId, half: nat)
    requires c.Valid() && Rivals(c, a, b, half) && b in c.Ids() && a != b && s.servers.Keys == c.Ids()
    requires !NotVoted(s, a)
    requires forall i :: i in c.Ids() && i != a && i != b ==> (NotVoted(s, i) <==> i !in c.peers[a][..half - 1])
    ensures Undecided(s, c.peers[b]) == half - 1
  {
    RivalsApart(c, a, b, half);
    PeersCount(c, a);
    assert forall x, y :: 0 <= x < y < |c.peers[a]| ==> c.peers[a][x] != c.peers[a][y] by { assert c.ListsOthers(a); }
    assert forall x, y :: 0 <= x < y < |c.peers[b]| ==> c.peers[b][x] != c.peers[b][y] by { assert c.ListsOthers(b); }
    ElementsCount(c.peers[a][..half - 1]);
    UndecidedCount(s, c.peers[b]);
    var u := set p | p in c.peers[b] && NotVoted(s, p);
    ThreeParts(c, s, a, b, half, u);
    CountParts(c.Ids(), u, Elements(c.peers[a][..half - 1]), a, b);
  }

  lemma ThreeParts(c: Config, s: Cluster, a: NodeId, b: NodeId, half: nat, u: set<NodeId>)
    requires c.Valid() && Rivals(c, a, b, half) && b in c.Ids() && a != b
    requires !NotVoted(s, a)
    requires forall i :: i in c.Ids() && i != a && i != b ==> (NotVoted(s, i) <==> i !in c.peers[a][..half - 1])
    requires u == set p | p in c.peers[b] && NotVoted(s, p)
    ensures var first := Elements(c.peers[a][..half - 1]);
            c.Ids() == u + first + {a, b} && u !! first && {a, b} !! u + first
  {
    var first := Elements(c.peers[a][..half - 1]);
    RivalsApart(c, a, b, half);
    assert c.ListsOthers(a) && c.ListsOthers(b);
    forall i ensures i in c.Ids() <==> i in u + first + {a, b} {}
  }

  lemma CountParts(ids: set<NodeId>, u: set<NodeId>, first: set<NodeId>, a: NodeId, b: NodeId)
    requires ids == u + first + {a, b} && u !! first && {a, b} !! u + first && a != b
    ensures |ids| == |u| + |first| + 2
  {
    assert |{a, b}| == 2;
  }

  ghost function Elements(ps: seq<NodeId>): set<NodeId> {
    set p | p in ps
  }

  lemma ElementsCount(ps: seq<NodeId>)
    requires forall a, b :: 0 <= a < b < |ps| ==> ps[a] != ps[b]
    ensures |Elements(ps)| == |ps|
  {
    DistinctCount(ps);
    assert Elements(ps) == set p | p in ps;
  }

  lemma {:induction false} UndecidedCount(s: Cluster, peers: seq<NodeId>)
    requires forall a, b :: 0 <= a < b < |peers| ==> peers[a] != peers[b]
    ensures Undecided(s, peers) == |set p | p in peers && NotVoted(s, p)|
  {
    if peers == [] {
      assert (set p | p in peers && NotVoted(s, p)) == {};
    } else {
      UndecidedCount(s, peers[1..]);
      UndecidedMore(s, peers);
    }
  }

  lemma UndecidedMore(s: Cluster, peers: seq<NodeId>)
    requires peers != [] && peers[0] !in peers[1..]
    ensures |set p | p in peers && NotVoted(s, p)|
         == |set p | p in peers[1..] && NotVoted(s, p)| + if NotVoted(s, peers[0]) then 1 else 0
  {
    var u, v := set p | p in peers && NotVoted(s, p), set p | p in peers[1..] && NotVoted(s, p);
    assert peers == [peers[0]] + peers[1..];
    assert u == v + if NotVoted(s, peers[0]) then {peers[0]} else {};
  }

  /** Candidate a polls the rest in vain, and wins with the votes it has. */
  lemma FinishFirst(c: Config, s: Cluster, a: NodeId, b: NodeId, half: nat) returns (events: seq<Event>, s': Cluster)
    requires c.Valid() && Rivals(c, a, b, half) && b in c.Ids() && a != b
    requires Polling(c, s, a, half - 1, half)
    requires s.servers[b] == Server(BecomeLeader(b, c.peers[b], Standing(b)), Idle)
    requires FirstVoted(c, s, a, b, half, Voter(b))
    ensures Run(c, s, events, s') && AllOnline(c, s')
    ensures s'.servers == s.servers[a := Server(BecomeLeader(a, c.peers[a], Standing(a)), Idle)]
  {
    assert VotesNeeded(c.peers[a]) == half by { RivalsApart(c, a, b, half); }
    RestTaken(c, s, a, b, half);
    var e1, s1 := PollInVain(c, s, a, half - 1, half);
    s' := Win(c, s1, a, half);
    RunThen(c, s, e1, s1, [CloseElection(a)], s');
    events := e1 + [CloseElection(a)];
  }

  /** Polling peers that have all voted for someone else brings nothing. */
  lemma PollInVain(c: Config, s: Cluster, a: NodeId, next: nat, votes: nat) returns (events: seq<Event>, s': Cluster)
    requires c.Valid() && Polling(c, s, a, next, votes) && Pollable(s, a, c.peers[a][next..])
    requires Undecided(s, c.peers[a][next..]) == 0 && forall p :: p in c.peers[a][next..] ==> !NotVoted(s, p)
    ensures Run(c, s, events, s') && Polling(c, s', a, |c.peers[a]|, votes)
    ensures s'.servers == s.servers[a := s'.servers[a]]
  {
    var n := |c.peers[a]|;
    assert c.peers[a][next..n] == c.peers[a][next..];
    var total;
    events, s', total := Poll(c, s, a, next, votes, n);
    PolledInVain(s, s', a, c.peers[a][next..]);
  }

  lemma PolledInVain(s: Cluster, s': Cluster, a: NodeId, peers: seq<NodeId>)
    requires Polled(s, s', a, peers) && a in s.servers
    requires forall p :: p in peers ==> !NotVoted(s, p)
    ensures s'.servers == s.servers[a := s'.servers[a]]
  {
  }

  lemma RestTaken(c: Config, s: Cluster, a: NodeId, b: NodeId, half: nat)
    requires c.Valid() && Rivals(c, a, b, half) && b in c.Ids() && a != b && s.servers.Keys == c.Ids()
    requires s.servers[b].node == BecomeLeader(b, c.peers[b], Standing(b))
    requires FirstVoted(c, s, a, b, half, Voter(b))
    ensures Pollable(s, a, c.peers[a][half - 1..])
    ensures forall p :: p in c.peers[a][half - 1..] ==> !NotVoted(s, p)
    ensures Undecided(s, c.peers[a][half - 1..]) == 0
  {
    var peers := c.peers[a];
    assert c.ListsOthers(a);
    forall p | p in peers[half - 1..] ensures p in s.servers && Taken(s.servers[p].node, a) {
      var k :| half - 1 <= k < |peers| && peers[k] == p;
      assert p !in peers[..half - 1];
    }
    NoneUndecided(s, peers[half - 1..]);
  }

  /** Nodes a and b lead in term 1; every other node has voted for one of them. */
  ghost predicate Split(c: Config, s: Cluster, a: NodeId, b: NodeId) {
    && AllOnline(c, s) && a in c.Ids() && b in c.Ids() && a != b
    && s.servers[a] == Server(BecomeLeader(a, c.peers[a], Standing(a)), Idle)
    && s.servers[b] == Server(BecomeLeader(b, c.peers[b], Standing(b)), Idle)
    && forall i :: i in c.Ids() && i != a && i != b ==>
         s.servers[i] == Server(Voter(a), Idle) || s.servers[i] == Server(Voter(b), Idle)
  }

  lemma TwoLeaders(c: Config, a: NodeId, b: NodeId, half: nat) returns (events: seq<Event>, s: Cluster)
    requires c.Valid() && Rivals(c, a, b, half)
    ensures Run(c, Init(c), events, s) && Split(c, s, a, b)
    ensures !OneLeaderPerTerm(s)
  {
    RivalsApart(c, a, b, half);
    var e1, s1 := FirstHalf(c, a, b, half);
    var e2, s2 := SecondHalf(c, s1, a, b, half);
    RunThen(c, Init(c), e1, s1, e2, s2);
    var e3;
    e3, s := FinishFirst(c, s2, a, b, half);
    RunThen(c, Init(c), e1 + e2, s2, e3, s);
    events := e1 + e2 + e3;
  }
}
