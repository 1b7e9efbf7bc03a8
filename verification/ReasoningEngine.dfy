/** The reasoning engine over the hypergraph store, with the rules that the rule command builds. */
module ReasoningEngine {
  import opened S = AtomStore
  import opened ForwardChaining
  import O = AtomStoreObject

  /** The names of the live concept nodes. */
  function Concepts(s: Store): set<string> {
    set id | id in s.byId && IsNode(s.byId[id].shape) && s.byId[id].shape.kind == AtomType.Concept
      :: s.byId[id].shape.name
  }

  /** The store after the first n rules of a pass. */
  function Cycle(s: Store, rules: seq<Rule>, n: nat): Store
    requires n <= |rules|
  {
    if n == 0 then s
    else
      var t := Cycle(s, rules, n - 1);
      if GetNode(t, AtomType.Concept, rules[n - 1].ifExists) != Missing
        then AddNode(t, AtomType.Concept, rules[n - 1].thenAdd).0
      else t
  }

  /** The cycles that a run makes: one if nothing fires, else as many as the limit. */
  function Rounds(s: Store, rules: seq<Rule>, maxCycles: nat): nat {
    if Applicable(Concepts(s), rules) then maxCycles else 1
  }

  /** The n-th rule's condition holds when a pass comes to it. */
  predicate Holds(s: Store, rules: seq<Rule>, n: nat)
    requires n < |rules|
  {
    GetNode(Cycle(s, rules, n), AtomType.Concept, rules[n].ifExists) != Missing
  }

  function Cycles(s: Store, rules: seq<Rule>, k: nat): Store {
    if k == 0 then s else Cycle(Cycles(s, rules, k - 1), rules, |rules|)
  }

  lemma ConceptFound(s: Store, name: string)
    requires Agrees(s)
    ensures GetNode(s, AtomType.Concept, name) != Missing <==> name in Concepts(s)
  {
    if GetNode(s, AtomType.Concept, name) != Missing {
      GetNodeIsScan(s, AtomType.Concept, name, GetNode(s, AtomType.Concept, name).id);
    }
    if name in Concepts(s) {
      var id :| id in s.byId && IsNode(s.byId[id].shape) && s.byId[id].shape.kind == AtomType.Concept
                && s.byId[id].shape.name == name;
      GetNodeIsScan(s, AtomType.Concept, name, id);
    }
  }

  lemma NewConcept(s: Store, t: Store, id: nat, name: string)
    requires id !in s.byId && t.byId == s.byId[id := Atom(Shape(AtomType.Concept, name, []), FRESH)]
    ensures Concepts(t) == Concepts(s) + {name}
  {
    assert forall i :: i in s.byId ==> i in t.byId && t.byId[i] == s.byId[i];
    assert IsNode(t.byId[id].shape) && t.byId[id].shape.name == name;
  }

  lemma ConceptAdded(s: Store, name: string)
    requires Agrees(s)
    ensures Concepts(AddNode(s, AtomType.Concept, name).0) == Concepts(s) + {name}
    ensures Agrees(AddNode(s, AtomType.Concept, name).0)
  {
    AddNodeAgrees(s, AtomType.Concept, name);
    if GetNode(s, AtomType.Concept, name) == Missing {
      assert s.nextId !in s.byId;
      NewConcept(s, AddNode(s, AtomType.Concept, name).0, s.nextId, name);
    } else {
      ConceptFound(s, name);
    }
  }

  /** A pass over the store is a pass over its concepts. */
  lemma {:induction false} CycleIsPass(s: Store, rules: seq<Rule>, n: nat)
    requires Agrees(s) && n <= |rules|
    ensures Agrees(Cycle(s, rules, n)) && Concepts(Cycle(s, rules, n)) == Pass(Concepts(s), rules, n)
  {
    if n > 0 {
      var t := Cycle(s, rules, n - 1);
      CycleIsPass(s, rules, n - 1);
      ConceptFound(t, rules[n - 1].ifExists);
      ConceptAdded(t, rules[n - 1].thenAdd);
    }
  }

  lemma {:induction false} CyclesArePasses(s: Store, rules: seq<Rule>, k: nat)
    requires Agrees(s)
    ensures Agrees(Cycles(s, rules, k)) && Concepts(Cycles(s, rules, k)) == Passes(Concepts(s), rules, k)
  {
    if k > 0 {
      CyclesArePasses(s, rules, k - 1);
      CycleIsPass(Cycles(s, rules, k - 1), rules, |rules|);
    }
  }

  // ---- The order of the rules

  predicate ByPriority(rules: seq<Rule>) {
    forall i, j :: 0 <= i < j < |rules| ==> rules[i].priority >= rules[j].priority
  }

  /** A stable sort of sorted rules with one more at the end: it goes behind its equals. */
  function Insert(rules: seq<Rule>, r: Rule): seq<Rule> {
    if rules == [] || rules[|rules| - 1].priority >= r.priority then rules + [r]
    else Insert(rules[..|rules| - 1], r) + [rules[|rules| - 1]]
  }

  lemma {:induction false} InsertKeepsAll(rules: seq<Rule>, r: Rule)
    ensures multiset(Insert(rules, r)) == multiset(rules) + multiset{r}
  {
    if rules != [] && rules[|rules| - 1].priority < r.priority {
      var init, last := rules[..|rules| - 1], rules[|rules| - 1];
      assert rules == init + [last];
      InsertKeepsAll(init, r);
    }
  }

  lemma {:induction false} InsertSorts(rules: seq<Rule>, r: Rule)
    requires ByPriority(rules)
    ensures ByPriority(Insert(rules, r)) && |Insert(rules, r)| == |rules| + 1
    ensures forall i :: 0 <= i <= |rules| ==> Insert(rules, r)[i] in rules || Insert(rules, r)[i] == r
  {
    if rules != [] && rules[|rules| - 1].priority < r.priority {
      InsertSorts(rules[..|rules| - 1], r);
    }
  }

  /** Which rules of a list stay when only those of one priority are looked at. */
  function OfPriority(rules: seq<Rule>, p: real): seq<Rule> {
    if rules == [] then []
    else OfPriority(rules[..|rules| - 1], p) + if rules[|rules| - 1].priority == p then [rules[|rules| - 1]] else []
  }

  lemma OfOneMore(rules: seq<Rule>, r: Rule, p: real)
    ensures OfPriority(rules + [r], p) == OfPriority(rules, p) + if r.priority == p then [r] else []
  {
    assert (rules + [r])[..|rules|] == rules;
  }

  /** Rules of equal priority keep the order in which they were added. */
  lemma {:induction false} InsertIsStable(rules: seq<Rule>, r: Rule, p: real)
    requires ByPriority(rules)
    ensures OfPriority(Insert(rules, r), p) == OfPriority(rules, p) + if r.priority == p then [r] else []
  {
    if rules == [] || rules[|rules| - 1].priority >= r.priority {
      OfOneMore(rules, r, p);
    } else {
      var init, last := rules[..|rules| - 1], rules[|rules| - 1];
      InsertIsStable(init, r, p);
      OfOneMore(Insert(init, r), last, p);
      if r.priority == p { NoneLeft(rules, p); }
    }
  }

  lemma {:induction false} NoneLeft(rules: seq<Rule>, p: real)
    requires ByPriority(rules) && rules != [] && rules[|rules| - 1].priority < p
    ensures rules[|rules| - 1].priority != p
  {
  }

  /** What a run has reached after some cycles that all fired: the store and the number of firings. */
  ghost predicate Reached(s: Store, rules: seq<Rule>, cycle: nat, total: nat, now: Store) {
    && now == Cycles(s, rules, cycle) && total == Firings(Concepts(s), rules, cycle)
    && (cycle > 0 ==> Applicable(Concepts(s), rules))
  }

  /**
   What a run comes to: the store after one cycle if nothing fires, else after as many as the limit, and the firings.
   */
  ghost predicate Ended(s: Store, rules: seq<Rule>, maxCycles: nat, total: nat, now: Store) {
    now == Cycles(s, rules, Rounds(s, rules, maxCycles)) && total == Firings(Concepts(s), rules, maxCycles)
  }

  /** A cycle without a firing is the first, and the only one. */
  lemma QuietRound(s: Store, rules: seq<Rule>, maxCycles: nat, cycle: nat, total: nat, now: Store)
    requires !Applicable(Concepts(s), rules) && cycle == 0 && now == Cycles(s, rules, cycle + 1)
    requires total == Fired(Passes(Concepts(s), rules, cycle), rules, |rules|) == 0
    ensures Ended(s, rules, maxCycles, total, now)
  {
    NoFirings(Concepts(s), rules, maxCycles);
  }

  lemma LastRound(s: Store, rules: seq<Rule>, maxCycles: nat, cycle: nat, total: nat, now: Store)
    requires cycle == maxCycles > 0 && Reached(s, rules, cycle, total, now)
    ensures Ended(s, rules, maxCycles, total, now)
  {
  }

  class Engine {
    const store: O.AtomStore
    var rules: seq<Rule>
    var totalFirings: nat

    constructor (store: O.AtomStore)
      ensures this.store == store && rules == [] && totalFirings == 0
    {
      this.store, rules, totalFirings := store, [], 0;
    }

    method AddRule(r: Rule)
      modifies this`rules
      ensures rules == Insert(old(rules), r)
    {
      var i := |rules|;
      ghost var before := rules;
      assert before[..i] == before && before[i..] == [];
      while i > 0 && rules[i - 1].priority < r.priority
        invariant 0 <= i <= |rules|
        invariant Insert(before, r) == Insert(before[..i], r) + before[i..]
      {
        i := i - 1;
        assert before[..i + 1][..i] == before[..i] && before[i..] == [before[i]] + before[i + 1..];
      }
      rules := rules[..i] + [r] + rules[i..];
    }

    /** Fires, in order, every rule whose condition holds by then; says which. */
    method RunCycle() returns (fired: seq<bool>)
      modifies this`totalFirings, store
      ensures store.State() == Cycle(old(store.State()), rules, |rules|)
      ensures |fired| == |rules| && totalFirings == old(totalFirings) + CountTrue(fired)
      ensures forall n :: 0 <= n < |rules| ==> (fired[n] <==> Holds(old(store.State()), rules, n))
    {
      fired := [];
      ghost var s := store.State();
      for i := 0 to |rules|
        invariant store.State() == Cycle(s, rules, i)
        invariant |fired| == i && totalFirings == old(totalFirings) + CountTrue(fired)
        invariant forall n :: 0 <= n < i ==> (fired[n] <==> Holds(s, rules, n))
      {
        var found := store.GetNode(AtomType.Concept, rules[i].ifExists);
        if found != Missing {
          var id := store.AddNode(AtomType.Concept, rules[i].thenAdd);
          totalFirings := totalFirings + 1;
        }
        CountMore(fired, found != Missing);
        assert found != Missing <==> Holds(s, rules, i);
        assert store.State() == Cycle(s, rules, i + 1);
        fired := fired + [found != Missing];
      }
    }

    /** One cycle of a run, and how many rules fired in it. */
    method RunRound(ghost s: Store, ghost cycle: nat, ghost total: nat) returns (n: nat)
      requires Agrees(s) && Reached(s, rules, cycle, total, store.State())
      modifies this`totalFirings, store
      ensures totalFirings == old(totalFirings) + n
      ensures if n > 0 then Reached(s, rules, cycle + 1, total + n, store.State())
              else cycle == 0 && forall k :: Ended(s, rules, k, total, store.State())
    {
      var fired := RunCycle();
      n := CountFired(fired);
      CycleFires(s, rules, cycle, fired);
      if n == 0 {
        forall k
          ensures Ended(s, rules, k, total, store.State()) { QuietRound(s, rules, k, cycle, total, store.State()); }
      }
    }

    /**
     Repeats the cycle until nothing fires or the limit is reached; 0 is no limit, and then there is an end only if no
     rule is applicable.
     */
    method RunForwardChaining(maxCycles: nat) returns (total: nat)
      requires Agrees(store.State())
      requires maxCycles == 0 ==> !Applicable(Concepts(store.State()), rules)
      modifies this`totalFirings, store
      ensures Ended(old(store.State()), rules, maxCycles, total, store.State())
      ensures total == totalFirings - old(totalFirings)
    {
      total := 0;
      ghost var s, was := store.State(), totalFirings;
      var cycle := 0;
      while cycle < maxCycles || maxCycles == 0
        invariant if maxCycles > 0 then cycle <= maxCycles else cycle == 0
        invariant Reached(s, rules, cycle, total, store.State()) && totalFirings == was + total
        decreases maxCycles - cycle
      {
        var n := RunRound(s, cycle, total);
        total := total + n;
        if n == 0 { return; }
        cycle := cycle + 1;
        if maxCycles > 0 && cycle >= maxCycles { break; }
      }
      LastRound(s, rules, maxCycles, cycle, total, store.State());
    }
  }

  method CountFired(fired: seq<bool>) returns (n: nat)
    ensures n == CountTrue(fired)
  {
    n := 0;
    for i := 0 to |fired|
      invariant n == CountTrue(fired[..i])
    {
      assert fired[..i + 1] == fired[..i] + [fired[i]];
      CountMore(fired[..i], fired[i]);
      if fired[i] { n := n + 1; }
    }
    assert fired[..|fired|] == fired;
  }

  lemma HoldsIs(s: Store, rules: seq<Rule>, n: nat)
    requires Agrees(s) && n < |rules|
    ensures Holds(s, rules, n) <==> rules[n].ifExists in Pass(Concepts(s), rules, n)
  {
    CycleIsPass(s, rules, n);
    ConceptFound(Cycle(s, rules, n), rules[n].ifExists);
  }

  lemma {:induction false} FiredAre(x: set<string>, rules: seq<Rule>, n: nat, fired: seq<bool>)
    requires n <= |rules| == |fired|
    requires forall i :: 0 <= i < |rules| ==> (fired[i] <==> rules[i].ifExists in Pass(x, rules, i))
    ensures CountTrue(fired[..n]) == Fired(x, rules, n)
  {
    if n > 0 {
      FiredAre(x, rules, n - 1, fired);
      assert fired[..n] == fired[..n - 1] + [fired[n - 1]];
      CountMore(fired[..n - 1], fired[n - 1]);
    } else {
      assert fired[..0] == [];
    }
  }

  /** Every cycle of a run fires something if a rule is applicable at the start, and nothing otherwise. */
  lemma CycleFires(s: Store, rules: seq<Rule>, k: nat, fired: seq<bool>)
    requires Agrees(s) && |fired| == |rules|
    requires forall n :: 0 <= n < |rules| ==> (fired[n] <==> Holds(Cycles(s, rules, k), rules, n))
    ensures CountTrue(fired) == Fired(Passes(Concepts(s), rules, k), rules, |rules|)
    ensures CountTrue(fired) > 0 <==> Applicable(Concepts(s), rules)
  {
    var t, x := Cycles(s, rules, k), Concepts(s);
    CyclesArePasses(s, rules, k);
    forall i | 0 <= i < |rules| ensures fired[i] <==> rules[i].ifExists in Pass(Concepts(t), rules, i) {
      HoldsIs(t, rules, i);
    }
    FiredAre(Concepts(t), rules, |rules|, fired);
    assert fired[..|rules|] == fired;
    FiresForever(x, rules, k);
  }

  /** The concepts after a run are those of as many passes as the limit, and the indexes are right. */
  lemma RunIsPasses(s: Store, rules: seq<Rule>, k: nat)
    requires Agrees(s)
    ensures Concepts(Cycles(s, rules, Rounds(s, rules, k))) == Passes(Concepts(s), rules, k)
    ensures Agrees(Cycles(s, rules, Rounds(s, rules, k)))
  {
    CyclesArePasses(s, rules, Rounds(s, rules, k));
    if !Applicable(Concepts(s), rules) {
      NothingHappens(Concepts(s), rules, 1);
      NothingHappens(Concepts(s), rules, k);
    }
  }

  /** A run of at least as many passes as there are rules leaves exactly the closure of the concepts. */
  lemma ChainingReachesClosure(s: Store, rules: seq<Rule>, k: nat)
    requires Agrees(s) && k >= |rules|
    ensures IsClosure(Concepts(s), rules, Concepts(Cycles(s, rules, Rounds(s, rules, k))))
  {
    RunIsPasses(s, rules, k);
    PassesReachClosure(Concepts(s), rules, k);
  }
}
