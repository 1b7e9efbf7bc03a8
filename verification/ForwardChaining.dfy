/** What passes of if-exists-then-add rules make of a set of concepts. */
module ForwardChaining {
  datatype Rule = Rule(name: string, ifExists: string, thenAdd: string, priority: real)

  /** The concepts after the first n rules of a pass: each rule sees what the rules before it added. */
  function Pass(x: set<string>, rules: seq<Rule>, n: nat): set<string>
    requires n <= |rules|
  {
    if n == 0 then x
    else
      var y := Pass(x, rules, n - 1);
      if rules[n - 1].ifExists in y then y + {rules[n - 1].thenAdd} else y
  }

  /** How many of the first n rules fire in a pass. */
  function Fired(x: set<string>, rules: seq<Rule>, n: nat): nat
    requires n <= |rules|
  {
    if n == 0 then 0
    else Fired(x, rules, n - 1) + if rules[n - 1].ifExists in Pass(x, rules, n - 1) then 1 else 0
  }

  /** The concepts after k passes. */
  function Passes(x: set<string>, rules: seq<Rule>, k: nat): set<string> {
    if k == 0 then x else Pass(Passes(x, rules, k - 1), rules, |rules|)
  }

  /** A chain of at most k rules leads to the concept. */
  predicate Reaches(x: set<string>, rules: seq<Rule>, c: string, k: nat)
    decreases k
  {
    || c in x
    || (k > 0 && exists i :: 0 <= i < |rules| && rules[i].thenAdd == c && Reaches(x, rules, rules[i].ifExists, k - 1))
  }

  predicate Closed(x: set<string>, rules: seq<Rule>) {
    forall i :: 0 <= i < |rules| && rules[i].ifExists in x ==> rules[i].thenAdd in x
  }

  /** The least set of concepts that holds x and is closed under the rules. */
  ghost predicate IsClosure(x: set<string>, rules: seq<Rule>, c: set<string>) {
    && x <= c && Closed(c, rules)
    && forall d: set<string> :: x <= d && Closed(d, rules) ==> c <= d
  }

  lemma {:induction false} PassGrows(x: set<string>, rules: seq<Rule>, m: nat, n: nat)
    requires m <= n <= |rules|
    ensures Pass(x, rules, m) <= Pass(x, rules, n)
    ensures Fired(x, rules, m) <= Fired(x, rules, n)
  {
    if m < n { PassGrows(x, rules, m, n - 1); }
  }

  /** A pass adds at least what one step from x adds. */
  lemma PassSteps(x: set<string>, rules: seq<Rule>, i: nat)
    requires i < |rules| && rules[i].ifExists in x
    ensures rules[i].thenAdd in Pass(x, rules, |rules|)
    ensures Fired(x, rules, |rules|) > 0
  {
    PassGrows(x, rules, 0, i);
    assert rules[i].thenAdd in Pass(x, rules, i + 1) && Fired(x, rules, i + 1) > 0;
    PassGrows(x, rules, i + 1, |rules|);
  }

  lemma {:induction false} PassWithin(x: set<string>, rules: seq<Rule>, n: nat, d: set<string>)
    requires n <= |rules| && x <= d && Closed(d, rules)
    ensures Pass(x, rules, n) <= d
  {
    if n > 0 { PassWithin(x, rules, n - 1, d); }
  }

  /** After k passes every concept at the end of a chain of at most k rules is present, whatever the order. */
  lemma {:induction false} ReachedByPasses(x: set<string>, rules: seq<Rule>, c: string, k: nat)
    requires Reaches(x, rules, c, k)
    ensures c in Passes(x, rules, k)
    decreases k
  {
    if c in x {
      PassesGrow(x, rules, 0, k);
    } else {
      var i :| 0 <= i < |rules| && rules[i].thenAdd == c && Reaches(x, rules, rules[i].ifExists, k - 1);
      ReachedByPasses(x, rules, rules[i].ifExists, k - 1);
      PassSteps(Passes(x, rules, k - 1), rules, i);
    }
  }

  lemma {:induction false} PassesGrow(x: set<string>, rules: seq<Rule>, j: nat, k: nat)
    requires j <= k
    ensures Passes(x, rules, j) <= Passes(x, rules, k)
  {
    if j < k {
      PassesGrow(x, rules, j, k - 1);
      PassGrows(Passes(x, rules, k - 1), rules, 0, |rules|);
    }
  }

  lemma {:induction false} PassesWithin(x: set<string>, rules: seq<Rule>, k: nat, d: set<string>)
    requires x <= d && Closed(d, rules)
    ensures Passes(x, rules, k) <= d
  {
    if k > 0 {
      PassesWithin(x, rules, k - 1, d);
      PassWithin(Passes(x, rules, k - 1), rules, |rules|, d);
    }
  }

  // ---- The bound

  /** What the rules from the i-th on may add. */
  function Targets(rules: seq<Rule>): (t: set<string>)
    ensures |t| <= |rules|
    ensures forall i :: 0 <= i < |rules| ==> rules[i].thenAdd in t
  {
    if rules == [] then {}
    else
      var t := Targets(rules[1..]);
      assert forall i :: 1 <= i < |rules| ==> rules[i] == rules[1..][i - 1];
      t + {rules[0].thenAdd}
  }

  lemma {:induction false} PassAddsTargets(x: set<string>, rules: seq<Rule>, n: nat)
    requires n <= |rules|
    ensures Pass(x, rules, n) <= x + Targets(rules)
  {
    if n > 0 { PassAddsTargets(x, rules, n - 1); }
  }

  lemma {:induction false} PassesAddTargets(x: set<string>, rules: seq<Rule>, k: nat)
    ensures Passes(x, rules, k) <= x + Targets(rules)
  {
    if k > 0 {
      PassesAddTargets(x, rules, k - 1);
      PassAddsTargets(Passes(x, rules, k - 1), rules, |rules|);
    }
  }

  /** A pass that adds nothing means that the set is closed. */
  lemma StillIsClosed(x: set<string>, rules: seq<Rule>)
    ensures Closed(x, rules) <==> Pass(x, rules, |rules|) == x
  {
    PassGrows(x, rules, 0, |rules|);
    if Closed(x, rules) {
      PassWithin(x, rules, |rules|, x);
    } else {
      var i :| 0 <= i < |rules| && rules[i].ifExists in x && rules[i].thenAdd !in x;
      PassSteps(x, rules, i);
    }
  }

  /** As long as the set is not closed, every pass adds another target. */
  lemma {:induction false} PassesProgress(x: set<string>, rules: seq<Rule>, k: nat)
    ensures Closed(Passes(x, rules, k), rules) || |Passes(x, rules, k) - x| >= k
  {
    if k > 0 {
      var y, z := Passes(x, rules, k - 1), Passes(x, rules, k);
      PassesProgress(x, rules, k - 1);
      StillIsClosed(y, rules);
      PassGrows(y, rules, 0, |rules|);
      PassesGrow(x, rules, 0, k - 1);
      if y != z {
        var e :| e in z && e !in y;
        assert e in z - x;
        Larger(y - x, z - x);
      }
    }
  }

  lemma Larger<T>(a: set<T>, b: set<T>)
    requires a <= b
    ensures |a| <= |b| && (a != b ==> |a| < |b|)
  {
    assert b == a + (b - a);
  }

  lemma ClosedAfter(x: set<string>, rules: seq<Rule>, k: nat)
    requires k >= |rules|
    ensures Closed(Passes(x, rules, k), rules)
  {
    var y, t := Passes(x, rules, k), Targets(rules);
    PassesProgress(x, rules, k);
    PassesAddTargets(x, rules, k);
    Larger(y - x, t);
    assert y - x == t ==> Closed(y, rules);
  }

  /** As many passes as there are rules reach the closure, in whatever order the rules fire; more add nothing. */
  lemma PassesReachClosure(x: set<string>, rules: seq<Rule>, k: nat)
    requires k >= |rules|
    ensures IsClosure(x, rules, Passes(x, rules, k))
    ensures Passes(x, rules, k) == Passes(x, rules, |rules|)
  {
    ClosedAfter(x, rules, k);
    ClosedAfter(x, rules, |rules|);
    PassesGrow(x, rules, 0, k);
    PassesGrow(x, rules, |rules|, k);
    forall d: set<string> | x <= d && Closed(d, rules) ensures Passes(x, rules, k) <= d {
      PassesWithin(x, rules, k, d);
    }
    PassesGrow(x, rules, 0, |rules|);
    PassesWithin(x, rules, k, Passes(x, rules, |rules|));
  }

  /** The closure is what chains of rules reach. */
  lemma ClosureIsReached(x: set<string>, rules: seq<Rule>, c: string)
    ensures c in Passes(x, rules, |rules|) <==> exists k: nat :: Reaches(x, rules, c, k)
  {
    if c in Passes(x, rules, |rules|) {
      PassesReached(x, rules, |rules|, c);
    }
    if k: nat :| Reaches(x, rules, c, k) {
      ReachedByPasses(x, rules, c, k);
      ClosedAfter(x, rules, |rules|);
      PassesGrow(x, rules, 0, |rules|);
      PassesWithin(x, rules, k, Passes(x, rules, |rules|));
    }
  }

  lemma {:induction false} PassesReached(x: set<string>, rules: seq<Rule>, k: nat, c: string)
    requires c in Passes(x, rules, k)
    ensures exists j: nat :: Reaches(x, rules, c, j)
  {
    if k == 0 {
      assert Reaches(x, rules, c, 0);
    } else {
      PassReached(x, rules, k, |rules|, c);
    }
  }

  lemma {:induction false} PassReached(x: set<string>, rules: seq<Rule>, k: nat, n: nat, c: string)
    requires k > 0 && n <= |rules| && c in Pass(Passes(x, rules, k - 1), rules, n)
    ensures exists j: nat :: Reaches(x, rules, c, j)
    decreases k, n
  {
    var y := Passes(x, rules, k - 1);
    if n == 0 {
      if k == 1 { assert Reaches(x, rules, c, 0); } else { PassReached(x, rules, k - 1, |rules|, c); }
    } else if c in Pass(y, rules, n - 1) {
      PassReached(x, rules, k, n - 1, c);
    } else {
      PassReached(x, rules, k, n - 1, rules[n - 1].ifExists);
      var j: nat :| Reaches(x, rules, rules[n - 1].ifExists, j);
      assert Reaches(x, rules, c, j + 1);
    }
  }

  // ---- Firing

  /** Some rule is applicable to x. */
  predicate Applicable(x: set<string>, rules: seq<Rule>) {
    exists i :: 0 <= i < |rules| && rules[i].ifExists in x
  }

  lemma {:induction false} NothingFires(x: set<string>, rules: seq<Rule>, n: nat)
    requires n <= |rules| && !Applicable(x, rules)
    ensures Pass(x, rules, n) == x && Fired(x, rules, n) == 0
  {
    if n > 0 { NothingFires(x, rules, n - 1); }
  }

  /**
   Every pass fires a rule if one is applicable at the start, and none does otherwise: a rule whose condition holds
   fires again in every pass, whether or not it adds anything.
   */
  lemma FiresForever(x: set<string>, rules: seq<Rule>, k: nat)
    ensures Fired(Passes(x, rules, k), rules, |rules|) > 0 <==> Applicable(x, rules)
  {
    if i :| 0 <= i < |rules| && rules[i].ifExists in x {
      PassesGrow(x, rules, 0, k);
      PassSteps(Passes(x, rules, k), rules, i);
    } else {
      NothingHappens(x, rules, k);
      NothingFires(x, rules, |rules|);
    }
  }

  lemma {:induction false} NothingHappens(x: set<string>, rules: seq<Rule>, k: nat)
    requires !Applicable(x, rules)
    ensures Passes(x, rules, k) == x
  {
    if k > 0 {
      NothingHappens(x, rules, k - 1);
      NothingFires(x, rules, |rules|);
    }
  }

  /** How many firings k passes make. */
  function Firings(x: set<string>, rules: seq<Rule>, k: nat): nat {
    if k == 0 then 0 else Firings(x, rules, k - 1) + Fired(Passes(x, rules, k - 1), rules, |rules|)
  }

  lemma {:induction false} NoFirings(x: set<string>, rules: seq<Rule>, k: nat)
    requires !Applicable(x, rules)
    ensures Firings(x, rules, k) == 0
  {
    if k > 0 {
      NoFirings(x, rules, k - 1);
      FiresForever(x, rules, k - 1);
    }
  }

  // ---- The bound is sharp

  function Concept(i: nat): string {
    seq(i + 1, _ => 'c')
  }

  lemma ConceptInjective(i: nat, j: nat)
    requires Concept(i) == Concept(j)
    ensures i == j
  {
    assert |Concept(i)| == i + 1 && |Concept(j)| == j + 1;
  }

  function UpTo(k: nat): (x: set<string>)
    ensures forall i :: 0 <= i <= k ==> Concept(i) in x
  {
    if k == 0 then {Concept(0)} else UpTo(k - 1) + {Concept(k)}
  }

  lemma {:induction false} UpToIs(k: nat, i: nat)
    ensures Concept(i) in UpTo(k) <==> i <= k
  {
    if k > 0 { UpToIs(k - 1, i); }
    if Concept(i) == Concept(k) { ConceptInjective(i, k); }
  }

  /** A chain of n rules in the wrong order: the last link comes first. */
  function Backwards(n: nat): (rules: seq<Rule>)
    ensures |rules| == n
  {
    seq(n, i requires 0 <= i < n => Rule("link", Concept(n - 1 - i), Concept(n - i), 1.0))
  }

  lemma {:induction false} BackwardsPass(n: nat, k: nat, m: nat)
    requires k < n && m <= n
    ensures Pass(UpTo(k), Backwards(n), m) == if m + k >= n then UpTo(k + 1) else UpTo(k)
  {
    if m > 0 {
      BackwardsPass(n, k, m - 1);
      var r := Backwards(n)[m - 1];
      assert r.ifExists == Concept(n - m) && r.thenAdd == Concept(n - m + 1);
      UpToIs(k, n - m);
      UpToIs(k + 1, n - m);
      UpToIs(k + 1, n - m + 1);
    }
  }

  lemma {:induction false} BackwardsPasses(n: nat, k: nat)
    requires k <= n
    ensures Passes({Concept(0)}, Backwards(n), k) == UpTo(k)
  {
    if k > 0 {
      BackwardsPasses(n, k - 1);
      BackwardsPass(n, k - 1, n);
    }
  }

  /** For every number of rules there are rules that need that many passes. */
  lemma BoundIsSharp(n: nat, k: nat)
    requires k < n
    ensures !Closed(Passes({Concept(0)}, Backwards(n), k), Backwards(n))
  {
    BackwardsPasses(n, k);
    var i := n - 1 - k;
    assert Backwards(n)[i].ifExists == Concept(k) && Backwards(n)[i].thenAdd == Concept(k + 1);
    UpToIs(k, k);
    UpToIs(k, k + 1);
  }

  // ---- Counting firings

  function CountTrue(v: seq<bool>): nat {
    if v == [] then 0 else CountTrue(v[..|v| - 1]) + if v[|v| - 1] then 1 else 0
  }

  lemma CountMore(v: seq<bool>, b: bool)
    ensures CountTrue(v + [b]) == CountTrue(v) + if b then 1 else 0
  {
    assert (v + [b])[..|v|] == v;
  }

  /** The count is the number of places that are true. */
  lemma {:induction false} CountIsNumber(v: seq<bool>)
    ensures CountTrue(v) == |set i | 0 <= i < |v| && v[i]|
  {
    var places := set i | 0 <= i < |v| && v[i];
    if v == [] {
      assert places == {};
    } else {
      var init := v[..|v| - 1];
      CountIsNumber(init);
      var before := set i | 0 <= i < |init| && init[i];
      assert places == before + if v[|v| - 1] then {|v| - 1} else {};
    }
  }
}
