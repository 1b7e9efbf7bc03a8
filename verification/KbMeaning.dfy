/** When a query's rows are the assignments that make every pattern a stored fact. */
module KbMeaning {
  import opened KbQuery

  /** A place in a list of patterns: the subject, predicate or object of one of them. */
  function FieldAt(t: Triple, p: nat): string
    requires p < 3
  {
    if p == 0 then t.subj else if p == 1 then t.pred else t.obj
  }

  function PartAt(e: Eval, p: nat): Atom
    requires e.Eval? && p < 3
  {
    if p == 0 then e.subj else if p == 1 then e.pred else e.obj
  }

  /**
   What a given name stands for: in a predicate's place the predicate of that name, which is what the loader stores
   there; elsewhere the concept of that name, or else the predicate.
   */
  function Stands(sp: Space, t: Triple, p: nat): Option<Atom>
    requires p < 3
  {
    if p != 1 then Resolve(sp, FieldAt(t, p))
    else if Node(PredicateNode, t.pred) in sp.nodes then Some(Node(PredicateNode, t.pred))
    else None
  }

  /** The link has the atoms that the pattern's given names stand for. */
  predicate Meant(sp: Space, t: Triple, e: Eval) {
    e.Eval? && forall p: nat :: p < 3 && !IsVar(FieldAt(t, p)) ==> Stands(sp, t, p) == Some(PartAt(e, p))
  }

  /** The link has the atoms that the assignment gives the pattern's variables. */
  predicate Gives(r: Row, t: Triple, e: Eval) {
    e.Eval? && forall p: nat :: p < 3 && IsVar(FieldAt(t, p)) ==> FieldAt(t, p) in r && r[FieldAt(t, p)] == PartAt(e, p)
  }

  /** Under the assignment the pattern is the fact that a link states. */
  predicate Holds(sp: Space, r: Row, t: Triple) {
    exists e :: e in sp.evals && Meant(sp, t, e) && Gives(r, t, e)
  }

  /** The assignment comes from a link that the matcher takes for the pattern. */
  predicate Found(sp: Space, r: Row, t: Triple) {
    exists e :: e in sp.evals && Matches(sp, t, e) && Gives(r, t, e)
  }

  /** The variable is in the pattern. */
  predicate Has(t: Triple, v: string) {
    IsVar(v) && (v == t.subj || v == t.pred || v == t.obj)
  }

  predicate Binds(ts: seq<Triple>, v: string) {
    exists t :: t in ts && Has(t, v)
  }

  /** An assignment of exactly the variables of the patterns. */
  ghost predicate Assigns(ts: seq<Triple>, r: Row) {
    forall v :: v in r <==> Binds(ts, v)
  }

  /** An assignment of exactly the variables that makes every pattern a stored fact. */
  ghost predicate Satisfies(sp: Space, ts: seq<Triple>, r: Row) {
    Assigns(ts, r) && forall t :: t in ts ==> Holds(sp, r, t)
  }

  /** Every given name of the pattern stands for something. */
  predicate Known(sp: Space, t: Triple) {
    forall p: nat :: p < 3 ==> IsVar(FieldAt(t, p)) || Stands(sp, t, p).Some?
  }

  /** A concept has the given predicate's name, and the matcher takes it instead, as the subject is not given. */
  predicate Hidden(sp: Space, t: Triple) {
    !IsVar(t.pred) && IsVar(t.subj) && Node(ConceptNode, t.pred) in sp.nodes
  }

  /** The given predicate is not among the further members of any link. */
  predicate First(sp: Space, t: Triple) {
    !IsVar(t.pred) ==> forall e :: e in sp.evals && e.Eval? ==> Node(PredicateNode, t.pred) !in e.more
  }

  predicate Named(sp: Space, t: Triple) {
    Known(sp, t) && !Hidden(sp, t) && First(sp, t)
  }

  predicate WellNamed(sp: Space, ts: seq<Triple>) {
    forall t :: t in ts ==> Named(sp, t)
  }

  /** Any two places of one variable are the same place of the same pattern. */
  ghost predicate Linear(ts: seq<Triple>) {
    forall t, u, p: nat, q: nat ::
      t in ts && u in ts && p < 3 && q < 3 && IsVar(FieldAt(t, p)) && FieldAt(t, p) == FieldAt(u, q) ==>
        t == u && p == q
  }

  ghost predicate Exact(sp: Space, ts: seq<Triple>) {
    forall r :: r in AllRows(sp, ts, 0, map[]) <==> Satisfies(sp, ts, r)
  }

  // ---- Which links the matcher takes

  lemma KnownPlaces(sp: Space, t: Triple)
    requires Known(sp, t)
    ensures IsVar(t.subj) || Resolve(sp, t.subj).Some?
    ensures IsVar(t.pred) || Node(PredicateNode, t.pred) in sp.nodes
    ensures IsVar(t.obj) || Resolve(sp, t.obj).Some?
  {
    assert IsVar(FieldAt(t, 0)) || Stands(sp, t, 0).Some?;
    assert IsVar(FieldAt(t, 1)) || Stands(sp, t, 1).Some?;
    assert IsVar(FieldAt(t, 2)) || Stands(sp, t, 2).Some?;
  }

  lemma MeantPlaces(sp: Space, t: Triple, e: Eval)
    requires e.Eval?
    ensures Meant(sp, t, e) <==>
            && (IsVar(t.subj) || Resolve(sp, t.subj) == Some(e.subj))
            && (IsVar(t.pred) || (Node(PredicateNode, t.pred) in sp.nodes && e.pred == Node(PredicateNode, t.pred)))
            && (IsVar(t.obj) || Resolve(sp, t.obj) == Some(e.obj))
  {
    if Meant(sp, t, e) {
      assert !IsVar(FieldAt(t, 0)) ==> Stands(sp, t, 0) == Some(PartAt(e, 0));
      assert !IsVar(FieldAt(t, 1)) ==> Stands(sp, t, 1) == Some(PartAt(e, 1));
      assert !IsVar(FieldAt(t, 2)) ==> Stands(sp, t, 2) == Some(PartAt(e, 2));
    }
  }

  /** A link that the pattern means is taken, unless a concept hides the predicate. */
  lemma MeantMatches(sp: Space, t: Triple, e: Eval)
    requires Meant(sp, t, e) && !Hidden(sp, t)
    ensures Matches(sp, t, e)
  {
    MeantPlaces(sp, t, e);
  }

  /** For good names the links that are taken are those that are meant. */
  lemma MatchIsMeant(sp: Space, t: Triple, e: Eval)
    requires Named(sp, t) && e in sp.evals
    ensures Matches(sp, t, e) <==> Meant(sp, t, e)
  {
    if Meant(sp, t, e) { MeantMatches(sp, t, e); }
    if Matches(sp, t, e) {
      KnownPlaces(sp, t);
      MeantPlaces(sp, t, e);
    }
  }

  lemma FoundIsHolds(sp: Space, r: Row, t: Triple)
    requires Named(sp, t)
    ensures Found(sp, r, t) <==> Holds(sp, r, t)
  {
    if e :| e in sp.evals && Matches(sp, t, e) && Gives(r, t, e) { MatchIsMeant(sp, t, e); }
    if e :| e in sp.evals && Meant(sp, t, e) && Gives(r, t, e) { MatchIsMeant(sp, t, e); }
  }

  // ---- What a list of links binds

  lemma BindIs(b: Row, t: Triple, e: Eval, v: string)
    requires e.Eval?
    ensures v in Bind(b, t, e) <==> v in b || Has(t, v)
    ensures v in Bind(b, t, e) && !Has(t, v) ==> Bind(b, t, e)[v] == b[v]
    ensures Has(t, v) ==>
              Bind(b, t, e)[v] == (if v == t.obj then e.obj else if v == t.pred then e.pred else e.subj)
  {
  }

  lemma BindsMore(ts: seq<Triple>, n: nat, v: string)
    requires n < |ts|
    ensures Binds(ts[..n + 1], v) <==> Binds(ts[..n], v) || Has(ts[n], v)
  {
    assert ts[..n + 1] == ts[..n] + [ts[n]];
    if Has(ts[n], v) { assert ts[n] in ts[..n + 1]; }
  }

  lemma {:induction false} RowKeys(ts: seq<Triple>, c: seq<Eval>, n: nat, v: string)
    requires n <= |ts| == |c| && forall i :: 0 <= i < n ==> c[i].Eval?
    ensures v in BindAll(ts, c, n) <==> Binds(ts[..n], v)
  {
    if n > 0 {
      RowKeys(ts, c, n - 1, v);
      BindIs(BindAll(ts, c, n - 1), ts[n - 1], c[n - 1], v);
      BindsMore(ts, n - 1, v);
    }
  }

  lemma RowAssigns(ts: seq<Triple>, c: seq<Eval>)
    requires |ts| == |c| && forall i :: 0 <= i < |c| ==> c[i].Eval?
    ensures Assigns(ts, BindAll(ts, c, |ts|))
  {
    assert ts[..|ts|] == ts;
    forall v ensures v in BindAll(ts, c, |ts|) <==> Binds(ts, v) { RowKeys(ts, c, |ts|, v); }
  }

  lemma GivenValue(r: Row, t: Triple, e: Eval, v: string)
    requires Gives(r, t, e) && Has(t, v)
    ensures v in r && r[v] == if v == t.obj then e.obj else if v == t.pred then e.pred else e.subj
  {
    var p: nat := if v == t.obj then 2 else if v == t.pred then 1 else 0;
    assert FieldAt(t, p) == v;
  }

  /** Links that have what an assignment gives bind nothing else. */
  lemma {:induction false} GivenBinds(ts: seq<Triple>, c: seq<Eval>, r: Row, n: nat, v: string)
    requires n <= |ts| == |c| && (forall i :: 0 <= i < |c| ==> c[i].Eval?)
    requires forall i :: 0 <= i < |ts| ==> Gives(r, ts[i], c[i])
    requires v in BindAll(ts, c, n)
    ensures v in r && BindAll(ts, c, n)[v] == r[v]
  {
    if n > 0 {
      var t, e := ts[n - 1], c[n - 1];
      BindIs(BindAll(ts, c, n - 1), t, e, v);
      if Has(t, v) { GivenValue(r, t, e, v); } else { GivenBinds(ts, c, r, n - 1, v); }
    }
  }

  lemma GivenRow(ts: seq<Triple>, c: seq<Eval>, r: Row)
    requires |ts| == |c| && (forall i :: 0 <= i < |c| ==> c[i].Eval?) && Assigns(ts, r)
    requires forall i :: 0 <= i < |ts| ==> Gives(r, ts[i], c[i])
    ensures BindAll(ts, c, |ts|) == r
  {
    RowAssigns(ts, c);
    var b := BindAll(ts, c, |ts|);
    forall v | v in b ensures v in r && b[v] == r[v] { GivenBinds(ts, c, r, |ts|, v); }
    assert forall v :: v in b <==> v in r;
  }

  /** The last index at which a pattern stands. */
  function LastOf(ts: seq<Triple>, t: Triple): (k: nat)
    requires t in ts
    ensures k < |ts| && ts[k] == t && forall i :: k < i < |ts| ==> ts[i] != t
  {
    if ts[|ts| - 1] == t then |ts| - 1
    else
      assert ts == ts[..|ts| - 1] + [ts[|ts| - 1]];
      LastOf(ts[..|ts| - 1], t)
  }

  /** A variable that later patterns do not have keeps its binding. */
  lemma {:induction false} Keeps(ts: seq<Triple>, c: seq<Eval>, k: nat, n: nat, v: string)
    requires k <= n <= |ts| == |c| && forall i :: 0 <= i < n ==> c[i].Eval?
    requires forall i :: k <= i < n ==> !Has(ts[i], v)
    requires v in BindAll(ts, c, k)
    ensures v in BindAll(ts, c, n) && BindAll(ts, c, n)[v] == BindAll(ts, c, k)[v]
  {
    if k < n {
      Keeps(ts, c, k, n - 1, v);
      assert !Has(ts[n - 1], v);
      BindIs(BindAll(ts, c, n - 1), ts[n - 1], c[n - 1], v);
    }
  }

  lemma HasIs(t: Triple, v: string)
    ensures Has(t, v) <==> exists p: nat :: p < 3 && IsVar(FieldAt(t, p)) && FieldAt(t, p) == v
  {
    if Has(t, v) {
      assert v == FieldAt(t, 0) || v == FieldAt(t, 1) || v == FieldAt(t, 2);
    }
  }

  lemma OnlyPlace(ts: seq<Triple>, t: Triple, p: nat, u: Triple)
    requires Linear(ts) && t in ts && u in ts && p < 3 && IsVar(FieldAt(t, p)) && Has(u, FieldAt(t, p))
    ensures u == t
  {
    HasIs(u, FieldAt(t, p));
  }

  /** A pattern that is alone with its variable binds it to the atom at its place. */
  lemma BindsPlace(ts: seq<Triple>, b: Row, t: Triple, p: nat, e: Eval)
    requires Linear(ts) && t in ts && p < 3 && IsVar(FieldAt(t, p)) && e.Eval?
    ensures FieldAt(t, p) in Bind(b, t, e) && Bind(b, t, e)[FieldAt(t, p)] == PartAt(e, p)
  {
    var v := FieldAt(t, p);
    assert v == FieldAt(t, 2) ==> p == 2;
    assert v == FieldAt(t, 1) ==> p == 1;
    BindIs(b, t, e, v);
  }

  predicate OnlyIn(ts: seq<Triple>, v: string, t: Triple) {
    forall u :: u in ts && Has(u, v) ==> u == t
  }

  lemma PlaceIsOnly(ts: seq<Triple>, t: Triple, p: nat)
    requires Linear(ts) && t in ts && p < 3 && IsVar(FieldAt(t, p))
    ensures OnlyIn(ts, FieldAt(t, p), t)
  {
    forall u | u in ts && Has(u, FieldAt(t, p)) ensures u == t { OnlyPlace(ts, t, p, u); }
  }

  lemma LastKeeps(ts: seq<Triple>, c: seq<Eval>, t: Triple, v: string)
    requires |ts| == |c| && (forall i :: 0 <= i < |c| ==> c[i].Eval?) && t in ts
    requires OnlyIn(ts, v, t) && v in BindAll(ts, c, LastOf(ts, t) + 1)
    ensures v in BindAll(ts, c, |ts|) && BindAll(ts, c, |ts|)[v] == BindAll(ts, c, LastOf(ts, t) + 1)[v]
  {
    Keeps(ts, c, LastOf(ts, t) + 1, |ts|, v);
  }

  lemma LastBinds(ts: seq<Triple>, c: seq<Eval>, t: Triple, p: nat)
    requires |ts| == |c| && (forall i :: 0 <= i < |c| ==> c[i].Eval?)
    requires Linear(ts) && t in ts && p < 3 && IsVar(FieldAt(t, p))
    ensures var r, v := BindAll(ts, c, |ts|), FieldAt(t, p); v in r && r[v] == PartAt(c[LastOf(ts, t)], p)
  {
    var k := LastOf(ts, t);
    BindsPlace(ts, BindAll(ts, c, k), t, p, c[k]);
    assert BindAll(ts, c, k + 1) == Bind(BindAll(ts, c, k), t, c[k]);
    PlaceIsOnly(ts, t, p);
    LastKeeps(ts, c, t, FieldAt(t, p));
  }

  /** Without a shared variable each pattern's link gives its variables their values. */
  lemma LastGives(ts: seq<Triple>, c: seq<Eval>, t: Triple)
    requires |ts| == |c| && (forall i :: 0 <= i < |c| ==> c[i].Eval?) && Linear(ts) && t in ts
    ensures Gives(BindAll(ts, c, |ts|), t, c[LastOf(ts, t)])
  {
    forall p: nat | p < 3 && IsVar(FieldAt(t, p))
      ensures var r, v := BindAll(ts, c, |ts|), FieldAt(t, p); v in r && r[v] == PartAt(c[LastOf(ts, t)], p)
    {
      LastBinds(ts, c, t, p);
    }
  }

  // ---- Rows and satisfying assignments, side by side

  /** One link for each of the first n patterns, as found for an assignment. */
  lemma {:induction false} FoundChoice(sp: Space, ts: seq<Triple>, r: Row, n: nat) returns (c: seq<Eval>)
    requires n <= |ts| && forall t :: t in ts ==> Found(sp, r, t)
    ensures |c| == n && forall i :: 0 <= i < n ==> c[i] in sp.evals && Matches(sp, ts[i], c[i]) && Gives(r, ts[i], c[i])
  {
    c := [];
    if n > 0 {
      c := FoundChoice(sp, ts, r, n - 1);
      assert Found(sp, r, ts[n - 1]);
      var e :| e in sp.evals && Matches(sp, ts[n - 1], e) && Gives(r, ts[n - 1], e);
      c := c + [e];
    }
  }

  /** Whatever the patterns, an assignment found for each of them is a row. */
  lemma FoundIsRow(sp: Space, ts: seq<Triple>, r: Row)
    requires ts != [] && Assigns(ts, r) && forall t :: t in ts ==> Found(sp, r, t)
    ensures r in AllRows(sp, ts, 0, map[])
  {
    var c := FoundChoice(sp, ts, r, |ts|);
    assert forall i :: 0 <= i < |c| ==> c[i].Eval? by {
      forall i | 0 <= i < |c| ensures c[i].Eval? { assert Gives(r, ts[i], c[i]); }
    }
    GivenRow(ts, c, r);
    ChoiceIsRow(sp, ts, c, 0);
  }

  /** Without a shared variable the rows are the assignments found for each pattern. */
  lemma LinearRowIff(sp: Space, ts: seq<Triple>, r: Row)
    requires ts != [] && Linear(ts)
    ensures r in AllRows(sp, ts, 0, map[]) <==> Assigns(ts, r) && forall t :: t in ts ==> Found(sp, r, t)
  {
    RowsAreChoices(sp, ts, r);
    if r in AllRows(sp, ts, 0, map[]) {
      var c :| Choice(sp, ts, c) && r == BindAll(ts, c, |ts|);
      RowAssigns(ts, c);
      forall t | t in ts ensures Found(sp, r, t) {
        LastGives(ts, c, t);
        assert Matches(sp, ts[LastOf(ts, t)], c[LastOf(ts, t)]);
      }
    } else if Assigns(ts, r) && forall t :: t in ts ==> Found(sp, r, t) {
      FoundIsRow(sp, ts, r);
    }
  }

  /** A satisfying assignment is among the rows, unless a concept hides a given predicate. */
  lemma SatisfyingIsRow(sp: Space, ts: seq<Triple>, r: Row)
    requires ts != [] && Satisfies(sp, ts, r) && forall t :: t in ts ==> !Hidden(sp, t)
    ensures r in AllRows(sp, ts, 0, map[])
  {
    forall t | t in ts ensures Found(sp, r, t) {
      assert Holds(sp, r, t);
      var e :| e in sp.evals && Meant(sp, t, e) && Gives(r, t, e);
      MeantMatches(sp, t, e);
    }
    FoundIsRow(sp, ts, r);
  }

  lemma LinearIsExact(sp: Space, ts: seq<Triple>)
    requires ts != [] && WellNamed(sp, ts) && Linear(ts)
    ensures Exact(sp, ts)
  {
    forall r ensures r in AllRows(sp, ts, 0, map[]) <==> Satisfies(sp, ts, r) {
      LinearRowIff(sp, ts, r);
      forall t | t in ts ensures Found(sp, r, t) <==> Holds(sp, r, t) { FoundIsHolds(sp, r, t); }
    }
  }

  // ---- For other patterns some space gives a row that satisfies nothing

  function GivenAtom(ts: seq<Triple>, f: string): Atom {
    if exists t :: t in ts && t.pred == f then Node(PredicateNode, f) else Node(ConceptNode, f)
  }

  function OwnAtom(ts: seq<Triple>, i: nat, p: nat): Atom
    requires i < |ts| && p < 3
  {
    if IsVar(FieldAt(ts[i], p)) then Other(3 * i + p) else GivenAtom(ts, FieldAt(ts[i], p))
  }

  function OwnFact(ts: seq<Triple>, i: nat): (e: Eval)
    requires i < |ts|
    ensures e.Eval? && e.more == []
  {
    Eval(OwnAtom(ts, i, 1), OwnAtom(ts, i, 0), OwnAtom(ts, i, 2), [])
  }

  /** A space with one fact for each pattern, with an atom of its own for each place of a variable. */
  function OwnSpace(ts: seq<Triple>): Space {
    var nodes := set t, p | t in ts && p in {0, 1, 2} && !IsVar(FieldAt(t, p)) :: GivenAtom(ts, FieldAt(t, p));
    Space(nodes, seq(|ts|, i requires 0 <= i < |ts| => OwnFact(ts, i)))
  }

  lemma OwnStands(ts: seq<Triple>, t: Triple, p: nat)
    requires t in ts && p < 3 && !IsVar(FieldAt(t, p))
    ensures Stands(OwnSpace(ts), t, p) == Some(GivenAtom(ts, FieldAt(t, p)))
  {
    var f, sp := FieldAt(t, p), OwnSpace(ts);
    assert p in {0, 1, 2};
    assert GivenAtom(ts, f) in sp.nodes;
    forall k | Node(k, f) in sp.nodes ensures Node(k, f) == GivenAtom(ts, f) {
    }
  }

  lemma OwnIsWellNamed(ts: seq<Triple>)
    ensures WellNamed(OwnSpace(ts), ts)
  {
    var sp := OwnSpace(ts);
    forall t | t in ts ensures Named(sp, t) {
      forall p: nat | p < 3 && !IsVar(FieldAt(t, p)) ensures Stands(sp, t, p).Some? { OwnStands(ts, t, p); }
      if !IsVar(t.pred) { assert GivenAtom(ts, t.pred) == Node(PredicateNode, t.pred); }
    }
  }

  lemma OwnMatches(ts: seq<Triple>, i: nat)
    requires i < |ts|
    ensures OwnFact(ts, i) in OwnSpace(ts).evals && Matches(OwnSpace(ts), ts[i], OwnFact(ts, i))
  {
    var sp, e := OwnSpace(ts), OwnFact(ts, i);
    assert sp.evals[i] == e;
    OwnIsWellNamed(ts);
    assert Named(sp, ts[i]);
    forall p: nat | p < 3 && !IsVar(FieldAt(ts[i], p)) ensures Stands(sp, ts[i], p) == Some(PartAt(e, p)) {
      OwnStands(ts, ts[i], p);
    }
    MeantMatches(sp, ts[i], e);
  }

  /** In the row of the own facts a variable is bound to the atom of one of its places. */
  lemma {:induction false} OwnBinding(ts: seq<Triple>, c: seq<Eval>, n: nat, v: string)
    requires n <= |ts| == |c| && (forall i :: 0 <= i < n ==> c[i].Eval?)
             && forall i :: 0 <= i < n ==> c[i] == OwnFact(ts, i)
    requires v in BindAll(ts, c, n)
    ensures exists i: nat, p: nat ::
            i < n && p < 3 && FieldAt(ts[i], p) == v && IsVar(v) && BindAll(ts, c, n)[v] == Other(3 * i + p)
  {
    if n > 0 {
      var b, t, e := BindAll(ts, c, n - 1), ts[n - 1], c[n - 1];
      BindIs(b, t, e, v);
      if Has(t, v) {
        var p: nat := if v == t.obj then 2 else if v == t.pred then 1 else 0;
        assert FieldAt(ts[n - 1], p) == v && PartAt(e, p) == OwnAtom(ts, n - 1, p);
      } else {
        OwnBinding(ts, c, n - 1, v);
      }
    }
  }

  /** The atoms of the k-th pattern's places are what its variables, and those of an equal pattern, are bound to. */
  predicate Owned(ts: seq<Triple>, r: Row, t: Triple, k: nat) {
    && k < |ts| && ts[k] == t
    && forall p: nat :: p < 3 && IsVar(FieldAt(t, p)) ==> BoundTo(r, FieldAt(t, p), 3 * k + p)
  }

  predicate BoundTo(r: Row, v: string, n: nat) {
    v in r && r[v] == Other(n)
  }

  lemma SameFields(t: Triple, u: Triple)
    requires forall p: nat :: p < 3 ==> FieldAt(t, p) == FieldAt(u, p)
    ensures t == u
  {
    assert FieldAt(t, 0) == FieldAt(u, 0) && FieldAt(t, 1) == FieldAt(u, 1) && FieldAt(t, 2) == FieldAt(u, 2);
  }

  /** If a pattern holds under the row of the own facts, an equal pattern's places bound all its variables. */
  lemma OwnHolds(ts: seq<Triple>, c: seq<Eval>, r: Row, t: Triple) returns (k: nat)
    requires OwnRow(ts, c, r) && t in ts && Holds(OwnSpace(ts), r, t)
    ensures Owned(ts, r, t, k)
  {
    var sp := OwnSpace(ts);
    var e :| e in sp.evals && Meant(sp, t, e) && Gives(r, t, e);
    k :| 0 <= k < |sp.evals| && sp.evals[k] == e;
    OwnPlaces(ts, c, t, k, r);
  }

  /** The row of the choice of each pattern's own fact. */
  predicate OwnRow(ts: seq<Triple>, c: seq<Eval>, r: Row) {
    && Choice(OwnSpace(ts), ts, c) && (forall i :: 0 <= i < |ts| ==> c[i] == OwnFact(ts, i))
    && r == BindAll(ts, c, |ts|)
  }

  lemma Thirds(k: nat, p: nat, i: nat, q: nat)
    requires p < 3 && q < 3 && 3 * k + p == 3 * i + q
    ensures k == i && p == q
  {
  }

  lemma OwnVariable(ts: seq<Triple>, c: seq<Eval>, f: string, k: nat, p: nat, r: Row)
    requires OwnRow(ts, c, r) && k < |ts| && p < 3 && IsVar(f)
    requires f in r && r[f] == OwnAtom(ts, k, p)
    ensures FieldAt(ts[k], p) == f && BoundTo(r, f, 3 * k + p)
  {
    OwnBinding(ts, c, |ts|, f);
    var i: nat, q: nat :| i < |ts| && q < 3 && FieldAt(ts[i], q) == f && r[f] == Other(3 * i + q);
    assert IsVar(FieldAt(ts[k], p));
    Thirds(k, p, i, q);
  }

  lemma OwnPlace(ts: seq<Triple>, c: seq<Eval>, t: Triple, k: nat, p: nat, r: Row)
    requires OwnRow(ts, c, r) && t in ts && k < |ts| && p < 3
    requires if IsVar(FieldAt(t, p)) then FieldAt(t, p) in r && r[FieldAt(t, p)] == PartAt(OwnFact(ts, k), p)
             else Stands(OwnSpace(ts), t, p) == Some(PartAt(OwnFact(ts, k), p))
    ensures FieldAt(ts[k], p) == FieldAt(t, p)
    ensures IsVar(FieldAt(t, p)) ==> BoundTo(r, FieldAt(t, p), 3 * k + p)
  {
    assert PartAt(OwnFact(ts, k), p) == OwnAtom(ts, k, p);
    if IsVar(FieldAt(t, p)) {
      OwnVariable(ts, c, FieldAt(t, p), k, p, r);
    } else {
      OwnStands(ts, t, p);
      OwnName(ts, k, p, FieldAt(t, p));
    }
  }

  lemma OwnName(ts: seq<Triple>, k: nat, p: nat, f: string)
    requires k < |ts| && p < 3 && OwnAtom(ts, k, p) == GivenAtom(ts, f)
    ensures FieldAt(ts[k], p) == f
  {
  }

  lemma OwnPlaces(ts: seq<Triple>, c: seq<Eval>, t: Triple, k: nat, r: Row)
    requires OwnRow(ts, c, r) && t in ts && k < |ts|
    requires Meant(OwnSpace(ts), t, OwnFact(ts, k)) && Gives(r, t, OwnFact(ts, k))
    ensures Owned(ts, r, t, k)
  {
    forall p: nat | p < 3
      ensures FieldAt(ts[k], p) == FieldAt(t, p)
      ensures IsVar(FieldAt(t, p)) ==> BoundTo(r, FieldAt(t, p), 3 * k + p)
    {
      OwnPlace(ts, c, t, k, p, r);
    }
    SameFields(ts[k], t);
  }

  lemma OwnChoice(ts: seq<Triple>) returns (c: seq<Eval>)
    ensures Choice(OwnSpace(ts), ts, c) && forall i :: 0 <= i < |ts| ==> c[i] == OwnFact(ts, i)
  {
    c := seq(|ts|, i requires 0 <= i < |ts| => OwnFact(ts, i));
    forall i | 0 <= i < |ts| ensures c[i] in OwnSpace(ts).evals && Matches(OwnSpace(ts), ts[i], c[i]) {
      OwnMatches(ts, i);
    }
  }

  lemma SamePlace(ts: seq<Triple>, r: Row, t: Triple, u: Triple, p: nat, q: nat, k: nat, l: nat)
    requires Owned(ts, r, t, k) && Owned(ts, r, u, l)
    requires p < 3 && q < 3 && IsVar(FieldAt(t, p)) && FieldAt(t, p) == FieldAt(u, q)
    ensures t == u && p == q
  {
    assert BoundTo(r, FieldAt(t, p), 3 * k + p) && BoundTo(r, FieldAt(u, q), 3 * l + q);
    Thirds(k, p, l, q);
  }

  lemma OwnIsNotExact(ts: seq<Triple>)
    requires ts != [] && Exact(OwnSpace(ts), ts)
    ensures Linear(ts)
  {
    var sp := OwnSpace(ts);
    var c := OwnChoice(ts);
    ChoiceIsRow(sp, ts, c, 0);
    var r := BindAll(ts, c, |ts|);
    assert Satisfies(sp, ts, r);
    forall t, u, p: nat, q: nat |
      t in ts && u in ts && p < 3 && q < 3 && IsVar(FieldAt(t, p)) && FieldAt(t, p) == FieldAt(u, q)
      ensures t == u && p == q
    {
      var k := OwnHolds(ts, c, r, t);
      var l := OwnHolds(ts, c, r, u);
      SamePlace(ts, r, t, u, p, q, k, l);
    }
  }

  /**
   The rows of a query are the satisfying assignments, in every space where its names stand for what they should,
   exactly when no variable is shared between two patterns or repeated within one: the matcher never compares a
   variable with its earlier binding, it overwrites it.
   */
  lemma QueryExactIff(ts: seq<Triple>)
    requires ts != []
    ensures (forall sp :: WellNamed(sp, ts) ==> Exact(sp, ts)) <==> Linear(ts)
  {
    OwnIsWellNamed(ts);
    if forall sp :: WellNamed(sp, ts) ==> Exact(sp, ts) {
      OwnIsNotExact(ts);
    }
    if Linear(ts) {
      forall sp | WellNamed(sp, ts) ensures Exact(sp, ts) { LinearIsExact(sp, ts); }
    }
  }

  // ---- Names that the matcher misreads

  predicate NoMatch(sp: Space, t: Triple) {
    forall e :: e in sp.evals ==> !Matches(sp, t, e)
  }

  predicate NoFact(sp: Space, t: Triple) {
    forall e :: e in sp.evals ==> !Meant(sp, t, e)
  }

  lemma NoMatchNoRow(sp: Space, ts: seq<Triple>, t: Triple, r: Row)
    requires t in ts && NoMatch(sp, t)
    ensures r !in AllRows(sp, ts, 0, map[])
  {
    RowsAreChoices(sp, ts, r);
    var k := LastOf(ts, t);
    forall c: seq<Eval> | |c| == |ts| ensures !Choice(sp, ts, c) {
      assert c[k] in sp.evals ==> !Matches(sp, ts[k], c[k]);
    }
  }

  lemma {:induction false} MatchChoice(sp: Space, ts: seq<Triple>, n: nat) returns (c: seq<Eval>)
    requires n <= |ts| && forall t :: t in ts ==> !NoMatch(sp, t)
    ensures |c| == n && (forall i :: 0 <= i < n ==> c[i].Eval?)
    ensures forall i :: 0 <= i < n ==> c[i] in sp.evals && Matches(sp, ts[i], c[i])
  {
    c := [];
    if n > 0 {
      c := MatchChoice(sp, ts, n - 1);
      assert !NoMatch(sp, ts[n - 1]);
      var e :| e in sp.evals && Matches(sp, ts[n - 1], e);
      c := c + [e];
    }
  }

  lemma {:induction false} MeantChoice(sp: Space, ts: seq<Triple>, n: nat) returns (c: seq<Eval>)
    requires n <= |ts| && forall t :: t in ts ==> !NoFact(sp, t)
    ensures |c| == n && (forall i :: 0 <= i < n ==> c[i].Eval?)
    ensures forall i :: 0 <= i < n ==> c[i] in sp.evals && Meant(sp, ts[i], c[i])
  {
    c := [];
    if n > 0 {
      c := MeantChoice(sp, ts, n - 1);
      assert !NoFact(sp, ts[n - 1]);
      var e :| e in sp.evals && Meant(sp, ts[n - 1], e);
      c := c + [e];
    }
  }

  lemma SomeRow(sp: Space, ts: seq<Triple>) returns (r: Row)
    requires forall t :: t in ts ==> !NoMatch(sp, t)
    ensures r in AllRows(sp, ts, 0, map[])
  {
    var c := MatchChoice(sp, ts, |ts|);
    ChoiceIsRow(sp, ts, c, 0);
    r := BindAll(ts, c, |ts|);
  }

  lemma SomeSatisfying(sp: Space, ts: seq<Triple>) returns (r: Row)
    requires Linear(ts) && forall t :: t in ts ==> !NoFact(sp, t)
    ensures Satisfies(sp, ts, r)
  {
    var c := MeantChoice(sp, ts, |ts|);
    r := BindAll(ts, c, |ts|);
    RowAssigns(ts, c);
    forall t | t in ts ensures Holds(sp, r, t) {
      LastGives(ts, c, t);
      assert Meant(sp, ts[LastOf(ts, t)], c[LastOf(ts, t)]);
    }
  }

  lemma NoFactNotSatisfied(sp: Space, ts: seq<Triple>, t: Triple, r: Row)
    requires t in ts && NoFact(sp, t)
    ensures !Satisfies(sp, ts, r)
  {
    assert !Holds(sp, r, t);
  }

  /**
   Whatever the patterns, a query with a pattern that no link states is exact when the matcher finds nothing either.
   */
  lemma NoFactExactIff(sp: Space, ts: seq<Triple>, t: Triple)
    requires t in ts && NoFact(sp, t)
    ensures Exact(sp, ts) <==> exists u :: u in ts && NoMatch(sp, u)
  {
    forall r ensures !Satisfies(sp, ts, r) { NoFactNotSatisfied(sp, ts, t, r); }
    if u :| u in ts && NoMatch(sp, u) {
      forall r ensures r !in AllRows(sp, ts, 0, map[]) { NoMatchNoRow(sp, ts, u, r); }
    } else {
      var r := SomeRow(sp, ts);
      assert r in AllRows(sp, ts, 0, map[]) && !Satisfies(sp, ts, r);
    }
  }

  /** And a query without a shared variable with a pattern that the matcher finds no link for, when none is stated. */
  lemma NoMatchExactIff(sp: Space, ts: seq<Triple>, t: Triple)
    requires t in ts && NoMatch(sp, t) && Linear(ts)
    ensures Exact(sp, ts) <==> exists u :: u in ts && NoFact(sp, u)
  {
    forall r ensures r !in AllRows(sp, ts, 0, map[]) { NoMatchNoRow(sp, ts, t, r); }
    if u :| u in ts && NoFact(sp, u) {
      forall r ensures !Satisfies(sp, ts, r) { NoFactNotSatisfied(sp, ts, u, r); }
    } else {
      var r := SomeSatisfying(sp, ts);
      assert Satisfies(sp, ts, r) && r !in AllRows(sp, ts, 0, map[]);
    }
  }

  lemma UnknownHasNoFact(sp: Space, t: Triple)
    requires !Known(sp, t)
    ensures NoFact(sp, t)
  {
    var p: nat :| p < 3 && !IsVar(FieldAt(t, p)) && Stands(sp, t, p).None?;
  }

  /**
   A given name that stands for nothing makes a pattern that nothing satisfies; whatever the other patterns, the query
   still returns rows unless some pattern has no matching link at all.
   */
  lemma UnknownNameExactIff(sp: Space, ts: seq<Triple>)
    requires exists t :: t in ts && !Known(sp, t)
    ensures Exact(sp, ts) <==> exists u :: u in ts && NoMatch(sp, u)
  {
    var t :| t in ts && !Known(sp, t);
    UnknownHasNoFact(sp, t);
    NoFactExactIff(sp, ts, t);
  }

  // ---- Patterns one by one

  /** The assignment with the values of r for one pattern's variables still gives the other patterns theirs. */
  lemma Overlaid(ts: seq<Triple>, base: Row, r: Row, t: Triple, u: Triple, e: Eval)
    requires Linear(ts) && t in ts && u in ts && Assigns([t], r)
    requires Gives(if u == t then r else base, u, e)
    ensures Gives(base + r, u, e)
  {
    forall p: nat | p < 3 && IsVar(FieldAt(u, p))
      ensures FieldAt(u, p) in base + r && (base + r)[FieldAt(u, p)] == PartAt(e, p)
    {
      var v := FieldAt(u, p);
      if v in r {
        assert Binds([t], v) && Has(t, v);
        HasIs(t, v);
        assert u == t;
      }
    }
  }

  lemma Underlaid(base: Row, r: Row, t: Triple, e: Eval)
    requires Assigns([t], r) && Gives(base + r, t, e)
    ensures Gives(r, t, e)
  {
    forall p: nat | p < 3 && IsVar(FieldAt(t, p)) ensures FieldAt(t, p) in r && r[FieldAt(t, p)] == PartAt(e, p) {
      HasIs(t, FieldAt(t, p));
      assert t in [t] && Binds([t], FieldAt(t, p));
    }
  }

  lemma OverlaidAssigns(ts: seq<Triple>, base: Row, r: Row, t: Triple)
    requires t in ts && Assigns(ts, base) && Assigns([t], r)
    ensures Assigns(ts, base + r)
  {
    forall v | v in r ensures Binds(ts, v) { assert Binds([t], v); }
  }

  /** If the whole query is exact and has a row, a row of one pattern alone is part of a row of the whole. */
  lemma FoundHolds(sp: Space, ts: seq<Triple>, base: Row, t: Triple, r: Row)
    requires ts != [] && Linear(ts) && Exact(sp, ts) && base in AllRows(sp, ts, 0, map[]) && t in ts
    requires Assigns([t], r) && Found(sp, r, t)
    ensures Holds(sp, r, t)
  {
    LinearRowIff(sp, ts, base);
    OverlaidAssigns(ts, base, r, t);
    forall u | u in ts ensures Found(sp, base + r, u) {
      var x := if u == t then r else base;
      var e :| e in sp.evals && Matches(sp, u, e) && Gives(x, u, e);
      Overlaid(ts, base, r, t, u, e);
    }
    LinearRowIff(sp, ts, base + r);
    assert Satisfies(sp, ts, base + r);
    var e :| e in sp.evals && Meant(sp, t, e) && Gives(base + r, t, e);
    Underlaid(base, r, t, e);
  }

  lemma HoldsFound(sp: Space, ts: seq<Triple>, base: Row, t: Triple, r: Row)
    requires ts != [] && Linear(ts) && Exact(sp, ts) && base in AllRows(sp, ts, 0, map[]) && t in ts
    requires Assigns([t], r) && Holds(sp, r, t)
    ensures Found(sp, r, t)
  {
    assert Satisfies(sp, ts, base);
    OverlaidAssigns(ts, base, r, t);
    forall u | u in ts ensures Holds(sp, base + r, u) {
      var x := if u == t then r else base;
      var e :| e in sp.evals && Meant(sp, u, e) && Gives(x, u, e);
      Overlaid(ts, base, r, t, u, e);
    }
    assert Satisfies(sp, ts, base + r);
    LinearRowIff(sp, ts, base + r);
    var e :| e in sp.evals && Matches(sp, t, e) && Gives(base + r, t, e);
    Underlaid(base, r, t, e);
  }

  lemma LinearAlone(ts: seq<Triple>, t: Triple)
    requires Linear(ts) && t in ts
    ensures Linear([t])
  {
  }

  lemma ExactAlone(sp: Space, ts: seq<Triple>, base: Row, t: Triple)
    requires ts != [] && Linear(ts) && Exact(sp, ts) && base in AllRows(sp, ts, 0, map[]) && t in ts
    ensures Exact(sp, [t])
  {
    LinearAlone(ts, t);
    forall r ensures r in AllRows(sp, [t], 0, map[]) <==> Satisfies(sp, [t], r) {
      LinearRowIff(sp, [t], r);
      if Assigns([t], r) && Found(sp, r, t) { FoundHolds(sp, ts, base, t, r); }
      if Assigns([t], r) && Holds(sp, r, t) { HoldsFound(sp, ts, base, t, r); }
      assert t in [t];
    }
  }

  /** The values of one pattern's variables. */
  function Part(r: Row, t: Triple): Row {
    map v | v in r && Has(t, v) :: r[v]
  }

  lemma PartGives(r: Row, t: Triple, e: Eval)
    ensures Gives(Part(r, t), t, e) <==> Gives(r, t, e)
  {
    forall p: nat | p < 3 && IsVar(FieldAt(t, p)) ensures Has(t, FieldAt(t, p)) { HasIs(t, FieldAt(t, p)); }
  }

  /** If the pattern alone is exact, the links found for it are as good as those it means. */
  lemma AloneFoundIsHolds(sp: Space, t: Triple, r: Row)
    requires Exact(sp, [t]) && Linear([t]) && forall v :: Has(t, v) ==> v in r
    ensures Found(sp, r, t) <==> Holds(sp, r, t)
  {
    var x := Part(r, t);
    assert t in [t];
    forall v ensures v in x <==> Binds([t], v) {}
    forall e ensures Gives(x, t, e) <==> Gives(r, t, e) { PartGives(r, t, e); }
    LinearRowIff(sp, [t], x);
    assert x in AllRows(sp, [t], 0, map[]) <==> Satisfies(sp, [t], x);
    assert Found(sp, x, t) <==> Found(sp, r, t);
    assert Holds(sp, x, t) <==> Holds(sp, r, t);
  }

  lemma AllExactAlone(sp: Space, ts: seq<Triple>)
    requires ts != [] && Linear(ts) && forall t :: t in ts ==> Exact(sp, [t])
    ensures Exact(sp, ts)
  {
    forall r ensures r in AllRows(sp, ts, 0, map[]) <==> Satisfies(sp, ts, r) {
      LinearRowIff(sp, ts, r);
      if Assigns(ts, r) {
        forall t | t in ts ensures Found(sp, r, t) <==> Holds(sp, r, t) {
          LinearAlone(ts, t);
          AloneFoundIsHolds(sp, t, r);
        }
      }
    }
  }

  /**
   In every space, a query without a shared variable is exact exactly when each of its patterns is exact alone, or some
   pattern has no match and some pattern no fact.
   */
  lemma ConjunctionExactIff(sp: Space, ts: seq<Triple>)
    requires ts != [] && Linear(ts)
    ensures Exact(sp, ts) <==>
            || (forall t :: t in ts ==> Exact(sp, [t]))
            || ((exists t :: t in ts && NoMatch(sp, t)) && exists t :: t in ts && NoFact(sp, t))
  {
    if t :| t in ts && NoMatch(sp, t) {
      LinearAlone(ts, t);
      NoMatchExactIff(sp, ts, t);
      NoMatchExactIff(sp, [t], t);
    } else if t :| t in ts && NoFact(sp, t) {
      NoFactExactIff(sp, ts, t);
      NoFactExactIff(sp, [t], t);
    } else {
      var base := SomeRow(sp, ts);
      if Exact(sp, ts) {
        forall t | t in ts ensures Exact(sp, [t]) { ExactAlone(sp, ts, base, t); }
      }
      if forall t :: t in ts ==> Exact(sp, [t]) { AllExactAlone(sp, ts); }
    }
  }

  /** Every link has a predicate first and none further on, as the loader writes them. */
  predicate Regular(sp: Space) {
    forall e :: e in sp.evals && e.Eval? ==>
      && e.pred.Node? && e.pred.kind == PredicateNode
      && forall a :: a in e.more ==> !(a.Node? && a.kind == PredicateNode)
  }

  /** The matcher reads the names of the pattern rightly, or they make no difference. */
  predicate Readable(sp: Space, t: Triple) {
    if !Known(sp, t) then NoMatch(sp, t) else if Hidden(sp, t) then NoFact(sp, t) else true
  }

  lemma HiddenHasNoMatch(sp: Space, t: Triple)
    requires Regular(sp) && Hidden(sp, t)
    ensures NoMatch(sp, t)
  {
  }

  lemma PatternExactIff(sp: Space, t: Triple)
    requires Regular(sp) && Linear([t])
    ensures Exact(sp, [t]) <==> Readable(sp, t)
  {
    assert forall u :: u in [t] <==> u == t;
    if !Known(sp, t) {
      UnknownHasNoFact(sp, t);
      NoFactExactIff(sp, [t], t);
    } else if Hidden(sp, t) {
      HiddenHasNoMatch(sp, t);
      NoMatchExactIff(sp, [t], t);
    } else {
      LinearIsExact(sp, [t]);
    }
  }

  /**
   So, over links as the loader writes them, a query without a shared variable is exact exactly when all its names are
   readable, or some pattern has no match and some pattern no fact.
   */
  lemma NamesExactIff(sp: Space, ts: seq<Triple>)
    requires ts != [] && Regular(sp) && Linear(ts)
    ensures Exact(sp, ts) <==>
            || (forall t :: t in ts ==> Readable(sp, t))
            || ((exists t :: t in ts && NoMatch(sp, t)) && exists t :: t in ts && NoFact(sp, t))
  {
    ConjunctionExactIff(sp, ts);
    forall t | t in ts ensures Exact(sp, [t]) <==> Readable(sp, t) {
      LinearAlone(ts, t);
      PatternExactIff(sp, t);
    }
  }

  /** There a satisfying assignment is returned exactly when no concept hides a given predicate. */
  lemma SatisfyingIsRowIff(sp: Space, ts: seq<Triple>, r: Row)
    requires ts != [] && Regular(sp) && Satisfies(sp, ts, r)
    ensures r in AllRows(sp, ts, 0, map[]) <==> forall t :: t in ts ==> !Hidden(sp, t)
  {
    if t :| t in ts && Hidden(sp, t) {
      HiddenHasNoMatch(sp, t);
      NoMatchNoRow(sp, ts, t, r);
    } else {
      SatisfyingIsRow(sp, ts, r);
    }
  }

  /**
   With a limit, at most that many rows of an exact query come back, all of them satisfying; without one, all there
   are.
   */
  lemma LimitedRowsSatisfy(sp: Space, ts: seq<Triple>, limit: nat, r: Row)
    requires Exact(sp, ts)
    ensures var rows := Cut([], AllRows(sp, ts, 0, map[]), limit);
            && (limit > 0 ==> |rows| <= limit)
            && (r in rows ==> Satisfies(sp, ts, r))
            && (limit == 0 || |rows| < limit ==> (Satisfies(sp, ts, r) ==> r in rows))
  {
    LimitIsPrefix(sp, ts, limit);
  }

  // ---- One name, two meanings

  /** One fact, whose predicate shares its name with a concept. */
  function SharedName(): Space {
    var p, s, o := Node(PredicateNode, "is"), Node(ConceptNode, "cat"), Node(ConceptNode, "pet");
    Space({p, s, o, Node(ConceptNode, "is")}, [Eval(p, s, o, [])])
  }

  lemma OneFact(sp: Space, t: Triple, e: Eval)
    requires sp.evals == [e]
    ensures AllRows(sp, [t], 0, map[]) == if Matches(sp, t, e) then [Bind(map[], t, e)] else []
  {
    assert RowsOver(sp, [t], 0, map[], 0) == [];
    assert RowsOver(sp, [t], 0, map[], 1) == if Matches(sp, t, e) then AllRows(sp, [t], 1, Bind(map[], t, e)) else [];
  }

  /** With the subject given the fact is found; with the object given and the subject asked for it is not. */
  lemma OneNameTwoMeanings()
    ensures Regular(SharedName())
    ensures AllRows(SharedName(), [Triple("cat", "is", "?y")], 0, map[]) == [map["?y" := Node(ConceptNode, "pet")]]
    ensures Exact(SharedName(), [Triple("cat", "is", "?y")])
    ensures AllRows(SharedName(), [Triple("?x", "is", "pet")], 0, map[]) == []
    ensures !Exact(SharedName(), [Triple("?x", "is", "pet")])
  {
    var sp, asked, hidden := SharedName(), Triple("cat", "is", "?y"), Triple("?x", "is", "pet");
    var e := sp.evals[0];
    assert !IsVar("cat") && !IsVar("is") && !IsVar("pet") && IsVar("?x") && IsVar("?y");
    OneFact(sp, asked, e);
    OneFact(sp, hidden, e);
    MeantPlaces(sp, hidden, e);
    assert Hidden(sp, hidden) && !NoFact(sp, hidden);
    PatternExactIff(sp, hidden);
    assert Known(sp, asked);
    PatternExactIff(sp, asked);
  }

  /** A subject that stands for nothing is found to have every fact. */
  lemma UnknownNameMisleads()
    ensures AllRows(SharedName(), [Triple("dog", "?p", "?y")], 0, map[])
         == [map["?p" := Node(PredicateNode, "is"), "?y" := Node(ConceptNode, "pet")]]
    ensures forall r :: !Satisfies(SharedName(), [Triple("dog", "?p", "?y")], r)
  {
    var sp, t := SharedName(), Triple("dog", "?p", "?y");
    assert !IsVar("dog") && IsVar("?p") && IsVar("?y");
    assert "dog"[0] != "cat"[0] && "dog"[0] != "is"[0] && "dog"[0] != "pet"[0];
    OneFact(sp, t, sp.evals[0]);
    assert Stands(sp, t, 0).None? && !Known(sp, t);
    UnknownHasNoFact(sp, t);
    forall r ensures !Satisfies(sp, [t], r) { NoFactNotSatisfied(sp, [t], t, r); }
  }
}
