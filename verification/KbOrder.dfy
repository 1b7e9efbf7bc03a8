/** When the order of a query's patterns makes no difference to its rows. */
module KbOrder {
  import opened KbQuery
  import opened KbMeaning

  /** The place that a variable's binding comes from: the last of its places. */
  function PlaceOf(t: Triple, v: string): (p: nat)
    requires Has(t, v)
    ensures p < 3 && FieldAt(t, p) == v && forall q: nat :: p < q < 3 ==> FieldAt(t, q) != v
  {
    if v == t.obj then 2 else if v == t.pred then 1 else 0
  }

  /**
   The two patterns have the same given names at the same places, and bind the same variables from the same places.
   */
  ghost predicate Alike(t: Triple, u: Triple) {
    && (forall p: nat :: p < 3 ==> IsVar(FieldAt(t, p)) == IsVar(FieldAt(u, p)))
    && (forall p: nat :: p < 3 && !IsVar(FieldAt(t, p)) ==> FieldAt(t, p) == FieldAt(u, p))
    && (forall v :: Has(t, v) <==> Has(u, v))
    && (forall v :: Has(t, v) ==> PlaceOf(t, v) == PlaceOf(u, v))
  }

  /** Patterns that share a variable bind alike. */
  ghost predicate Separate(ts: seq<Triple>) {
    forall t, u, v :: t in ts && u in ts && Has(t, v) && Has(u, v) ==> Alike(t, u)
  }

  /** The link binds the pattern's variables to what the assignment says. */
  ghost predicate Leaves(r: Row, t: Triple, e: Eval) {
    e.Eval? && forall v :: Has(t, v) ==> v in r && r[v] == PartAt(e, PlaceOf(t, v))
  }

  /** The assignment is what some link that the matcher takes for the pattern leaves. */
  ghost predicate FoundAs(sp: Space, r: Row, t: Triple) {
    exists e :: e in sp.evals && Matches(sp, t, e) && Leaves(r, t, e)
  }

  lemma BindPlace(b: Row, t: Triple, e: Eval, v: string)
    requires e.Eval? && Has(t, v)
    ensures v in Bind(b, t, e) && Bind(b, t, e)[v] == PartAt(e, PlaceOf(t, v))
  {
    BindIs(b, t, e, v);
  }

  lemma AlikeMatches(sp: Space, t: Triple, u: Triple, e: Eval)
    requires Alike(t, u)
    ensures Matches(sp, t, e) <==> Matches(sp, u, e)
  {
    assert IsVar(FieldAt(t, 0)) == IsVar(FieldAt(u, 0)) && (!IsVar(FieldAt(t, 0)) ==> FieldAt(t, 0) == FieldAt(u, 0));
    assert IsVar(FieldAt(t, 1)) == IsVar(FieldAt(u, 1)) && (!IsVar(FieldAt(t, 1)) ==> FieldAt(t, 1) == FieldAt(u, 1));
    assert IsVar(FieldAt(t, 2)) == IsVar(FieldAt(u, 2)) && (!IsVar(FieldAt(t, 2)) ==> FieldAt(t, 2) == FieldAt(u, 2));
  }

  // ---- Rows of separate patterns

  /** What a link leaves that the row takes no other binding over. */
  lemma {:induction false} LeftBinds(ts: seq<Triple>, c: seq<Eval>, r: Row, n: nat, v: string)
    requires n <= |ts| == |c| && (forall i :: 0 <= i < |c| ==> c[i].Eval?)
    requires forall i :: 0 <= i < |ts| ==> Leaves(r, ts[i], c[i])
    requires v in BindAll(ts, c, n)
    ensures v in r && BindAll(ts, c, n)[v] == r[v]
  {
    if n > 0 {
      var t, e := ts[n - 1], c[n - 1];
      BindIs(BindAll(ts, c, n - 1), t, e, v);
      if Has(t, v) { BindPlace(BindAll(ts, c, n - 1), t, e, v); } else { LeftBinds(ts, c, r, n - 1, v); }
    }
  }

  lemma {:induction false} FoundAsChoice(sp: Space, ts: seq<Triple>, r: Row, n: nat) returns (c: seq<Eval>)
    requires n <= |ts| && forall t :: t in ts ==> FoundAs(sp, r, t)
    ensures |c| == n && (forall i :: 0 <= i < n ==> c[i].Eval?)
    ensures forall i :: 0 <= i < n ==> c[i] in sp.evals && Matches(sp, ts[i], c[i]) && Leaves(r, ts[i], c[i])
  {
    c := [];
    if n > 0 {
      c := FoundAsChoice(sp, ts, r, n - 1);
      assert FoundAs(sp, r, ts[n - 1]);
      var e :| e in sp.evals && Matches(sp, ts[n - 1], e) && Leaves(r, ts[n - 1], e);
      c := c + [e];
    }
  }

  /** Whatever the patterns, an assignment that a link leaves for each of them is a row. */
  lemma FoundAsIsRow(sp: Space, ts: seq<Triple>, r: Row)
    requires ts != [] && Assigns(ts, r) && forall t :: t in ts ==> FoundAs(sp, r, t)
    ensures r in AllRows(sp, ts, 0, map[])
  {
    var c := FoundAsChoice(sp, ts, r, |ts|);
    LeftRow(ts, c, r);
    ChoiceIsRow(sp, ts, c, 0);
  }

  lemma LeftRow(ts: seq<Triple>, c: seq<Eval>, r: Row)
    requires |ts| == |c| && (forall i :: 0 <= i < |c| ==> c[i].Eval?) && Assigns(ts, r)
    requires forall i :: 0 <= i < |ts| ==> Leaves(r, ts[i], c[i])
    ensures BindAll(ts, c, |ts|) == r
  {
    RowAssigns(ts, c);
    var b := BindAll(ts, c, |ts|);
    forall v | v in b ensures v in r && b[v] == r[v] { LeftBinds(ts, c, r, |ts|, v); }
    assert forall v :: v in b <==> v in r;
  }

  /** The last index of a pattern with the variable. */
  lemma {:induction false} LastWith(ts: seq<Triple>, v: string, n: nat) returns (k: nat)
    requires n <= |ts| && exists i :: 0 <= i < n && Has(ts[i], v)
    ensures k < n && Has(ts[k], v) && forall i :: k < i < n ==> !Has(ts[i], v)
  {
    if Has(ts[n - 1], v) { k := n - 1; } else { k := LastWith(ts, v, n - 1); }
  }

  /** In the row of a choice a variable is bound by the last pattern that has it. */
  lemma {:induction false} LastHas(ts: seq<Triple>, c: seq<Eval>, v: string, k: nat)
    requires |ts| == |c| && (forall i :: 0 <= i < |c| ==> c[i].Eval?)
    requires k < |ts| && Has(ts[k], v) && forall i :: k < i < |ts| ==> !Has(ts[i], v)
    ensures v in BindAll(ts, c, |ts|) && BindAll(ts, c, |ts|)[v] == PartAt(c[k], PlaceOf(ts[k], v))
  {
    BindPlace(BindAll(ts, c, k), ts[k], c[k], v);
    assert BindAll(ts, c, k + 1) == Bind(BindAll(ts, c, k), ts[k], c[k]);
    Keeps(ts, c, k + 1, |ts|, v);
  }

  lemma AlikeHas(ts: seq<Triple>, t: Triple, u: Triple, v: string, v': string)
    requires Separate(ts) && t in ts && u in ts && Has(t, v) && Has(t, v')
    ensures Has(u, v') ==> Has(u, v)
  {
  }

  /** Alike patterns are last together: one index is the last for all variables of a pattern. */
  lemma {:induction false} LastOfAlike(ts: seq<Triple>, t: Triple, v: string, k: nat, v': string)
    requires Separate(ts) && t in ts && Has(t, v) && Has(t, v')
    requires k < |ts| && Has(ts[k], v) && forall i :: k < i < |ts| ==> !Has(ts[i], v)
    ensures Has(ts[k], v') && forall i :: k < i < |ts| ==> !Has(ts[i], v')
  {
    assert Alike(t, ts[k]);
    forall i | k < i < |ts| ensures !Has(ts[i], v') {
      AlikeHas(ts, t, ts[i], v, v');
    }
  }

  lemma SeparateRowFound(sp: Space, ts: seq<Triple>, c: seq<Eval>, t: Triple)
    requires Separate(ts) && Choice(sp, ts, c) && t in ts
    ensures FoundAs(sp, BindAll(ts, c, |ts|), t)
  {
    var r := BindAll(ts, c, |ts|);
    if v :| Has(t, v) {
      var k := LastWith(ts, v, |ts|);
      assert Alike(t, ts[k]);
      AlikeMatches(sp, t, ts[k], c[k]);
      forall v' | Has(t, v') ensures v' in r && r[v'] == PartAt(c[k], PlaceOf(t, v')) {
        LastOfAlike(ts, t, v, k, v');
        LastHas(ts, c, v', k);
      }
      assert Matches(sp, ts[k], c[k]);
    } else {
      var k := LastOf(ts, t);
      assert Matches(sp, ts[k], c[k]) && Leaves(r, t, c[k]);
    }
  }

  lemma SeparateRowIff(sp: Space, ts: seq<Triple>, r: Row)
    requires ts != [] && Separate(ts)
    ensures r in AllRows(sp, ts, 0, map[]) <==> Assigns(ts, r) && forall t :: t in ts ==> FoundAs(sp, r, t)
  {
    RowsAreChoices(sp, ts, r);
    if r in AllRows(sp, ts, 0, map[]) {
      var c :| Choice(sp, ts, c) && r == BindAll(ts, c, |ts|);
      RowAssigns(ts, c);
      forall t | t in ts ensures FoundAs(sp, r, t) { SeparateRowFound(sp, ts, c, t); }
    } else if Assigns(ts, r) && forall t :: t in ts ==> FoundAs(sp, r, t) {
      FoundAsIsRow(sp, ts, r);
    }
  }

  // ---- Where the order matters

  /** In every space the rows, as a set, depend on neither the order nor the repetition of the patterns. */
  ghost predicate OrderIgnored(ts: seq<Triple>) {
    forall sp, us, r {:trigger r in AllRows(sp, us, 0, map[])} ::
      us != [] && SamePatterns(ts, us) ==> (r in AllRows(sp, ts, 0, map[]) <==> r in AllRows(sp, us, 0, map[]))
  }

  ghost predicate SamePatterns(ts: seq<Triple>, us: seq<Triple>) {
    forall t :: t in ts <==> t in us
  }

  lemma RepeatedAtEnd(ts: seq<Triple>, t: Triple)
    requires t in ts
    ensures SamePatterns(ts, ts + [t])
  {
  }

  /** The own facts of the patterns, and again that of the pattern repeated at the end. */
  function OwnAgain(ts: seq<Triple>, i: nat): (c: seq<Eval>)
    requires i < |ts|
    ensures |c| == |ts| + 1 && (forall k :: 0 <= k < |ts| ==> c[k] == OwnFact(ts, k)) && c[|ts|] == OwnFact(ts, i)
    ensures forall k :: 0 <= k < |c| ==> c[k].Eval?
  {
    seq(|ts|, k requires 0 <= k < |ts| => OwnFact(ts, k)) + [OwnFact(ts, i)]
  }

  lemma OwnAgainIsRow(ts: seq<Triple>, i: nat)
    requires i < |ts|
    ensures var us, c := ts + [ts[i]], OwnAgain(ts, i); BindAll(us, c, |us|) in AllRows(OwnSpace(ts), us, 0, map[])
  {
    var us, c := ts + [ts[i]], OwnAgain(ts, i);
    forall k | 0 <= k < |us| ensures c[k] in OwnSpace(ts).evals && Matches(OwnSpace(ts), us[k], c[k]) {
      OwnMatches(ts, if k < |ts| then k else i);
    }
    ChoiceIsRow(OwnSpace(ts), us, c, 0);
  }

  lemma {:induction false} FirstPart(ts: seq<Triple>, us: seq<Triple>, c: seq<Eval>, d: seq<Eval>, n: nat)
    requires n <= |ts| <= |us| && |ts| <= |c| && |us| <= |d|
    requires (forall k :: 0 <= k < n ==> c[k].Eval?) && forall k :: 0 <= k < n ==> ts[k] == us[k] && d[k] == c[k]
    ensures BindAll(ts, c, n) == BindAll(us, d, n)
  {
    if n > 0 { FirstPart(ts, us, c, d, n - 1); }
  }

  /**
   In that row a variable of the repeated pattern is bound to the pattern's own atom, any other to one of its places.
   */
  lemma OwnAgainBinds(ts: seq<Triple>, i: nat, v: string) returns (k: nat, p: nat)
    requires i < |ts| && v in BindAll(ts + [ts[i]], OwnAgain(ts, i), |ts| + 1)
    ensures k < |ts| && p < 3 && IsVar(v) && FieldAt(ts[k], p) == v
    ensures BindAll(ts + [ts[i]], OwnAgain(ts, i), |ts| + 1)[v] == Other(3 * k + p)
    ensures Has(ts[i], v) ==> k == i && p == PlaceOf(ts[i], v)
  {
    var us, c := ts + [ts[i]], OwnAgain(ts, i);
    var b := BindAll(us, c, |ts|);
    BindIs(b, ts[i], c[|ts|], v);
    if Has(ts[i], v) {
      k, p := i, PlaceOf(ts[i], v);
      BindPlace(b, ts[i], c[|ts|], v);
    } else {
      FirstPart(ts, us, c[..|ts|], c, |ts|);
      OwnBinding(ts, c[..|ts|], |ts|, v);
      k, p :| k < |ts| && p < 3 && FieldAt(ts[k], p) == v && IsVar(v)
           && BindAll(ts, c[..|ts|], |ts|)[v] == Other(3 * k + p);
    }
  }

  /** The link that the last pattern of a row was matched with. */
  lemma LastLink(ts: seq<Triple>, u: Triple, r: Row) returns (j: nat)
    requires r in AllRows(OwnSpace(ts), ts + [u], 0, map[])
    ensures j < |ts| && Matches(OwnSpace(ts), u, OwnFact(ts, j))
    ensures forall v :: Has(u, v) ==> v in r && r[v] == OwnAtom(ts, j, PlaceOf(u, v))
  {
    var sp, us := OwnSpace(ts), ts + [u];
    RowsAreChoices(sp, us, r);
    var c :| Choice(sp, us, c) && r == BindAll(us, c, |us|);
    assert c[|ts|] in sp.evals && Matches(sp, us[|ts|], c[|ts|]);
    j :| 0 <= j < |sp.evals| && sp.evals[j] == c[|ts|];
    forall v | Has(u, v) ensures v in r && r[v] == OwnAtom(ts, j, PlaceOf(u, v)) {
      BindPlace(BindAll(us, c, |ts|), u, c[|ts|], v);
      assert PartAt(OwnFact(ts, j), PlaceOf(u, v)) == OwnAtom(ts, j, PlaceOf(u, v));
    }
  }

  /** An own atom that is no node is that of a variable's place. */
  lemma OwnOther(ts: seq<Triple>, j: nat, q: nat, k: nat, p: nat)
    requires j < |ts| && q < 3 && p < 3 && OwnAtom(ts, j, q) == Other(3 * k + p)
    ensures k == j && p == q
  {
    Thirds(k, p, j, q);
  }

  lemma OwnRowFor(ts: seq<Triple>, i: nat, u: Triple, v: string) returns (r: Row, j: nat)
    requires OrderIgnored(ts) && i < |ts| && u in ts && Has(ts[i], v) && Has(u, v)
    ensures r == BindAll(ts + [ts[i]], OwnAgain(ts, i), |ts| + 1)
    ensures j == i && Matches(OwnSpace(ts), u, OwnFact(ts, i))
    ensures forall w :: Has(u, w) ==> w in r && r[w] == OwnAtom(ts, i, PlaceOf(u, w))
  {
    r := BindAll(ts + [ts[i]], OwnAgain(ts, i), |ts| + 1);
    OwnAgainIsRow(ts, i);
    RepeatedAtEnd(ts, ts[i]);
    RepeatedAtEnd(ts, u);
    j := LastLink(ts, u, r);
    var k, p := OwnAgainBinds(ts, i, v);
    OwnOther(ts, j, PlaceOf(u, v), k, p);
  }

  /**
   If the order makes no difference, a pattern that shares a variable with another has its names and its variables.
   */
  lemma HalfAlike(ts: seq<Triple>, i: nat, u: Triple, v: string)
    requires OrderIgnored(ts) && i < |ts| && u in ts && Has(ts[i], v) && Has(u, v)
    ensures forall p: nat :: p < 3 && !IsVar(FieldAt(u, p)) ==> FieldAt(ts[i], p) == FieldAt(u, p)
    ensures forall w :: Has(u, w) ==> Has(ts[i], w) && PlaceOf(ts[i], w) == PlaceOf(u, w)
  {
    var sp, f := OwnSpace(ts), OwnFact(ts, i);
    var r, j := OwnRowFor(ts, i, u, v);
    forall w | Has(u, w) ensures Has(ts[i], w) && PlaceOf(ts[i], w) == PlaceOf(u, w) {
      var k, p := OwnAgainBinds(ts, i, w);
      OwnOther(ts, i, PlaceOf(u, w), k, p);
      HasIs(ts[i], w);
    }
    OwnIsWellNamed(ts);
    assert Named(sp, u) && f == sp.evals[i];
    MatchIsMeant(sp, u, f);
    forall p: nat | p < 3 && !IsVar(FieldAt(u, p)) ensures FieldAt(ts[i], p) == FieldAt(u, p) {
      OwnStands(ts, u, p);
      assert PartAt(f, p) == OwnAtom(ts, i, p);
      OwnName(ts, i, p, FieldAt(u, p));
    }
  }

  lemma IgnoredIsSeparate(ts: seq<Triple>)
    requires OrderIgnored(ts)
    ensures Separate(ts)
  {
    forall t, u, v | t in ts && u in ts && Has(t, v) && Has(u, v) ensures Alike(t, u) {
      HalfAlike(ts, LastOf(ts, t), u, v);
      HalfAlike(ts, LastOf(ts, u), t, v);
    }
  }

  lemma SeparateIsIgnored(ts: seq<Triple>)
    requires Separate(ts)
    ensures OrderIgnored(ts)
  {
    forall sp, us, r | us != [] && SamePatterns(ts, us)
      ensures r in AllRows(sp, ts, 0, map[]) <==> r in AllRows(sp, us, 0, map[])
    {
      assert us[0] in ts;
      SeparateRowIff(sp, ts, r);
      SeparateRowIff(sp, us, r);
      assert forall v :: Binds(ts, v) <==> Binds(us, v);
    }
  }

  /**
   The rows of a query, as a set, depend on neither the order nor the repetition of its patterns, in any space, exactly
   when patterns that share a variable have the same names and bind the same variables from the same places.
   */
  lemma OrderIgnoredIff(ts: seq<Triple>)
    ensures OrderIgnored(ts) <==> Separate(ts)
  {
    if OrderIgnored(ts) { IgnoredIsSeparate(ts); }
    if Separate(ts) { SeparateIsIgnored(ts); }
  }

  /** A query without a shared variable is such a query. */
  lemma LinearIsSeparate(ts: seq<Triple>)
    requires Linear(ts)
    ensures Separate(ts)
  {
    forall t, u, v | t in ts && u in ts && Has(t, v) && Has(u, v) ensures Alike(t, u) {
      assert FieldAt(t, PlaceOf(t, v)) == FieldAt(u, PlaceOf(u, v));
    }
  }

  /** Without a shared variable the rows, as a set, depend on neither the order nor the repetition of the patterns. */
  lemma RowsIgnoreOrder(sp: Space, ts: seq<Triple>, us: seq<Triple>, r: Row)
    requires ts != [] && us != [] && Linear(ts) && SamePatterns(ts, us)
    ensures r in AllRows(sp, ts, 0, map[]) <==> r in AllRows(sp, us, 0, map[])
  {
    LinearIsSeparate(ts);
    SeparateIsIgnored(ts);
  }
}
