/**
 Triple-pattern queries over the evaluation links of an atom space: what the backtracking matcher returns, and when
 that is what the patterns mean.
 */
module KbQuery {
  datatype Option<T> = None | Some(value: T)

  datatype NodeKind = ConceptNode | PredicateNode

  /** An atom: a node is known by its kind and name, any other atom by a number. */
  datatype Atom = Node(kind: NodeKind, name: string) | Other(n: nat)

  /** An evaluation link of a predicate and a list of two or more atoms, with its further members; or a shorter one. */
  datatype Eval = Eval(pred: Atom, subj: Atom, obj: Atom, more: seq<Atom>) | Short

  datatype Space = Space(nodes: set<Atom>, evals: seq<Eval>)

  datatype Triple = Triple(subj: string, pred: string, obj: string)

  type Row = map<string, Atom>

  predicate IsVar(f: string) {
    f != [] && f[0] == '?'
  }

  /** A concrete name stands for the concept of that name, or else for the predicate. */
  function Resolve(sp: Space, f: string): Option<Atom> {
    if Node(ConceptNode, f) in sp.nodes then Some(Node(ConceptNode, f))
    else if Node(PredicateNode, f) in sp.nodes then Some(Node(PredicateNode, f))
    else None
  }

  /** A variable, and a name that stands for nothing, fit every atom. */
  predicate Fits(sp: Space, f: string, a: Atom) {
    IsVar(f) || Resolve(sp, f) == None || Resolve(sp, f) == Some(a)
  }

  /** Subject and predicate are given: the objects are found from the predicate's links. */
  predicate Fast(sp: Space, t: Triple) {
    !IsVar(t.subj) && Resolve(sp, t.subj).Some? && !IsVar(t.pred) && Resolve(sp, t.pred).Some?
  }

  predicate Matches(sp: Space, t: Triple, e: Eval) {
    e.Eval? && Fits(sp, t.subj, e.subj) && Fits(sp, t.obj, e.obj) &&
    if Fast(sp, t) then
      var p := Node(PredicateNode, t.pred);
      p in sp.nodes && (e.pred == p || p in e.more)
    else Fits(sp, t.pred, e.pred)
  }

  function BindField(b: Row, f: string, a: Atom): Row {
    if IsVar(f) then b[f := a] else b
  }

  /** A match overwrites what its variables were bound to. */
  function Bind(b: Row, t: Triple, e: Eval): Row
    requires e.Eval?
  {
    BindField(BindField(BindField(b, t.subj, e.subj), t.pred, e.pred), t.obj, e.obj)
  }

  // ---- The matcher

  /** All rows from the i-th pattern on, over the first j links, given what is bound so far. */
  function RowsOver(sp: Space, ts: seq<Triple>, i: nat, b: Row, j: nat): seq<Row>
    requires i < |ts| && j <= |sp.evals|
    decreases |ts| - i, 0, j
  {
    if j == 0 then []
    else
      var e := sp.evals[j - 1];
      RowsOver(sp, ts, i, b, j - 1) +
      if Matches(sp, ts[i], e) then AllRows(sp, ts, i + 1, Bind(b, ts[i], e)) else []
  }

  function AllRows(sp: Space, ts: seq<Triple>, i: nat, b: Row): seq<Row>
    requires i <= |ts|
    decreases |ts| - i, 1
  {
    if i == |ts| then [b] else RowsOver(sp, ts, i, b, |sp.evals|)
  }

  /** Appending rows up to a limit; 0 is no limit. */
  function Cut(base: seq<Row>, rows: seq<Row>, limit: nat): seq<Row> {
    if limit == 0 then base + rows
    else if |base| >= limit then base
    else if |base + rows| <= limit then base + rows
    else (base + rows)[..limit]
  }

  lemma CutTwice(base: seq<Row>, r: seq<Row>, q: seq<Row>, limit: nat)
    ensures Cut(Cut(base, r, limit), q, limit) == Cut(base, r + q, limit)
  {
    assert (base + r) + q == base + (r + q);
    if limit > 0 && |base| < limit < |base + r| {
      assert (base + r)[..limit] == (base + (r + q))[..limit];
    }
  }

  lemma CutNothing(base: seq<Row>, limit: nat)
    ensures Cut(base, [], limit) == base
  {
    assert base + [] == base;
  }

  class Matcher {
    const space: Space
    var initialized: bool
    var results: seq<Row>

    constructor (sp: Space)
      ensures space == sp && results == [] && !initialized
    {
      space, results, initialized := sp, [], false;
    }

    method Initialize() returns (ok: bool)
      modifies this`initialized
      ensures ok && initialized
    {
      initialized := true;
      ok := true;
    }

    /** The rows that the patterns from the i-th on add, in order, as far as the limit lets them. */
    method MatchPatterns(ts: seq<Triple>, i: nat, current: Row, limit: nat)
      requires i <= |ts|
      modifies this`results
      ensures results == Cut(old(results), AllRows(space, ts, i, current), limit)
      decreases |ts| - i
    {
      if limit > 0 && |results| >= limit { return; }
      if i == |ts| {
        results := results + [current];
        return;
      }
      CutNothing(results, limit);
      for j := 0 to |space.evals|
        invariant results == Cut(old(results), RowsOver(space, ts, i, current, j), limit)
      {
        var e := space.evals[j];
        CutNothing(results, limit);
        if Matches(space, ts[i], e) {
          var next := Bind(current, ts[i], e);
          CutTwice(old(results), RowsOver(space, ts, i, current, j), AllRows(space, ts, i + 1, next), limit);
          MatchPatterns(ts, i + 1, next, limit);
          if limit > 0 && |results| >= limit && !Fast(space, ts[i]) {
            CutFull(old(results), RowsOver(space, ts, i, current, j + 1), limit, ts, i, current, j + 1);
            return;
          }
        } else {
          assert RowsOver(space, ts, i, current, j + 1) == RowsOver(space, ts, i, current, j);
        }
      }
    }

    /** Once the limit is reached the remaining links add nothing. */
    lemma CutFull(base: seq<Row>, rows: seq<Row>, limit: nat, ts: seq<Triple>, i: nat, b: Row, j: nat)
      requires i < |ts| && j <= |space.evals| && rows == RowsOver(space, ts, i, b, j)
      requires 0 < limit <= |Cut(base, rows, limit)|
      ensures Cut(base, rows, limit) == Cut(base, AllRows(space, ts, i, b), limit)
    {
      RowsOverGrows(space, ts, i, b, j, |space.evals|);
      var all := AllRows(space, ts, i, b);
      var q := all[|rows|..];
      assert all == rows + q;
      CutTwice(base, rows, q, limit);
    }

    method Query(ts: seq<Triple>, limit: nat) returns (success: bool, rows: seq<Row>)
      modifies this`results
      ensures success == initialized
      ensures rows == if initialized && ts != [] then Cut([], AllRows(space, ts, 0, map[]), limit) else []
    {
      results := [];
      if !initialized { return false, []; }
      if ts == [] { return true, []; }
      MatchPatterns(ts, 0, map[], limit);
      return true, results;
    }
  }

  lemma {:induction false} RowsOverGrows(sp: Space, ts: seq<Triple>, i: nat, b: Row, j: nat, k: nat)
    requires i < |ts| && j <= k <= |sp.evals|
    ensures RowsOver(sp, ts, i, b, j) <= RowsOver(sp, ts, i, b, k)
    decreases k
  {
    if j < k { RowsOverGrows(sp, ts, i, b, j, k - 1); }
  }

  /** With a limit, the first rows of the unlimited answer come back. */
  lemma LimitIsPrefix(sp: Space, ts: seq<Triple>, limit: nat)
    ensures var all := AllRows(sp, ts, 0, map[]);
            Cut([], all, limit) == if limit == 0 || |all| <= limit then all else all[..limit]
  {
    var all := AllRows(sp, ts, 0, map[]);
    assert [] + all == all;
  }

  // ---- What the rows are

  /** One link for each pattern, from the first on. */
  predicate Choice(sp: Space, ts: seq<Triple>, c: seq<Eval>) {
    && |c| == |ts| && (forall i :: 0 <= i < |c| ==> c[i].Eval?)
    && forall i :: 0 <= i < |ts| ==> c[i] in sp.evals && Matches(sp, ts[i], c[i])
  }

  /** The bindings after the first n patterns. */
  function BindAll(ts: seq<Triple>, c: seq<Eval>, n: nat): Row
    requires n <= |ts| <= |c| && forall i :: 0 <= i < n ==> c[i].Eval?
  {
    if n == 0 then map[] else Bind(BindAll(ts, c, n - 1), ts[n - 1], c[n - 1])
  }

  lemma {:induction false} RowHasChoice(sp: Space, ts: seq<Triple>, i: nat, pre: seq<Eval>, j: nat, r: Row)
    requires i <= |ts| == |pre| && j <= |sp.evals| && forall k :: 0 <= k < i ==> pre[k].Eval?
    requires forall k :: 0 <= k < i ==> pre[k] in sp.evals && Matches(sp, ts[k], pre[k])
    requires if i == |ts| then r in AllRows(sp, ts, i, BindAll(ts, pre, i))
             else r in RowsOver(sp, ts, i, BindAll(ts, pre, i), j)
    ensures exists c :: Choice(sp, ts, c) && r == BindAll(ts, c, |ts|)
    decreases |ts| - i, j
  {
    if i == |ts| {
      assert Choice(sp, ts, pre);
    } else if j > 0 {
      var b, e := BindAll(ts, pre, i), sp.evals[j - 1];
      if r in RowsOver(sp, ts, i, b, j - 1) {
        RowHasChoice(sp, ts, i, pre, j - 1, r);
      } else {
        var next := pre[i := e];
        SamePrefix(ts, pre, next, i);
        assert BindAll(ts, next, i + 1) == Bind(b, ts[i], e);
        RowHasChoice(sp, ts, i + 1, next, |sp.evals|, r);
      }
    }
  }

  lemma {:induction false} SamePrefix(ts: seq<Triple>, c: seq<Eval>, d: seq<Eval>, n: nat)
    requires n <= |ts| <= |c| == |d| && forall i :: 0 <= i < n ==> c[i] == d[i] && c[i].Eval?
    ensures BindAll(ts, c, n) == BindAll(ts, d, n)
  {
    if n > 0 { SamePrefix(ts, c, d, n - 1); }
  }

  lemma {:induction false} ChoiceIsRow(sp: Space, ts: seq<Triple>, c: seq<Eval>, i: nat)
    requires Choice(sp, ts, c) && i <= |ts|
    ensures BindAll(ts, c, |ts|) in AllRows(sp, ts, i, BindAll(ts, c, i))
    decreases |ts| - i
  {
    if i < |ts| {
      var b, r := BindAll(ts, c, i), BindAll(ts, c, |ts|);
      ChoiceIsRow(sp, ts, c, i + 1);
      var j :| 0 <= j < |sp.evals| && sp.evals[j] == c[i];
      assert r in RowsOver(sp, ts, i, b, j + 1);
      RowsOverGrows(sp, ts, i, b, j + 1, |sp.evals|);
    }
  }

  /** The rows are the bindings that the choices leave: a matching link for each pattern, later ones overwriting. */
  lemma RowsAreChoices(sp: Space, ts: seq<Triple>, r: Row)
    requires ts != []
    ensures r in AllRows(sp, ts, 0, map[]) <==> exists c :: Choice(sp, ts, c) && r == BindAll(ts, c, |ts|)
  {
    if r in AllRows(sp, ts, 0, map[]) {
      RowHasChoice(sp, ts, 0, seq(|ts|, _ => Short), |sp.evals|, r);
    }
    if c :| Choice(sp, ts, c) && r == BindAll(ts, c, |ts|) {
      ChoiceIsRow(sp, ts, c, 0);
    }
  }
}
