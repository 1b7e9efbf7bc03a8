/** Searching a text for a pattern, and texts cut at their quotes. */
module TextSearch {
  datatype Option<T> = None | Some(value: T)

  lemma Assoc(a: string, b: string, c: string)
    ensures (a + b) + c == a + (b + c)
  {
  }

  predicate MatchAt(s: string, pat: string, p: nat) {
    p + |pat| <= |s| && forall i :: 0 <= i < |pat| ==> s[p + i] == pat[i]
  }

  /** The first position from `from` on at which pat occurs. */
  function Find(s: string, pat: string, from: nat): (r: Option<nat>)
    ensures r.Some? ==> from <= r.value && r.value + |pat| <= |s|
    decreases |s| - from
  {
    if MatchAt(s, pat, from) then Some(from)
    else if from >= |s| then None
    else Find(s, pat, from + 1)
  }

  /** Find returns a match, and none before it is a match. */
  lemma {:induction false} FindIsFirst(s: string, pat: string, from: nat)
    ensures var r := Find(s, pat, from);
            && (r.Some? ==> MatchAt(s, pat, r.value))
            && forall p :: from <= p && MatchAt(s, pat, p) ==> r.Some? && r.value <= p
    decreases |s| - from
  {
    if from < |s| && !MatchAt(s, pat, from) {
      FindIsFirst(s, pat, from + 1);
    }
  }

  function Shift(r: Option<nat>, n: nat): Option<nat> {
    match r
    case None => None
    case Some(p) => Some(p + n)
  }

  lemma {:induction false} FindInRest(a: string, s: string, pat: string, from: nat)
    ensures Find(a + s, pat, |a| + from) == Shift(Find(s, pat, from), |a|)
    decreases |s| - from
  {
    if from + |pat| <= |s| {
      assert (a + s)[|a| + from..|a| + from + |pat|] == s[from..from + |pat|];
    }
    if from < |s| {
      FindInRest(a, s, pat, from + 1);
    }
  }

  /** No match begins in a text without the pattern's first character. */
  lemma {:induction false} FindSkips(a: string, s: string, pat: string, from: nat)
    requires pat != [] && pat[0] !in a && from <= |a|
    ensures Find(a + s, pat, from) == Shift(Find(s, pat, 0), |a|)
    decreases |a| - from
  {
    if from == |a| {
      FindInRest(a, s, pat, 0);
    } else {
      if from + |pat| <= |a + s| {
        assert (a + s)[from..from + |pat|][0] == (a + s)[from] == a[from];
      }
      FindSkips(a, s, pat, from + 1);
    }
  }

  lemma {:induction false} NotFound(s: string, pat: string, from: nat)
    requires pat != [] && pat[0] !in s && from <= |s|
    ensures Find(s, pat, from) == None
  {
    FindSkips(s, "", pat, from);
    assert s + "" == s;
  }

  lemma FindShifted(a: string, s: string, pat: string, from: nat, n: nat)
    requires Find(s, pat, from) == Some(n)
    ensures Find(a + s, pat, |a| + from) == Some(|a| + n)
  {
    FindInRest(a, s, pat, from);
  }

  lemma FindSkipped(m: string, s: string, pat: string, from: nat)
    requires pat != [] && pat[0] !in m && from <= |m| && MatchAt(s, pat, 0)
    ensures Find(m + s, pat, from) == Some(|m|)
  {
    FindSkips(m, s, pat, from);
  }

  /** A match right after a piece that lacks its first character is the next one. */
  lemma FindAfter(a: string, m: string, s: string, pat: string, from: nat)
    requires pat != [] && pat[0] !in m && from <= |m| && MatchAt(s, pat, 0)
    ensures Find((a + m) + s, pat, |a| + from) == Some(|a| + |m|)
  {
    FindSkipped(m, s, pat, from);
    FindShifted(a, m + s, pat, from, |m|);
    Assoc(a, m, s);
  }

  // ---- Texts cut at their quotes

  predicate QuoteFree(s: string) {
    '\"' !in s
  }

  function Join(ps: seq<string>): string
    requires ps != []
  {
    if |ps| == 1 then ps[0] else ps[0] + ("\"" + Join(ps[1..]))
  }

  lemma FirstQuote(a: string, rest: string)
    requires QuoteFree(a)
    ensures Find(a + ("\"" + rest), "\"", 0) == Some(|a|)
  {
    FindSkips(a, "\"" + rest, "\"", 0);
    assert ("\"" + rest)[0..1] == "\"";
  }

  predicate Pieces(ps: seq<string>) {
    forall i :: 0 <= i < |ps| ==> QuoteFree(ps[i])
  }

  lemma {:induction false} JoinConcat(ps: seq<string>, qs: seq<string>)
    requires ps != [] && qs != []
    ensures Join(ps + qs) == Join(ps) + ("\"" + Join(qs))
  {
    assert (ps + qs)[0] == ps[0] && (ps + qs)[1..] == ps[1..] + qs;
    if |ps| > 1 {
      JoinConcat(ps[1..], qs);
      Assoc("\"", Join(ps[1..]), "\"" + Join(qs));
      Assoc(ps[0], "\"" + Join(ps[1..]), "\"" + Join(qs));
    } else {
      assert ps[1..] + qs == qs;
    }
  }

  lemma JoinCons(a: string, ps: seq<string>)
    requires ps != []
    ensures Join([a] + ps) == a + ("\"" + Join(ps))
  {
    assert ([a] + ps)[1..] == ps;
  }

  // ---- Searching for one character

  /** The first position from `from` on that holds the character. */
  function FindChar(s: string, c: char, from: nat): (r: Option<nat>)
    requires from <= |s|
    ensures r.Some? ==> from <= r.value < |s|
    decreases |s| - from
  {
    if from == |s| then None else if s[from] == c then Some(from) else FindChar(s, c, from + 1)
  }

  /** The character is at the position found, and not before; if none is found it is nowhere from there on. */
  lemma {:induction false} FindCharIsFirst(s: string, c: char, from: nat)
    requires from <= |s|
    ensures var r := FindChar(s, c, from);
            && (r.Some? ==> s[r.value] == c && forall k :: from <= k < r.value ==> s[k] != c)
            && (r.None? ==> forall k :: from <= k < |s| ==> s[k] != c)
    decreases |s| - from
  {
    if from < |s| && s[from] != c { FindCharIsFirst(s, c, from + 1); }
  }

  lemma {:induction false} FindCharIs(s: string, c: char, from: nat, p: nat)
    requires from <= p <= |s| && c !in s[from..p]
    ensures FindChar(s, c, from) == FindChar(s, c, p)
    decreases p - from
  {
    if from < p {
      assert s[from..p][0] == s[from] && s[from..p][1..] == s[from + 1..p];
      FindCharIs(s, c, from + 1, p);
    }
  }

  /** The character right after a piece without it is the next one. */
  lemma FindCharAfter(s: string, n: nat, m: string, c: char)
    requires n + |m| < |s| && s[n..n + |m|] == m && s[n + |m|] == c && c !in m
    ensures FindChar(s, c, n) == Some(n + |m|)
  {
    FindCharIs(s, c, n, n + |m|);
  }
}
