/** The bridge's converter between English sentences and link expressions, and what comes back from a round trip. */
module BridgeText {
  import opened TextSearch

  // ---- Helpers

  function Lower(c: char): char {
    if 'A' <= c <= 'Z' then (c as int + 32) as char else c
  }

  function ToLower(s: string): (r: string)
    ensures |r| == |s| && forall i :: 0 <= i < |s| ==> r[i] == Lower(s[i])
  {
    seq(|s|, i requires 0 <= i < |s| => Lower(s[i]))
  }

  /** Lower-casing rewrites a buffer in place. */
  method LowerBuffer(r: array<char>)
    modifies r
    ensures r[..] == ToLower(old(r[..]))
  {
    for i := 0 to r.Length
      invariant forall k :: 0 <= k < i ==> r[k] == Lower(old(r[k]))
      invariant forall k :: i <= k < r.Length ==> r[k] == old(r[k])
    {
      r[i] := Lower(r[i]);
    }
  }

  function StripArt(s: string): (r: string)
    ensures QuoteFree(s) ==> QuoteFree(r)
  {
    var lo := ToLower(s);
    if |lo| > 4 && lo[..4] == "the " then s[4..]
    else if |lo| > 3 && lo[..3] == "an " then s[3..]
    else if |lo| > 2 && lo[..2] == "a " then s[2..]
    else s
  }

  predicate Contains(s: string, w: string) {
    Find(s, w, 0).Some?
  }

  /** The quoted names of a text, from a position on. */
  function QuotedFrom(s: string, pos: nat): seq<string>
    requires pos <= |s|
    decreases |s| - pos
  {
    match FindChar(s, '\"', pos)
    case None => []
    case Some(p) =>
      match FindChar(s, '\"', p + 1)
      case None => []
      case Some(end) => [s[p + 1..end]] + QuotedFrom(s, end + 1)
  }

  lemma Prepend(names: seq<string>, name: string, rest: seq<string>)
    ensures names + ([name] + rest) == (names + [name]) + rest && names + [] == names
  {
  }

  method ExtractQuoted(s: string) returns (names: seq<string>)
    ensures names == QuotedFrom(s, 0)
  {
    names := [];
    var pos := 0;
    ghost var all := QuotedFrom(s, 0);
    while true
      invariant pos <= |s| && all == names + QuotedFrom(s, pos)
      decreases |s| - pos
    {
      var p := FindChar(s, '\"', pos);
      if p == None { break; }
      var end := FindChar(s, '\"', p.value + 1);
      if end == None { break; }
      Prepend(names, s[p.value + 1..end.value], QuotedFrom(s, end.value + 1));
      names := names + [s[p.value + 1..end.value]];
      pos := end.value + 1;
    }
    Prepend(names, "", []);
  }

  // ---- The names of a text cut at its quotes

  /** Every second piece. */
  function OddPieces(ps: seq<string>): seq<string> {
    if |ps| < 3 then [] else [ps[1]] + OddPieces(ps[2..])
  }

  lemma QuoteAt(s: string, a: string, m: string, rest: string)
    requires QuoteFree(m) && s == a + (m + ("\"" + rest))
    ensures FindChar(s, '\"', |a|) == Some(|a| + |m|)
  {
    assert s[|a|..|a| + |m|] == m;
    assert s[|a| + |m|] == '\"';
    FindCharAfter(s, |a|, m, '\"');
  }

  lemma NoQuoteAfter(a: string, m: string)
    requires QuoteFree(m)
    ensures FindChar(a + m, '\"', |a|) == None
  {
    assert (a + m)[|a|..|a + m|] == m;
    FindCharIs(a + m, '\"', |a|, |a + m|);
  }

  lemma JoinTwo(ps: seq<string>)
    requires |ps| > 2
    ensures Join(ps) == ps[0] + ("\"" + (ps[1] + ("\"" + Join(ps[2..]))))
  {
    assert ps[1..][1..] == ps[2..];
  }

  lemma NamesStep(a: string, m: string, name: string, rest: string, names: seq<string>)
    requires QuoteFree(m) && QuoteFree(name)
    requires var b := a + m + "\"" + name + "\""; QuotedFrom(b + rest, |b|) == names
    ensures QuotedFrom(a + (m + ("\"" + (name + ("\"" + rest)))), |a|) == [name] + names
  {
    OneName(a, m, name, rest);
    Regroup(a, m, name, rest);
  }

  /** The names of a text that alternates quote-free pieces and quoted names are those names, in order. */
  lemma {:induction false} NamesOfPieces(a: string, ps: seq<string>)
    requires ps != [] && |ps| % 2 == 1 && Pieces(ps)
    ensures QuotedFrom(a + Join(ps), |a|) == OddPieces(ps)
    decreases |ps|
  {
    if |ps| == 1 {
      NoQuoteAfter(a, ps[0]);
    } else {
      JoinTwo(ps);
      NamesOfPieces(a + ps[0] + "\"" + ps[1] + "\"", ps[2..]);
      NamesStep(a, ps[0], ps[1], Join(ps[2..]), OddPieces(ps[2..]));
    }
  }

  lemma Regroup(a: string, m: string, name: string, rest: string)
    ensures a + (m + ("\"" + (name + ("\"" + rest)))) == (a + m + "\"") + (name + ("\"" + rest))
         == (a + m + "\"" + name + "\"") + rest
  {
    Assoc(a, m, "\"" + (name + ("\"" + rest)));
    Assoc(a + m, "\"", name + ("\"" + rest));
    Assoc(a + m + "\"", name, "\"" + rest);
    Assoc(a + m + "\"" + name, "\"", rest);
  }

  lemma OneName(a: string, m: string, name: string, rest: string)
    requires QuoteFree(m) && QuoteFree(name)
    ensures var s := a + (m + ("\"" + (name + ("\"" + rest))));
            QuotedFrom(s, |a|) == [name] + QuotedFrom(s, |a + m + "\"" + name + "\""|)
  {
    var s, b := a + (m + ("\"" + (name + ("\"" + rest)))), a + m + "\"";
    Regroup(a, m, name, rest);
    QuoteAt(s, a, m, name + ("\"" + rest));
    QuoteAt(s, b, name, rest);
    assert s[|b|..|b| + |name|] == name;
  }

  // ---- Sentences

  datatype Statement =
    | Inherit(subj: string, obj: string)
    | Similar(subj: string, obj: string)
    | Evaluate(rel: string, subj: string, obj: string)
    | Member(subj: string, obj: string)
    | Just(text: string)

  /** The first of two phrases that occurs. */
  function Either(s: string, first: string, second: string): (p: Option<nat>)
    ensures p.Some? ==> MatchAt(s, first, p.value) || MatchAt(s, second, p.value)
  {
    FindIsFirst(s, first, 0);
    FindIsFirst(s, second, 0);
    if Find(s, first, 0).Some? then Find(s, first, 0) else Find(s, second, 0)
  }

  function Before(t: string, p: nat): (s: string)
    requires p <= |t|
    ensures QuoteFree(t) ==> QuoteFree(s)
  {
    t[..p]
  }

  /** What follows a phrase, without its article. */
  function Beyond(t: string, p: nat): (o: string)
    requires p <= |t|
    ensures QuoteFree(t) ==> QuoteFree(o)
  {
    StripArt(t[p..])
  }

  /** What the converter makes of a text: the first trigger phrase decides, else the first two blanks. */
  function Parse(text: string): Statement {
    var t := StripArt(text);
    var tl := ToLower(t);
    var isA, has := Either(tl, " is a ", " is an "), Either(tl, " has ", " have ");
    var like, resembles, belongs := Find(tl, " is like ", 0), Find(tl, " resembles ", 0), Find(tl, " belongs to ", 0);
    if isA.Some? then
      var p := isA.value;
      Inherit(Before(t, p), Beyond(t, p + IsWidth(tl, p)))
    else if like.Some? then Similar(Before(t, like.value), Beyond(t, like.value + 9))
    else if resembles.Some? then Similar(Before(t, resembles.value), Beyond(t, resembles.value + 11))
    else if has.Some? then
      var p := has.value;
      Evaluate("has", Before(t, p), Beyond(t, p + HasWidth(tl, p)))
    else if belongs.Some? then Member(Before(t, belongs.value), Beyond(t, belongs.value + 12))
    else ParseVerb(t, text)
  }

  /** How much of the text the found phrase takes. */
  function IsWidth(tl: string, p: nat): (n: nat)
    requires MatchAt(tl, " is a ", p) || MatchAt(tl, " is an ", p)
    ensures p + n <= |tl|
    ensures n == if MatchAt(tl, " is a ", p) then 6 else 7
  {
    assert MatchAt(tl, " is a ", p) ==> tl[p + 5] == " is a "[5];
    assert MatchAt(tl, " is an ", p) ==> tl[p + 5] == " is an "[5];
    if tl[p + 5] == 'n' then 7 else 6
  }

  function HasWidth(tl: string, p: nat): (n: nat)
    requires MatchAt(tl, " has ", p) || MatchAt(tl, " have ", p)
    ensures p + n <= |tl|
    ensures n == if MatchAt(tl, " has ", p) then 5 else 6
  {
    assert MatchAt(tl, " has ", p) ==> tl[p + 3] == " has "[3];
    assert MatchAt(tl, " have ", p) ==> tl[p + 3] == " have "[3];
    if tl[p + 3] == 's' then 5 else 6
  }

  function ParseVerb(t: string, text: string): Statement {
    match FindChar(t, ' ', 0)
    case None => Just(text)
    case Some(a) =>
      match FindChar(t, ' ', a + 1)
      case None => Just(text)
      case Some(b) => Evaluate(t[a + 1..b], Before(t, a), Beyond(t, b + 1))
  }

  function Render(st: Statement): string {
    match st
    case Inherit(s, o) =>
      "(InheritanceLink (ConceptNode " + "\"" + s + "\"" + ") (ConceptNode " + "\"" + o + "\"" + "))"
    case Similar(s, o) => "(SimilarityLink (ConceptNode " + "\"" + s + "\"" + ") (ConceptNode " + "\"" + o + "\"" + "))"
    case Evaluate(r, s, o) =>
      "(EvaluationLink (PredicateNode " + "\"" + r + "\"" + ") (ListLink (ConceptNode " + "\"" + s + "\""
      + ") (ConceptNode " + "\"" + o + "\"" + ")))"
    case Member(s, o) => "(MemberLink (ConceptNode " + "\"" + s + "\"" + ") (ConceptNode " + "\"" + o + "\"" + "))"
    case Just(text) => "(ConceptNode " + "\"" + text + "\"" + ")"
  }

  function NlToAtomese(text: string): string {
    Render(Parse(text))
  }

  /** What the converter back makes of an expression and its names. */
  function Answer(a: string, names: seq<string>): string {
    if Contains(a, "InheritanceLink") && |names| >= 2 then names[0] + " is a " + names[1] + "."
    else if Contains(a, "SimilarityLink") && |names| >= 2 then names[0] + " is similar to " + names[1] + "."
    else if Contains(a, "EvaluationLink") && |names| >= 3 then names[1] + " " + names[0] + " " + names[2] + "."
    else if Contains(a, "MemberLink") && |names| >= 2 then names[0] + " belongs to " + names[1] + "."
    else a
  }

  function AtomeseToNl(a: string): string {
    Answer(a, QuotedFrom(a, 0))
  }

  // ---- Words in a text cut at its quotes

  lemma ContainsIs(s: string, w: string)
    ensures Contains(s, w) <==> exists p: nat :: MatchAt(s, w, p)
  {
    FindIsFirst(s, w, 0);
  }

  lemma ContainsCut(a: string, r: string, w: string)
    requires QuoteFree(w) && w != []
    ensures Contains(a + ("\"" + r), w) <==> Contains(a, w) || Contains(r, w)
  {
    var s := a + ("\"" + r);
    ContainsIs(s, w);
    ContainsIs(a, w);
    ContainsIs(r, w);
    if p: nat :| MatchAt(s, w, p) {
      MatchOnOneSide(a, r, w, p);
    }
    if p: nat :| MatchAt(a, w, p) {
      assert MatchAt(s, w, p);
    }
    if p: nat :| MatchAt(r, w, p) {
      assert MatchAt(s, w, |a| + 1 + p);
    }
  }

  lemma MatchOnOneSide(a: string, r: string, w: string, p: nat)
    requires QuoteFree(w) && w != [] && MatchAt(a + ("\"" + r), w, p)
    ensures MatchAt(a, w, p) || (p > |a| && MatchAt(r, w, p - |a| - 1))
  {
    var s := a + ("\"" + r);
    assert s[|a|] == '\"';
    if p <= |a| < p + |w| {
      InWord(s, w, p, |a| - p);
    }
  }

  lemma InWord(s: string, w: string, p: nat, i: nat)
    requires MatchAt(s, w, p) && i < |w|
    ensures s[p + i] in w
  {
    assert s[p + i] == w[i];
  }

  /** A word without quotes is in the text exactly when it is in one of the pieces. */
  lemma {:induction false} WordInPieces(ps: seq<string>, w: string)
    requires ps != [] && QuoteFree(w) && w != []
    ensures Contains(Join(ps), w) <==> exists i :: 0 <= i < |ps| && Contains(ps[i], w)
  {
    if |ps| > 1 {
      ContainsCut(ps[0], Join(ps[1..]), w);
      WordInPieces(ps[1..], w);
      if i :| 0 <= i < |ps[1..]| && Contains(ps[1..][i], w) { assert Contains(ps[i + 1], w); }
      if i :| 0 < i < |ps| && Contains(ps[i], w) { assert Contains(ps[1..][i - 1], w); }
    }
  }

  // ---- What comes back

  function PiecesOf(st: Statement): (ps: seq<string>)
    ensures |ps| % 2 == 1
  {
    match st
    case Inherit(s, o) => ["(InheritanceLink (ConceptNode ", s, ") (ConceptNode ", o, "))"]
    case Similar(s, o) => ["(SimilarityLink (ConceptNode ", s, ") (ConceptNode ", o, "))"]
    case Evaluate(r, s, o) =>
      ["(EvaluationLink (PredicateNode ", r, ") (ListLink (ConceptNode ", s, ") (ConceptNode ", o, ")))"]
    case Member(s, o) => ["(MemberLink (ConceptNode ", s, ") (ConceptNode ", o, "))"]
    case Just(text) => ["(ConceptNode ", text, ")"]
  }

  function Names(st: Statement): seq<string> {
    match st
    case Inherit(s, o) => [s, o]
    case Similar(s, o) => [s, o]
    case Evaluate(r, s, o) => [r, s, o]
    case Member(s, o) => [s, o]
    case Just(text) => [text]
  }

  lemma OddOfThree(a: string, b: string, c: string)
    ensures OddPieces([a, b, c]) == [b]
  {
    assert [a, b, c][2..] == [c];
    assert OddPieces([c]) == [];
  }

  lemma OddOfFive(a: string, b: string, c: string, d: string, e: string)
    ensures OddPieces([a, b, c, d, e]) == [b, d]
  {
    assert [a, b, c, d, e][2..] == [c, d, e];
    OddOfThree(c, d, e);
  }

  lemma OddOfSeven(a: string, b: string, c: string, d: string, e: string, f: string, g: string)
    ensures OddPieces([a, b, c, d, e, f, g]) == [b, d, f]
  {
    assert [a, b, c, d, e, f, g][2..] == [c, d, e, f, g];
    OddOfFive(c, d, e, f, g);
  }

  lemma NamesAreOdd(st: Statement)
    ensures OddPieces(PiecesOf(st)) == Names(st)
  {
    var ps := PiecesOf(st);
    if |ps| == 3 {
      OddOfThree(ps[0], ps[1], ps[2]);
    } else if |ps| == 5 {
      OddOfFive(ps[0], ps[1], ps[2], ps[3], ps[4]);
    } else {
      OddOfSeven(ps[0], ps[1], ps[2], ps[3], ps[4], ps[5], ps[6]);
    }
  }

  lemma RenderIsJoin(st: Statement)
    ensures Render(st) == Join(PiecesOf(st))
  {
    match st
    case Inherit(s, o) => JoinFive("(InheritanceLink (ConceptNode ", s, ") (ConceptNode ", o, "))");
    case Similar(s, o) => JoinFive("(SimilarityLink (ConceptNode ", s, ") (ConceptNode ", o, "))");
    case Evaluate(r, s, o) =>
      JoinSeven("(EvaluationLink (PredicateNode ", r, ") (ListLink (ConceptNode ", s, ") (ConceptNode ", o, ")))");
    case Member(s, o) => JoinFive("(MemberLink (ConceptNode ", s, ") (ConceptNode ", o, "))");
    case Just(text) => JoinThree("(ConceptNode ", text, ")");
  }

  lemma JoinThree(a: string, b: string, c: string)
    ensures Join([a, b, c]) == a + "\"" + b + "\"" + c
  {
    assert [a, b, c][1..] == [b, c] && [b, c][1..] == [c];
    assert Join([b, c]) == b + ("\"" + c);
  }

  lemma JoinFive(a: string, b: string, c: string, d: string, e: string)
    ensures Join([a, b, c, d, e]) == a + "\"" + b + "\"" + c + "\"" + d + "\"" + e
  {
    assert [a, b, c, d, e] == [a, b] + [c, d, e];
    JoinConcat([a, b], [c, d, e]);
    JoinThree(c, d, e);
    assert [a, b][1..] == [b];
    assert Join([a, b]) == a + ("\"" + b);
  }

  lemma JoinSeven(a: string, b: string, c: string, d: string, e: string, f: string, g: string)
    ensures Join([a, b, c, d, e, f, g]) == a + "\"" + b + "\"" + c + "\"" + d + "\"" + e + "\"" + f + "\"" + g
  {
    assert [a, b, c, d, e, f, g] == [a, b] + [c, d, e, f, g];
    JoinConcat([a, b], [c, d, e, f, g]);
    JoinFive(c, d, e, f, g);
    assert [a, b][1..] == [b];
    assert Join([a, b]) == a + ("\"" + b);
  }

  predicate HasWord(st: Statement, w: string) {
    exists i :: 0 <= i < |Names(st)| && Contains(Names(st)[i], w)
  }

  predicate Plain(st: Statement) {
    Pieces(Names(st))
  }

  /** What is said of a statement: the first word that the expression has decides. */
  function Said(st: Statement): string {
    match st
    case Inherit(s, o) => s + " is a " + o + "."
    case Similar(s, o) =>
      if HasWord(st, "InheritanceLink") then s + " is a " + o + "." else s + " is similar to " + o + "."
    case Evaluate(r, s, o) =>
      if HasWord(st, "InheritanceLink") then r + " is a " + s + "."
      else if HasWord(st, "SimilarityLink") then r + " is similar to " + s + "."
      else s + " " + r + " " + o + "."
    case Member(s, o) =>
      if HasWord(st, "InheritanceLink") then s + " is a " + o + "."
      else if HasWord(st, "SimilarityLink") then s + " is similar to " + o + "."
      else s + " belongs to " + o + "."
    case Just(text) => Render(st)
  }

  lemma EvaluateLacks(r: string, s: string, o: string, c: char)
    requires c == 'I' || c == 'S' || c == '\"'
    ensures var ps := PiecesOf(Evaluate(r, s, o)); forall i :: 0 <= i < |ps| && i % 2 == 0 ==> c !in ps[i]
  {
    EvaluateStartLacks(c);
    EvaluateRestLacks(c);
  }

  lemma EvaluateStartLacks(c: char)
    requires c == 'I' || c == 'S' || c == '\"'
    ensures c !in "(EvaluationLink (PredicateNode "
  {
  }

  lemma EvaluateRestLacks(c: char)
    requires c == 'I' || c == 'S' || c == '\"'
    ensures c !in ") (ListLink (ConceptNode " && c !in ") (ConceptNode " && c !in ")))"
  {
  }

  lemma PairLacks(st: Statement, c: char)
    requires st.Inherit? || st.Similar? || st.Member?
    requires c == '\"' || (c == 'S' && !st.Similar?) || (c == 'I' && !st.Inherit?)
    ensures var ps := PiecesOf(st); c !in ps[0] && c !in ps[2] && c !in ps[4]
  {
    PairRestLacks(c);
    if st.Inherit? {
      InheritStartLacks(c);
    } else if st.Similar? {
      SimilarStartLacks(c);
    } else {
      MemberStartLacks(c);
    }
  }

  lemma InheritStartLacks(c: char)
    requires c == 'S' || c == '\"'
    ensures c !in "(InheritanceLink (ConceptNode "
  {
  }

  lemma SimilarStartLacks(c: char)
    requires c == 'I' || c == '\"'
    ensures c !in "(SimilarityLink (ConceptNode "
  {
  }

  lemma MemberStartLacks(c: char)
    requires c == 'I' || c == 'S' || c == '\"'
    ensures c !in "(MemberLink (ConceptNode "
  {
  }

  lemma PairRestLacks(c: char)
    requires c == 'I' || c == 'S' || c == '\"'
    ensures c !in ") (ConceptNode " && c !in "))"
  {
  }

  /** The characters that no frame has. */
  lemma FramesLack(st: Statement, c: char)
    requires c == '\"' || (c == 'S' && !st.Similar?) || (c == 'I' && !st.Inherit?)
    ensures forall i :: 0 <= i < |PiecesOf(st)| && i % 2 == 0 ==> c !in PiecesOf(st)[i]
  {
    var ps := PiecesOf(st);
    match st
    case Inherit(s, o) => PairLacks(st, c);
    case Similar(s, o) => PairLacks(st, c);
    case Evaluate(r, s, o) => EvaluateLacks(r, s, o, c);
    case Member(s, o) => PairLacks(st, c);
    case Just(text) =>
      assert c !in ps[0] && c !in ps[2] by { assert ps[0] == "(ConceptNode " && ps[2] == ")"; }
  }

  lemma NamesAreAtOdd(st: Statement)
    ensures |PiecesOf(st)| == 2 * |Names(st)| + 1
    ensures forall i :: 0 <= i < |PiecesOf(st)| && i % 2 == 1 ==> PiecesOf(st)[i] == Names(st)[i / 2]
  {
  }

  lemma PlainPieces(st: Statement)
    requires Plain(st)
    ensures Pieces(PiecesOf(st))
  {
    FramesLack(st, '\"');
    NamesAreAtOdd(st);
    forall i | 0 <= i < |PiecesOf(st)| ensures QuoteFree(PiecesOf(st)[i]) {
      if i % 2 == 1 { assert QuoteFree(Names(st)[i / 2]); }
    }
  }

  /** The converter back reads the names that the expression was made of. */
  lemma NamesComeBack(st: Statement)
    requires Plain(st)
    ensures QuotedFrom(Render(st), 0) == Names(st)
  {
    PlainPieces(st);
    RenderIsJoin(st);
    NamesOfPieces("", PiecesOf(st));
    NamesAreOdd(st);
    assert "" + Render(st) == Render(st);
  }

  /** The word is in the expression if the frame has it, or else only if a name has it. */
  lemma WordInRendered(st: Statement, w: string)
    requires QuoteFree(w) && w != [] && Plain(st)
    ensures Contains(Render(st), w)
       <==> HasWord(st, w) || exists i :: 0 <= i < |PiecesOf(st)| && i % 2 == 0 && Contains(PiecesOf(st)[i], w)
  {
    RenderIsJoin(st);
    WordInPieces(PiecesOf(st), w);
    var ps, ns := PiecesOf(st), Names(st);
    assert |ps| == 2 * |ns| + 1;
    assert forall i :: 0 <= i < |ns| ==> ns[i] == ps[2 * i + 1];
    if i :| 0 <= i < |ps| && Contains(ps[i], w) && i % 2 == 1 { assert Contains(ns[i / 2], w); }
    if i :| 0 <= i < |ns| && Contains(ns[i], w) { assert Contains(ps[2 * i + 1], w); }
  }

  lemma FirstCharMissing(st: Statement, w: string)
    requires w != [] && QuoteFree(w) && Plain(st)
    requires forall i :: 0 <= i < |PiecesOf(st)| && i % 2 == 0 ==> w[0] !in PiecesOf(st)[i]
    ensures Contains(Render(st), w) <==> HasWord(st, w)
  {
    WordInRendered(st, w);
    forall i | 0 <= i < |PiecesOf(st)| && i % 2 == 0 ensures !Contains(PiecesOf(st)[i], w) {
      NotFound(PiecesOf(st)[i], w, 0);
    }
  }

  function Head(st: Statement): (w: string)
    ensures w != [] && QuoteFree(w)
  {
    match st
    case Inherit(_, _) => "InheritanceLink"
    case Similar(_, _) => "SimilarityLink"
    case Evaluate(_, _, _) => "EvaluationLink"
    case Member(_, _) => "MemberLink"
    case Just(_) => "ConceptNode"
  }

  lemma InheritHead()
    ensures MatchAt("(InheritanceLink (ConceptNode ", "InheritanceLink", 1)
  {
  }

  lemma SimilarHead()
    ensures MatchAt("(SimilarityLink (ConceptNode ", "SimilarityLink", 1)
  {
  }

  lemma EvaluateHead()
    ensures MatchAt("(EvaluationLink (PredicateNode ", "EvaluationLink", 1)
  {
  }

  lemma MemberHead()
    ensures MatchAt("(MemberLink (ConceptNode ", "MemberLink", 1)
  {
  }

  lemma JustHead()
    ensures MatchAt("(ConceptNode ", "ConceptNode", 1)
  {
  }

  lemma HeadInFrame(st: Statement)
    ensures MatchAt(PiecesOf(st)[0], Head(st), 1)
  {
    match st
    case Inherit(_, _) => InheritHead();
    case Similar(_, _) => SimilarHead();
    case Evaluate(_, _, _) => EvaluateHead();
    case Member(_, _) => MemberHead();
    case Just(_) => JustHead();
  }

  lemma OwnHead(st: Statement)
    requires Plain(st)
    ensures Contains(Render(st), Head(st))
  {
    HeadInFrame(st);
    ContainsIs(PiecesOf(st)[0], Head(st));
    WordInRendered(st, Head(st));
  }

  lemma InheritComesBack(s: string, o: string)
    requires Plain(Inherit(s, o))
    ensures AtomeseToNl(Render(Inherit(s, o))) == Said(Inherit(s, o))
  {
    NamesComeBack(Inherit(s, o));
    OwnHead(Inherit(s, o));
  }

  lemma SimilarComesBack(s: string, o: string)
    requires Plain(Similar(s, o))
    ensures AtomeseToNl(Render(Similar(s, o))) == Said(Similar(s, o))
  {
    var st := Similar(s, o);
    NamesComeBack(st);
    FramesLack(st, 'I');
    FirstCharMissing(st, "InheritanceLink");
    OwnHead(st);
  }

  lemma EvaluateComesBack(r: string, s: string, o: string)
    requires Plain(Evaluate(r, s, o))
    ensures AtomeseToNl(Render(Evaluate(r, s, o))) == Said(Evaluate(r, s, o))
  {
    var st := Evaluate(r, s, o);
    NamesComeBack(st);
    FramesLack(st, 'I');
    FramesLack(st, 'S');
    FirstCharMissing(st, "InheritanceLink");
    FirstCharMissing(st, "SimilarityLink");
    OwnHead(st);
  }

  lemma MemberComesBack(s: string, o: string)
    requires Plain(Member(s, o))
    ensures AtomeseToNl(Render(Member(s, o))) == Said(Member(s, o))
  {
    var st := Member(s, o);
    NamesComeBack(st);
    FramesLack(st, 'I');
    FramesLack(st, 'S');
    FirstCharMissing(st, "InheritanceLink");
    FirstCharMissing(st, "SimilarityLink");
    OwnHead(st);
  }

  /** What comes back from the expression of a statement without quotes, in every case. */
  lemma SaidComesBack(st: Statement)
    requires Plain(st)
    ensures AtomeseToNl(Render(st)) == Said(st)
  {
    match st
    case Inherit(s, o) => InheritComesBack(s, o);
    case Similar(s, o) => SimilarComesBack(s, o);
    case Evaluate(r, s, o) => EvaluateComesBack(r, s, o);
    case Member(s, o) => MemberComesBack(s, o);
    case Just(text) => NamesComeBack(st);
  }

  /** A similarity comes back as one exactly when neither name has the word that is looked for first. */
  lemma SimilarityComesBackIff(s: string, o: string)
    requires Plain(Similar(s, o))
    ensures AtomeseToNl(Render(Similar(s, o))) == s + " is similar to " + o + "."
       <==> !Contains(s, "InheritanceLink") && !Contains(o, "InheritanceLink")
  {
    var st := Similar(s, o);
    SaidComesBack(st);
    assert Names(st)[0] == s && Names(st)[1] == o;
    assert |s + " is a " + o + "."| != |s + " is similar to " + o + "."|;
  }

  /** A sentence without quotes makes a statement without quotes. */
  lemma ParsedIsPlain(text: string)
    requires QuoteFree(text)
    ensures Plain(Parse(text))
  {
  }

  /** What a sentence without quotes turns into by the converter and back. */
  lemma RoundTrip(text: string)
    requires QuoteFree(text)
    ensures AtomeseToNl(NlToAtomese(text)) == Said(Parse(text))
  {
    ParsedIsPlain(text);
    SaidComesBack(Parse(text));
  }

  /** No name has a word that is looked for before the statement's own. */
  predicate Unmistaken(st: Statement) {
    !HasWord(st, "InheritanceLink") && !HasWord(st, "SimilarityLink")
  }

  /** A membership comes back as one exactly when no name has a word that is looked for before. */
  lemma MembershipComesBackIff(s: string, o: string)
    requires Plain(Member(s, o))
    ensures AtomeseToNl(Render(Member(s, o))) == s + " belongs to " + o + "." <==> Unmistaken(Member(s, o))
  {
    SaidComesBack(Member(s, o));
    assert |s + " is a " + o + "."| == |s| + |o| + 7 && |s + " is similar to " + o + "."| == |s| + |o| + 16;
    assert |s + " belongs to " + o + "."| == |s| + |o| + 13;
  }

  lemma CharOfMatch(s: string, w: string, c: char)
    requires Contains(s, w) && c in w
    ensures c in s && |w| <= |s|
  {
    ContainsIs(s, w);
    var p: nat :| MatchAt(s, w, p);
    var i :| 0 <= i < |w| && w[i] == c;
    assert s[p + i] == c;
  }

  /** A text that can be shifted by x over itself is made of x's characters. */
  lemma {:induction false} FromPeriod(x: string, s: string, y: string, i: nat)
    requires x != [] && s + y == x + s && i < |s|
    ensures s[i] in x
    decreases i
  {
    assert (s + y)[i] == s[i];
    if i < |x| {
      assert (x + s)[i] == x[i];
    } else {
      assert (x + s)[i] == s[i - |x|];
      FromPeriod(x, s, y, i - |x|);
    }
  }

  lemma NotPeriodic(x: string, s: string, y: string, c: char)
    requires x != [] && c in s && c !in x
    ensures s + y != x + s
  {
    var i :| 0 <= i < |s| && s[i] == c;
    if s + y == x + s { FromPeriod(x, s, y, i); }
  }

  /** The wrong answer would have to start with the same subject over and over, which then lacks the word. */
  lemma PossessionDiffers(s: string, o: string, w: string, verb: string, c: char)
    requires c in w && c !in "has" && c !in verb && |verb| < |w| + 2 && |w| > 3
    requires HasWord(Evaluate("has", s, o), w)
    ensures s + " " + "has" + " " + o + "." != "has" + verb + s + "."
  {
    var x, y := "has" + verb, " has " + o;
    if s + " " + "has" + " " + o + "." == x + s + "." {
      assert s + " " + "has" + " " + o + "." == (s + y) + ".";
      assert ((s + y) + ".")[..|s + y|] == s + y && ((x + s) + ".")[..|x + s|] == x + s;
      assert |s + y| == |x + s|;
      assert s + y == x + s;
      var i :| 0 <= i < 3 && Contains(Names(Evaluate("has", s, o))[i], w);
      CharOfMatch(Names(Evaluate("has", s, o))[i], w, c);
      assert |o| + 5 == |x|;
      NotPeriodic(x, s, y, c);
    }
  }

  /** A possession comes back as one exactly when no name has a word that is looked for before. */
  lemma PossessionComesBackIff(s: string, o: string)
    requires Plain(Evaluate("has", s, o))
    ensures AtomeseToNl(Render(Evaluate("has", s, o))) == s + " " + "has" + " " + o + "."
       <==> Unmistaken(Evaluate("has", s, o))
  {
    var st := Evaluate("has", s, o);
    SaidComesBack(st);
    if HasWord(st, "InheritanceLink") {
      HeadLetters();
      PossessionDiffers(s, o, "InheritanceLink", " is a ", 'I');
    } else if HasWord(st, "SimilarityLink") {
      HeadLetters();
      PossessionDiffers(s, o, "SimilarityLink", " is similar to ", 'S');
    }
  }

  lemma HeadLetters()
    ensures 'I' in "InheritanceLink" && 'S' in "SimilarityLink"
    ensures 'I' !in " is a " && 'I' !in "has" && 'S' !in " is similar to " && 'S' !in "has"
    ensures 'I' !in "is" && 'I' !in "a " && 'S' !in "is" && 'S' !in "similar to "
  {
    assert "InheritanceLink"[0] == 'I' && "SimilarityLink"[0] == 'S';
  }

  lemma VerbRegroup(s: string, v: string, o: string)
    ensures s + " " + v + " " + o == s + (" " + (v + (" " + o))) == ((s + " ") + v) + (" " + o)
  {
    Assoc((s + " ") + v, " ", o);
    Assoc(s + " ", v, " " + o);
    Assoc(s, " ", v + (" " + o));
  }

  lemma FirstBlank(text: string, s: string, rest: string)
    requires ' ' !in s && text == s + (" " + rest)
    ensures FindChar(text, ' ', 0) == Some(|s|)
  {
    assert text[0..|s|] == s && text[|s|] == ' ';
    FindCharAfter(text, 0, s, ' ');
  }

  lemma NextBlank(text: string, a: string, v: string, o: string)
    requires ' ' !in v && text == (a + v) + (" " + o)
    ensures FindChar(text, ' ', |a|) == Some(|a| + |v|)
  {
    assert text[|a|..|a| + |v|] == v && text[|a| + |v|] == ' ';
    FindCharAfter(text, |a|, v, ' ');
  }

  /** If the wrong answer were the right one, verb and subject would both be "is". */
  lemma VerbIs(s: string, v: string, o: string, tail: string)
    requires ' ' !in s && ' ' !in v
    requires v + " " + "is" + " " + tail == s + " " + v + " " + o
    ensures s == "is" == v && o == tail
  {
    var t := s + " " + v + " " + o;
    VerbRegroup(s, v, o);
    VerbRegroup(v, "is", tail);
    FirstBlank(t, s, v + (" " + o));
    FirstBlank(t, v, "is" + (" " + tail));
    NextBlank(t, s + " ", v, o);
    NextBlank(t, v + " ", "is", tail);
    assert t[..|s|] == s && t[..|v|] == v;
    assert t[|s| + 1..|s| + 1 + |v|] == v && t[|v| + 1..|v| + 3] == "is";
    assert t[|s| + |v| + 2..] == o && t[|v| + 4..] == tail;
  }

  lemma VerbDiffers(s: string, v: string, o: string, w: string, tail: string, c: char)
    requires ' ' !in s && ' ' !in v && c in w && c !in "is" && c !in tail && HasWord(Evaluate(v, s, o), w)
    ensures v + " " + "is" + " " + (tail + s) + "." != s + " " + v + " " + o + "."
  {
    var t, u := v + " " + "is" + " " + (tail + s), s + " " + v + " " + o;
    if t + "." == u + "." {
      assert (t + ".")[..|t|] == t && (u + ".")[..|u|] == u;
      assert |t + "."| == |u + "."|;
      VerbIs(s, v, o, tail + s);
      var i :| 0 <= i < 3 && Contains(Names(Evaluate(v, s, o))[i], w);
      CharOfMatch(Names(Evaluate(v, s, o))[i], w, c);
    }
  }

  lemma SaidParts(v: string, s: string)
    ensures v + " is a " + s == v + " " + "is" + " " + ("a " + s)
    ensures v + " is similar to " + s == v + " " + "is" + " " + ("similar to " + s)
  {
    assert " " + "is" + " " == " is ";
    assert " is " + "a " == " is a " && " is " + "similar to " == " is similar to ";
    Assoc(v + " is ", "a ", s);
    Assoc(v + " is ", "similar to ", s);
  }

  /** So does any relation whose subject and verb are single words. */
  lemma VerbComesBackIff(v: string, s: string, o: string)
    requires Plain(Evaluate(v, s, o)) && ' ' !in s && ' ' !in v
    ensures AtomeseToNl(Render(Evaluate(v, s, o))) == s + " " + v + " " + o + "." <==> Unmistaken(Evaluate(v, s, o))
  {
    var st := Evaluate(v, s, o);
    SaidComesBack(st);
    SaidParts(v, s);
    HeadLetters();
    if HasWord(st, "InheritanceLink") {
      VerbDiffers(s, v, o, "InheritanceLink", "a ", 'I');
    } else if HasWord(st, "SimilarityLink") {
      VerbDiffers(s, v, o, "SimilarityLink", "similar to ", 'S');
    }
  }
}
