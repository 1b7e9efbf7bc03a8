/**
 Looking up a string field by searching for its quoted key. The text searched is what the agent service writes: an
 object without blanks whose values are escaped strings or other pieces such as numbers. Every such text is cut at its
 quotes, and the search is followed from piece to piece.
 */
module JsonFields {
  import opened JsonEscape
  import opened TextSearch

  /** A quote-free text is determined by what it is followed by a quote in. */
  lemma CutOnce(a: string, b: string, r: string, q: string)
    requires QuoteFree(a) && QuoteFree(b)
    requires a + ("\"" + r) == b + ("\"" + q)
    ensures a == b
  {
    FirstQuote(a, r);
    FirstQuote(b, q);
    assert (a + ("\"" + r))[..|a|] == a && (b + ("\"" + q))[..|a|] == b;
  }

  /** A match of the quoted key at a quote is the key between this quote and the next. */
  lemma PatternAtQuote(b: string, rest: string, k: string)
    requires QuoteFree(b) && QuoteFree(k)
    ensures var t := "\"" + (b + ("\"" + rest));
            |k| + 2 <= |t| && t[0..|k| + 2] == Quoted(k) <==> b == k
  {
    var t := "\"" + (b + ("\"" + rest));
    var u := b + ("\"" + rest);
    if b == k {
      assert t[0..|k| + 2] == Quoted(k);
    }
    if |k| + 2 <= |t| && t[0..|k| + 2] == Quoted(k) {
      assert t == Quoted(k) + t[|k| + 2..];
      assert t[1..] == u && (Quoted(k) + t[|k| + 2..])[1..] == k + ("\"" + t[|k| + 2..]);
      CutOnce(k, b, t[|k| + 2..], rest);
    }
  }

  lemma HopFromQuote(b: string, rest: string, k: string)
    requires QuoteFree(b) && QuoteFree(k)
    ensures var u := b + ("\"" + rest);
            Find("\"" + u, Quoted(k), 0) == if b == k then Some(0) else Shift(Find(u, Quoted(k), 0), 1)
  {
    var u := b + ("\"" + rest);
    PatternAtQuote(b, rest, k);
    FindInRest("\"", u, Quoted(k), 0);
  }

  /** One step of the search, from one piece to the next. */
  lemma Hop(a: string, b: string, rest: string, k: string)
    requires QuoteFree(a) && QuoteFree(b) && QuoteFree(k)
    ensures Find(a + ("\"" + (b + ("\"" + rest))), Quoted(k), 0)
         == if b == k then Some(|a|) else Shift(Find(b + ("\"" + rest), Quoted(k), 0), |a| + 1)
  {
    HopFromQuote(b, rest, k);
    HopTo(a, "\"" + (b + ("\"" + rest)), b + ("\"" + rest), Quoted(k), b == k);
  }

  lemma HopTo(a: string, s: string, u: string, pat: string, hit: bool)
    requires pat != [] && pat[0] !in a
    requires Find(s, pat, 0) == if hit then Some(0) else Shift(Find(u, pat, 0), 1)
    ensures Find(a + s, pat, 0) == if hit then Some(|a|) else Shift(Find(u, pat, 0), |a| + 1)
  {
    FindSkips(a, s, pat, 0);
  }

  lemma LastHop(a: string, b: string, k: string)
    requires QuoteFree(a) && QuoteFree(b) && QuoteFree(k)
    ensures Find(a + ("\"" + b), Quoted(k), 0) == None
  {
    var s, pat := "\"" + b, Quoted(k);
    FindSkips(a, s, pat, 0);
    FindInRest("\"", b, pat, 0);
    NotFound(b, pat, 0);
    if |pat| <= |s| {
      assert s[0..|pat|][|k| + 1] == b[|k|] != pat[|k| + 1];
    }
  }

  /** The search over pieces: the first one between two quotes that is the key. */
  function PieceFind(ps: seq<string>, k: string): Option<nat> {
    if |ps| < 3 then None
    else if ps[1] == k then Some(|ps[0]|)
    else Shift(PieceFind(ps[1..], k), |ps[0]| + 1)
  }

  /** The text after the last cut matters only when nothing is found before it. */
  lemma {:induction false} FindInPieces(ps: seq<string>, k: string)
    requires ps != [] && Pieces(ps[..|ps| - 1]) && QuoteFree(k)
    requires PieceFind(ps, k).Some? || QuoteFree(ps[|ps| - 1])
    ensures Find(Join(ps), Quoted(k), 0) == PieceFind(ps, k)
  {
    if |ps| == 1 {
      NotFound(ps[0], Quoted(k), 0);
    } else {
      assert QuoteFree(ps[..|ps| - 1][0]);
      if |ps| == 2 {
        LastHop(ps[0], ps[1], k);
      } else {
        var rest := ps[1..];
        assert QuoteFree(ps[..|ps| - 1][1]);
        assert rest[..|rest| - 1] == ps[..|ps| - 1][1..];
        assert rest[1..] == ps[2..];
        assert Join(rest) == rest[0] + ("\"" + Join(rest[1..]));
        Hop(ps[0], ps[1], Join(rest[1..]), k);
        if ps[1] != k {
          FindInPieces(rest, k);
        }
      }
    }
  }

  // ---- Escaped values cut at their quotes

  function EscapedPieces(s: string): (ps: seq<string>)
    ensures ps != []
  {
    if s == [] then [""]
    else
      var c, ps := s[0], EscapedPieces(s[1..]);
      if c == '\"' then ["\\"] + ps else [EscapeChar(c) + ps[0]] + ps[1..]
  }

  lemma {:induction false} EscapedPiecesQuoteFree(s: string)
    ensures Pieces(EscapedPieces(s))
  {
    if s != [] {
      EscapedPiecesQuoteFree(s[1..]);
      var ps := EscapedPieces(s[1..]);
      assert QuoteFree(ps[0]);
    }
  }

  lemma {:induction false} EscapedPiecesJoin(s: string)
    ensures Join(EscapedPieces(s)) == EscapeBody(s)
  {
    if s != [] {
      EscapedPiecesJoin(s[1..]);
      var c, ps := s[0], EscapedPieces(s[1..]);
      if c == '\"' {
        assert (["\\"] + ps)[1..] == ps;
      } else if |ps| > 1 {
        assert ([EscapeChar(c) + ps[0]] + ps[1..])[1..] == ps[1..];
        Assoc(EscapeChar(c), ps[0], "\"" + Join(ps[1..]));
      }
    }
  }

  predicate WordChar(c: char) {
    'a' <= c <= 'z' || 'A' <= c <= 'Z' || '0' <= c <= '9' || c == '_'
  }

  /** A key: letters, digits and underscores. */
  predicate Word(s: string) {
    s != [] && forall c :: c in s ==> WordChar(c)
  }

  /** Every piece of an escaped value but the last ends in a backslash, so it is no key. */
  lemma {:induction false} InnerPieceIsNoWord(s: string, i: nat)
    requires i < |EscapedPieces(s)| - 1
    ensures var p := EscapedPieces(s)[i]; p != [] && p[|p| - 1] == '\\' && !Word(p)
  {
    if s[0] == '\"' {
      if i > 0 { InnerPieceIsNoWord(s[1..], i - 1); }
    } else {
      InnerPieceIsNoWord(s[1..], i);
    }
    var p := EscapedPieces(s)[i];
    assert p[|p| - 1] in p;
  }

  /** What follows the last quote of a text. */
  function AfterLastQuote(s: string): string {
    if QuoteFree(s) then s else AfterLastQuote(s[1..])
  }

  lemma {:induction false} EscapedPiecesOfQuoteFree(s: string)
    requires QuoteFree(s)
    ensures EscapedPieces(s) == [EscapeBody(s)]
  {
    if s != [] {
      EscapedPiecesOfQuoteFree(s[1..]);
    }
  }

  lemma {:induction false} LastEscapedPiece(s: string)
    ensures var ps := EscapedPieces(s); ps[|ps| - 1] == EscapeBody(AfterLastQuote(s))
    ensures !QuoteFree(s) ==> |EscapedPieces(s)| > 1
  {
    if QuoteFree(s) {
      EscapedPiecesOfQuoteFree(s);
    } else {
      LastEscapedPiece(s[1..]);
    }
  }

  lemma {:induction false} WordEscapesToItself(k: string)
    requires forall i :: 0 <= i < |k| ==> WordChar(k[i])
    ensures EscapeBody(k) == k
  {
    if k != [] {
      assert WordChar(k[0]);
      WordEscapesToItself(k[1..]);
      assert EscapeChar(k[0]) == [k[0]];
      assert k == [k[0]] + k[1..];
    }
  }

  /** A value that, once written, holds the quoted key: it is the key, or ends in a quote and the key. */
  predicate Spoils(s: string, k: string) {
    s == k || (|s| > |k| && s[|s| - |k| - 1] == '\"' && s[|s| - |k|..] == k)
  }

  lemma SpoilsWithoutFirst(s: string, k: string)
    requires QuoteFree(k) && !QuoteFree(s)
    ensures Spoils(s, k) <==> Spoils(s[1..], k)
  {
    var r, n := s[1..], |s| - |k|;
    assert s == [s[0]] + r;
    if n > 0 {
      assert s[n..] == r[n - 1..];
    }
    assert n == 1 ==> r[0..] == r;
  }

  lemma {:induction false} SpoilsIsAfterLastQuote(s: string, k: string)
    requires QuoteFree(k)
    ensures Spoils(s, k) <==> AfterLastQuote(s) == k
  {
    if QuoteFree(s) {
      assert |s| > |k| ==> s[|s| - |k| - 1] in s;
    } else {
      SpoilsWithoutFirst(s, k);
      SpoilsIsAfterLastQuote(s[1..], k);
    }
  }

  lemma LastPieceIsKeyIff(s: string, k: string)
    requires Word(k)
    ensures var ps := EscapedPieces(s); ps[|ps| - 1] == k <==> Spoils(s, k)
  {
    LastEscapedPiece(s);
    SpoilsIsAfterLastQuote(s, k);
    WordEscapesToItself(k);
    if EscapeBody(AfterLastQuote(s)) == k {
      EscapeInjective(AfterLastQuote(s), k);
    }
  }

  // ---- The search through a value

  /** A piece that is no key between two quotes is passed. */
  lemma PassPiece(a: string, ps: seq<string>, k: string)
    requires ps != [] && ps[0] != k
    ensures PieceFind([a] + ps, k) == Shift(PieceFind(ps, k), |a| + 1)
  {
    assert ([a] + ps)[1..] == ps;
  }

  /** The length of the text before the last piece. */
  function Before(ps: seq<string>): nat
    requires ps != []
  {
    if |ps| == 1 then 0 else |ps[0]| + 1 + Before(ps[1..])
  }

  lemma {:induction false} BeforeLast(ps: seq<string>)
    requires ps != []
    ensures Before(ps) + |ps[|ps| - 1]| == |Join(ps)|
  {
    if |ps| > 1 { BeforeLast(ps[1..]); }
  }

  lemma {:induction false} PassInnerPieces(a: string, es: seq<string>, ps: seq<string>, k: string)
    requires es != [] && ps != [] && forall i :: 0 <= i < |es| - 1 ==> es[i] != k
    ensures PieceFind([a] + es + ps, k)
         == if es[|es| - 1] == k then Some(|a| + Before(es))
            else Shift(PieceFind([es[|es| - 1]] + ps, k), |a| + 1 + Before(es))
    decreases |es|
  {
    var all := [a] + es + ps;
    assert all[1..] == [es[0]] + es[1..] + ps;
    if |es| == 1 {
      assert all[1..] == [es[0]] + ps;
    } else {
      PassInnerPieces(es[0], es[1..], ps, k);
    }
  }

  lemma NoInnerKey(s: string, k: string)
    requires Word(k)
    ensures forall i :: 0 <= i < |EscapedPieces(s)| - 1 ==> EscapedPieces(s)[i] != k
  {
    forall i | 0 <= i < |EscapedPieces(s)| - 1 ensures EscapedPieces(s)[i] != k { InnerPieceIsNoWord(s, i); }
  }

  /** The search stops inside a written value exactly when the value spoils the key; else it goes on after it. */
  lemma SearchValue(a: string, s: string, ps: seq<string>, k: string)
    requires Word(k) && ps != [] && ps[0] != k
    ensures Passes(PieceFind([a] + EscapedPieces(s) + ps, k), PieceFind(ps, k), Spoils(s, k), |a|, |EscapeBody(s)|, |k|)
  {
    var es := EscapedPieces(s);
    NoInnerKey(s, k);
    LastPieceIsKeyIff(s, k);
    EscapedPiecesJoin(s);
    SearchPieces(a, es, ps, k, Spoils(s, k), |EscapeBody(s)|);
  }

  /** The result of a search that meets a value: a match that ends with it, or the result of the search after it. */
  predicate Passes(r: Option<nat>, after: Option<nat>, spoils: bool, lo: nat, n: nat, key: nat) {
    if spoils then r.Some? && r.value + key == lo + n else r == Shift(after, lo + n + 2)
  }

  lemma SearchPieces(a: string, es: seq<string>, ps: seq<string>, k: string, spoils: bool, n: nat)
    requires es != [] && ps != [] && ps[0] != k
    requires forall i :: 0 <= i < |es| - 1 ==> es[i] != k
    requires spoils <==> es[|es| - 1] == k
    requires n == |Join(es)|
    ensures Passes(PieceFind([a] + es + ps, k), PieceFind(ps, k), spoils, |a|, n, |k|)
  {
    BeforeLast(es);
    PassInnerPieces(a, es, ps, k);
    PassLast(PieceFind([a] + es + ps, k), es[|es| - 1], ps, k, spoils, |a|, Before(es), n);
  }

  lemma PassLast(r: Option<nat>, last: string, ps: seq<string>, k: string, spoils: bool, lo: nat, before: nat, n: nat)
    requires ps != [] && ps[0] != k && (spoils <==> last == k) && n == before + |last|
    requires r == if last == k then Some(lo + before) else Shift(PieceFind([last] + ps, k), lo + 1 + before)
    ensures Passes(r, PieceFind(ps, k), spoils, lo, n, |k|)
  {
    PassPiece(last, ps, k);
    PassesBy(r, PieceFind([last] + ps, k), PieceFind(ps, k), spoils, lo, before, |last|, |k|, n);
  }

  lemma PassesBy(r: Option<nat>, r': Option<nat>, after: Option<nat>, spoils: bool, lo: nat, before: nat, last: nat,
                 key: nat, n: nat)
    requires (spoils ==> last == key) && n == before + last
    requires r == if spoils then Some(lo + before) else Shift(r', lo + 1 + before)
    requires r' == Shift(after, last + 1) || spoils
    ensures Passes(r, after, spoils, lo, n, key)
  {
  }

  // ---- The objects

  datatype Value = Text(s: string) | Raw(r: string)

  datatype Field = Field(key: string, value: Value)

  function ValueText(v: Value): string {
    match v
    case Text(s) => Quoted(EscapeBody(s))
    case Raw(r) => r
  }

  function FieldText(f: Field): string {
    Quoted(f.key) + ":" + ValueText(f.value)
  }

  /** The fields from the i-th on, with the closing brace. */
  function FieldsText(fs: seq<Field>): string {
    if fs == [] then "}"
    else FieldText(fs[0]) + (if |fs| == 1 then "" else ",") + FieldsText(fs[1..])
  }

  function ObjectText(fs: seq<Field>): (s: string)
    ensures s != [] && s[0] == '{'
  {
    "{" + FieldsText(fs)
  }

  /** The keys are words, and a value that is no string holds no quote; the last value may be any text. */
  predicate FieldsOk(fs: seq<Field>) {
    forall i :: 0 <= i < |fs| ==> Word(fs[i].key) && (i < |fs| - 1 && fs[i].value.Raw? ==> QuoteFree(fs[i].value.r))
  }

  predicate Flat(fs: seq<Field>) {
    FieldsOk(fs) && (fs != [] && fs[|fs| - 1].value.Raw? ==> QuoteFree(fs[|fs| - 1].value.r))
  }

  /** What stands between a value and the next key, or the end. */
  function Separator(rest: seq<Field>): string {
    if rest == [] then "}" else ","
  }

  /** An object's text cut at its quotes; a value that is no string stays in one piece with its surroundings. */
  function FieldsPieces(lead: string, fs: seq<Field>): (ps: seq<string>)
    ensures ps != []
    decreases |fs|
  {
    if fs == [] then [lead]
    else
      var sep := Separator(fs[1..]);
      [lead, fs[0].key] +
      match fs[0].value
      case Text(s) => [":"] + EscapedPieces(s) + FieldsPieces(sep, fs[1..])
      case Raw(r) => FieldsPieces(":" + r + sep, fs[1..])
  }

  /** The text after the lead: the fields without the final brace, which the last lead already holds. */
  function Remaining(fs: seq<Field>): string {
    if fs == [] then "" else FieldsText(fs)
  }

  lemma JoinTextField(lead: string, key: string, es: seq<string>, qs: seq<string>)
    requires es != [] && qs != []
    ensures Join([lead, key] + ([":"] + es + qs))
         == lead + ("\"" + (key + ("\"" + (":" + ("\"" + (Join(es) + ("\"" + Join(qs))))))))
  {
    assert [lead, key] + ([":"] + es + qs) == [lead] + ([key] + ([":"] + (es + qs)));
    JoinCons(lead, [key] + ([":"] + (es + qs)));
    JoinCons(key, [":"] + (es + qs));
    JoinCons(":", es + qs);
    JoinConcat(es, qs);
  }

  lemma JoinRawField(lead: string, key: string, qs: seq<string>)
    requires qs != []
    ensures Join([lead, key] + qs) == lead + ("\"" + (key + ("\"" + Join(qs))))
  {
    assert [lead, key] + qs == [lead] + ([key] + qs);
    JoinCons(lead, [key] + qs);
    JoinCons(key, qs);
  }

  /** Cutting loses nothing. */
  lemma {:induction false} FieldsPiecesJoin(lead: string, fs: seq<Field>)
    ensures Join(FieldsPieces(lead, fs)) == lead + Remaining(fs)
    decreases |fs|
  {
    if fs != [] {
      var f, rest := fs[0], fs[1..];
      var sep := Separator(rest);
      match f.value {
        case Text(s) =>
          FieldsPiecesJoin(sep, rest);
          var es, qs := EscapedPieces(s), FieldsPieces(sep, rest);
          JoinTextField(lead, f.key, es, qs);
          EscapedPiecesJoin(s);
          TextFieldText(lead, fs, s);
        case Raw(r) =>
          FieldsPiecesJoin(":" + r + sep, rest);
          var qs := FieldsPieces(":" + r + sep, rest);
          JoinRawField(lead, f.key, qs);
          RawFieldText(lead, fs, r);
      }
    }
  }

  lemma SeparatorText(fs: seq<Field>)
    requires fs != []
    ensures FieldsText(fs) == FieldText(fs[0]) + (Separator(fs[1..]) + Remaining(fs[1..]))
  {
    var rest := fs[1..];
    if rest == [] {
      assert FieldText(fs[0]) + "" + "}" == FieldText(fs[0]) + ("}" + "");
    } else {
      Assoc(FieldText(fs[0]), ",", FieldsText(rest));
    }
  }

  lemma QuotedThen(b: string, t: string)
    ensures Quoted(b) + t == "\"" + (b + ("\"" + t))
  {
    Assoc("\"" + b, "\"", t);
    Assoc("\"", b, "\"" + t);
  }

  lemma FieldThen(f: Field, t: string)
    ensures FieldText(f) + t == "\"" + (f.key + ("\"" + (":" + (ValueText(f.value) + t))))
  {
    Assoc(Quoted(f.key) + ":", ValueText(f.value), t);
    Assoc(Quoted(f.key), ":", ValueText(f.value) + t);
    QuotedThen(f.key, ":" + (ValueText(f.value) + t));
  }

  lemma TextFieldText(lead: string, fs: seq<Field>, s: string)
    requires fs != [] && fs[0].value == Text(s)
    ensures var b, t := EscapeBody(s), Separator(fs[1..]) + Remaining(fs[1..]);
            lead + Remaining(fs) == lead + ("\"" + (fs[0].key + ("\"" + (":" + ("\"" + (b + ("\"" + t)))))))
  {
    SeparatorText(fs);
    var b, t := EscapeBody(s), Separator(fs[1..]) + Remaining(fs[1..]);
    FieldThen(fs[0], t);
    QuotedThen(b, t);
  }

  lemma RawFieldText(lead: string, fs: seq<Field>, r: string)
    requires fs != [] && fs[0].value == Raw(r)
    ensures lead + Remaining(fs)
         == lead + ("\"" + (fs[0].key + ("\"" + ((":" + r + Separator(fs[1..])) + Remaining(fs[1..])))))
  {
    SeparatorText(fs);
    var sep, t := Separator(fs[1..]), Remaining(fs[1..]);
    FieldThen(fs[0], sep + t);
    Assoc(":", r, sep + t);
    Assoc(":" + r, sep, t);
  }

  lemma RestOk(fs: seq<Field>)
    requires fs != [] && FieldsOk(fs)
    ensures FieldsOk(fs[1..]) && (Flat(fs) ==> Flat(fs[1..])) && QuoteFree(fs[0].key)
  {
    var rest := fs[1..];
    assert forall i :: 0 <= i < |rest| ==> rest[i] == fs[i + 1];
    assert Word(fs[0].key);
  }

  /** All pieces but the last have no quote, and the last has none if no value that is no string has. */
  predicate CutClean(ps: seq<string>, clean: bool) {
    ps != [] && Pieces(ps[..|ps| - 1]) && (clean ==> QuoteFree(ps[|ps| - 1]))
  }

  lemma {:induction false} FieldsPiecesQuoteFree(lead: string, fs: seq<Field>)
    requires FieldsOk(fs) && (fs != [] ==> QuoteFree(lead))
    ensures CutClean(FieldsPieces(lead, fs), Flat(fs) && QuoteFree(lead))
    decreases |fs|
  {
    if fs != [] {
      var f, rest := fs[0], fs[1..];
      var sep := Separator(rest);
      RestOk(fs);
      match f.value {
        case Text(s) =>
          var es, qs := EscapedPieces(s), FieldsPieces(sep, rest);
          FieldsPiecesQuoteFree(sep, rest);
          EscapedPiecesQuoteFree(s);
          AllButLast([":"] + es, qs, Flat(rest));
          AllButLast([lead, f.key], [":"] + es + qs, Flat(rest));
        case Raw(r) =>
          var l := ":" + r + sep;
          FieldsPiecesQuoteFree(l, rest);
          AllButLast([lead, f.key], FieldsPieces(l, rest), Flat(rest) && QuoteFree(l));
      }
    }
  }

  lemma AllButLast(ps: seq<string>, qs: seq<string>, clean: bool)
    requires Pieces(ps) && CutClean(qs, clean)
    ensures CutClean(ps + qs, clean)
  {
    assert (ps + qs)[..|ps + qs| - 1] == ps + qs[..|qs| - 1];
  }

  // ---- Where the search lands

  predicate SpoilsValue(v: Value, k: string) {
    v.Text? && Spoils(v.s, k)
  }

  /** The first field with the key or with a value that spoils it. */
  function Stop(fs: seq<Field>, k: string): (i: nat)
    ensures i <= |fs|
    ensures forall j :: 0 <= j < i ==> fs[j].key != k && !SpoilsValue(fs[j].value, k)
    ensures i < |fs| ==> fs[i].key == k || SpoilsValue(fs[i].value, k)
  {
    if fs == [] then 0
    else if fs[0].key == k || SpoilsValue(fs[0].value, k) then 0
    else Stop(fs[1..], k) + 1
  }

  /** The length of one field with the comma after it. */
  function Width(f: Field): nat {
    |f.key| + 4 + |ValueText(f.value)|
  }

  /** Where field i begins, counted from the first field. */
  function Offset(fs: seq<Field>, i: nat): nat
    requires i <= |fs|
  {
    if i == 0 then 0 else Width(fs[0]) + Offset(fs[1..], i - 1)
  }

  lemma SearchTextField(lead: string, key: string, s: string, qs: seq<string>, k: string)
    requires Word(k) && qs != [] && qs[0] != k
    ensures var r := PieceFind([lead, key] + ([":"] + EscapedPieces(s) + qs), k);
            if key == k then r == Some(|lead|)
            else Passes(r, PieceFind(qs, k), Spoils(s, k), |lead| + |key| + 3, |EscapeBody(s)|, |k|)
  {
    NoWord(":", 0, k);
    SearchValue(":", s, qs, k);
    PassKey(lead, key, [":"] + EscapedPieces(s) + qs, PieceFind(qs, k), k, Spoils(s, k), |EscapeBody(s)|);
  }

  lemma PassKey(lead: string, key: string, us: seq<string>, after: Option<nat>, k: string, spoils: bool, n: nat)
    requires us != [] && us[0] != k
    requires Passes(PieceFind(us, k), after, spoils, 1, n, |k|)
    ensures var r := PieceFind([lead, key] + us, k);
            if key == k then r == Some(|lead|) else Passes(r, after, spoils, |lead| + |key| + 3, n, |k|)
  {
    SearchRawField(lead, key, us, k);
    PassesOn(PieceFind([lead, key] + us, k), PieceFind(us, k), after, spoils, |lead| + |key| + 2, n, |k|, key == k);
  }

  lemma PassesOn(r: Option<nat>, r': Option<nat>, after: Option<nat>, spoils: bool, more: nat,
        n: nat, k: nat, hit: bool)
    requires Passes(r', after, spoils, 1, n, k)
    requires hit || r == Shift(r', more)
    ensures hit || Passes(r, after, spoils, more + 1, n, k)
  {
  }

  lemma SearchRawField(lead: string, key: string, qs: seq<string>, k: string)
    requires qs != [] && qs[0] != k
    ensures PieceFind([lead, key] + qs, k)
         == if key == k then Some(|lead|) else Shift(PieceFind(qs, k), |lead| + |key| + 2)
  {
    assert ([lead, key] + qs)[1..] == [key] + qs;
    PassPiece(key, qs, k);
  }

  /** What a search may return whose text has the fields from `base` on. */
  predicate Landed(fs: seq<Field>, k: string, r: Option<nat>, base: nat) {
    var i := Stop(fs, k);
    if i == |fs| then r == None
    else if fs[i].key == k then r == Some(base + Offset(fs, i))
    else r.Some? && r.value + |Quoted(k)| == base + Offset(fs, i) + Width(fs[i]) - 1
  }

  lemma LandedHere(fs: seq<Field>, k: string, r: Option<nat>, base: nat)
    requires fs != [] && (fs[0].key == k || SpoilsValue(fs[0].value, k))
    requires if fs[0].key == k then r == Some(base)
             else r.Some? && r.value + |k| + 2 == base + |fs[0].key| + 3 + |ValueText(fs[0].value)|
    ensures Landed(fs, k, r, base)
  {
  }

  lemma LandedLater(fs: seq<Field>, k: string, r: Option<nat>, base: nat, after: Option<nat>, shorter: nat)
    requires fs != [] && fs[0].key != k && !SpoilsValue(fs[0].value, k)
    requires shorter <= base + Width(fs[0]) && r == Shift(after, base + Width(fs[0]) - shorter)
    requires Landed(fs[1..], k, after, shorter)
    ensures Landed(fs, k, r, base)
  {
  }

  lemma SearchFromText(lead: string, fs: seq<Field>, qs: seq<string>, k: string)
    requires Word(k) && fs != [] && fs[0].value.Text? && qs != [] && !Word(qs[0])
    requires Landed(fs[1..], k, PieceFind(qs, k), 1)
    ensures Landed(fs, k, PieceFind([lead, fs[0].key] + ([":"] + EscapedPieces(fs[0].value.s) + qs), k), |lead|)
  {
    var f := fs[0];
    var r := PieceFind([lead, f.key] + ([":"] + EscapedPieces(f.value.s) + qs), k);
    SearchTextField(lead, f.key, f.value.s, qs, k);
    if f.key == k || SpoilsValue(f.value, k) {
      LandedHere(fs, k, r, |lead|);
    } else {
      LandedLater(fs, k, r, |lead|, PieceFind(qs, k), 1);
    }
  }

  lemma SearchFromRaw(lead: string, fs: seq<Field>, l: string, qs: seq<string>, k: string)
    requires Word(k) && fs != [] && fs[0].value.Raw? && qs != [] && qs[0] != k
    requires |l| == 1 + |ValueText(fs[0].value)| + 1
    requires Landed(fs[1..], k, PieceFind(qs, k), |l|)
    ensures Landed(fs, k, PieceFind([lead, fs[0].key] + qs, k), |lead|)
  {
    var r := PieceFind([lead, fs[0].key] + qs, k);
    SearchRawField(lead, fs[0].key, qs, k);
    if fs[0].key == k { LandedHere(fs, k, r, |lead|); } else { LandedLater(fs, k, r, |lead|, PieceFind(qs, k), |l|); }
  }

  lemma {:induction false} SearchFields(lead: string, fs: seq<Field>, k: string)
    requires Word(k) && FieldsOk(fs)
    ensures Landed(fs, k, PieceFind(FieldsPieces(lead, fs), k), |lead|)
    decreases |fs|
  {
    if fs != [] {
      var f, rest := fs[0], fs[1..];
      var sep := Separator(rest);
      assert FieldsOk(rest);
      match f.value {
        case Text(s) =>
          var qs := FieldsPieces(sep, rest);
          assert FieldsPieces(lead, fs) == [lead, f.key] + ([":"] + EscapedPieces(s) + qs);
          assert !Word(sep) by { assert !WordChar(sep[0]) && sep[0] in sep; }
          SearchFields(sep, rest, k);
          SearchFromText(lead, fs, qs, k);
        case Raw(t) =>
          var l := ":" + t + sep;
          var qs := FieldsPieces(l, rest);
          NoWord(l, 0, k);
          SearchFields(l, rest, k);
          SearchFromRaw(lead, fs, l, qs, k);
      }
    }
  }

  lemma NoWord(s: string, i: nat, k: string)
    requires i < |s| && !WordChar(s[i]) && Word(k)
    ensures s != k
  {
    assert s[i] !in k && s[i] in s;
  }

  /**
   The search for a quoted key: it finds nothing when no field has the key and no value spoils it; it stops at the
   first field with the key when no earlier value spoils it, and at the end of the first value that does otherwise.
   */
  lemma SearchLands(fs: seq<Field>, k: string)
    requires Word(k) && FieldsOk(fs) && (Flat(fs) || Stop(fs, k) < |fs|)
    ensures Landed(fs, k, Find(ObjectText(fs), Quoted(k), 0), 1)
  {
    if fs == [] {
      NothingInEmpty(k);
    } else {
      var ps := ObjectPieces(fs);
      SearchFields("{", fs, k);
      LandsInText(fs, k, ps);
    }
  }

  lemma ObjectPieces(fs: seq<Field>) returns (ps: seq<string>)
    requires fs != [] && FieldsOk(fs)
    ensures ps == FieldsPieces("{", fs) && Join(ps) == ObjectText(fs)
    ensures Pieces(ps[..|ps| - 1]) && (Flat(fs) ==> QuoteFree(ps[|ps| - 1]))
  {
    ps := FieldsPieces("{", fs);
    FieldsPiecesJoin("{", fs);
    FieldsPiecesQuoteFree("{", fs);
  }

  lemma LandsInText(fs: seq<Field>, k: string, ps: seq<string>)
    requires ps != [] && Pieces(ps[..|ps| - 1]) && QuoteFree(k)
    requires Stop(fs, k) < |fs| || QuoteFree(ps[|ps| - 1])
    requires Landed(fs, k, PieceFind(ps, k), 1)
    ensures Landed(fs, k, Find(Join(ps), Quoted(k), 0), 1)
  {
    LandedFound(fs, k, PieceFind(ps, k), 1);
    FindInPieces(ps, k);
  }

  lemma NothingInEmpty(k: string)
    ensures Find(ObjectText([]), Quoted(k), 0) == None
  {
    var t := ObjectText([]);
    assert t == ['{', '}'];
    NotFound(t, Quoted(k), 0);
  }

  lemma LandedFound(fs: seq<Field>, k: string, r: Option<nat>, base: nat)
    requires Landed(fs, k, r, base)
    ensures r.Some? <==> Stop(fs, k) < |fs|
  {
  }

  /** No field before the i-th has the key, and no value there spoils it. */
  predicate Clear(fs: seq<Field>, k: string, i: nat)
    requires i <= |fs|
  {
    forall j :: 0 <= j < i ==> fs[j].key != k && !SpoilsValue(fs[j].value, k)
  }

  lemma StopIs(fs: seq<Field>, k: string, i: nat)
    requires i < |fs| && (fs[i].key == k || SpoilsValue(fs[i].value, k))
    ensures Stop(fs, k) <= i
    ensures Stop(fs, k) == i <==> Clear(fs, k, i)
  {
  }

  /** The field with the key is found exactly when it is the first with the key and no earlier value spoils the key. */
  lemma LandsIff(fs: seq<Field>, k: string, i: nat)
    requires Word(k) && FieldsOk(fs) && i < |fs| && fs[i].key == k
    ensures Find(ObjectText(fs), Quoted(k), 0) == Some(1 + Offset(fs, i)) <==> Clear(fs, k, i)
  {
    StopIs(fs, k, i);
    SearchLands(fs, k);
    LandedAt(fs, k, i, Find(ObjectText(fs), Quoted(k), 0));
  }

  lemma LandedAt(fs: seq<Field>, k: string, i: nat, r: Option<nat>)
    requires Stop(fs, k) <= i < |fs| && fs[i].key == k && Landed(fs, k, r, 1)
    ensures r == Some(1 + Offset(fs, i)) <==> Stop(fs, k) == i
  {
    if Stop(fs, k) < i {
      OffsetBefore(fs, Stop(fs, k), i);
    }
  }

  lemma {:induction false} OffsetBefore(fs: seq<Field>, i: nat, j: nat)
    requires i < j <= |fs|
    ensures Offset(fs, i) + Width(fs[i]) <= Offset(fs, j)
  {
    if i > 0 {
      OffsetBefore(fs[1..], i - 1, j - 1);
    }
  }

  // ---- Reading the value

  /** The first match after an earlier one. */
  function FindNext(s: string, pat: string, r: Option<nat>, skip: nat): Option<nat> {
    match r
    case None => None
    case Some(p) => Find(s, pat, p + skip)
  }

  /** Where the lookup of a string field starts to read: after the first quote after the first colon after the key. */
  function ValueStart(json: string, key: string): (r: Option<nat>)
    ensures r.Some? ==> r.value < |json|
  {
    FindNext(json, "\"", FindNext(json, ":", Find(json, Quoted(key), 0), |Quoted(key)|), 1)
  }

  /** Looking up a string field. */
  function StringField(json: string, key: string): string {
    match ValueStart(json, key)
    case None => ""
    case Some(q) => Unescape(json, q + 1)
  }

  method ExtractStringField(json: string, key: string) returns (out: string)
    ensures out == StringField(json, key)
  {
    var pos := Find(json, Quoted(key), 0);
    if pos == None { return ""; }
    pos := FindNext(json, ":", pos, |Quoted(key)|);
    if pos == None { return ""; }
    pos := FindNext(json, "\"", pos, 1);
    assert pos == ValueStart(json, key);
    if pos == None { return ""; }
    out := ReadString(json, pos.value + 1);
  }

  /** The text up to a field's value. */
  function UpTo(fs: seq<Field>, i: nat): (s: string)
    requires i < |fs|
    ensures |s| == Offset(fs, i) + |fs[i].key| + 3
  {
    if i == 0 then Quoted(fs[0].key) + ":" else (FieldText(fs[0]) + ",") + UpTo(fs[1..], i - 1)
  }

  lemma {:induction false} TextAt(fs: seq<Field>, i: nat)
    requires i < |fs|
    ensures FieldsText(fs) == UpTo(fs, i) + (ValueText(fs[i].value) + (Separator(fs[i + 1..]) + Remaining(fs[i + 1..])))
  {
    if i == 0 {
      SeparatorText(fs);
      Assoc(Quoted(fs[0].key) + ":", ValueText(fs[0].value), Separator(fs[1..]) + Remaining(fs[1..]));
    } else {
      TextAt(fs[1..], i - 1);
      assert fs[1..][i..] == fs[i + 1..];
      var a, u := FieldText(fs[0]) + ",", UpTo(fs[1..], i - 1);
      var t := ValueText(fs[i].value) + (Separator(fs[i + 1..]) + Remaining(fs[i + 1..]));
      assert FieldsText(fs) == a + (u + t);
      Assoc(a, u, t);
    }
  }

  lemma {:induction false} UpToEnds(fs: seq<Field>, i: nat)
    requires i < |fs|
    ensures UpTo(fs, i)[Offset(fs, i)..] == Quoted(fs[i].key) + ":"
  {
    if i > 0 {
      UpToEnds(fs[1..], i - 1);
      var a := FieldText(fs[0]) + ",";
      assert (a + UpTo(fs[1..], i - 1))[|a| + Offset(fs[1..], i - 1)..] ==
        UpTo(fs[1..], i - 1)[Offset(fs[1..], i - 1)..];
    }
  }

  lemma HeadBeforeColon(u: string, n: nat, k: string) returns (head: string)
    requires n <= |u| && u[n..] == Quoted(k) + ":"
    ensures "{" + u == (head + "") + ":" && |head| == n + |k| + 3
  {
    head := ("{" + u)[..|u|];
    assert u[n..][|k| + 2] == ':';
  }

  /** Where the search lands on a string field, the reader takes over at the value's opening quote. */
  lemma FieldRead(fs: seq<Field>, k: string, i: nat, s: string)
    requires i < |fs| && fs[i] == Field(k, Text(s))
    requires Find(ObjectText(fs), Quoted(k), 0) == Some(1 + Offset(fs, i))
    ensures StringField(ObjectText(fs), k) == ReadBody(s)
  {
    UpToEnds(fs, i);
    var head := HeadBeforeColon(UpTo(fs, i), Offset(fs, i), k);
    ReadFieldFrom(fs, k, i, s, head, "", 1 + Offset(fs, i));
  }

  lemma ReadFieldFrom(fs: seq<Field>, k: string, i: nat, s: string, head: string, m: string, p: nat)
    requires i < |fs| && fs[i].value == Text(s)
    requires "{" + UpTo(fs, i) == (head + m) + ":" && ':' !in m && p + |k| + 2 == |head|
    requires Find(ObjectText(fs), Quoted(k), 0) == Some(p)
    ensures StringField(ObjectText(fs), k) == ReadBody(s)
  {
    var t := Separator(fs[i + 1..]) + Remaining(fs[i + 1..]);
    var u, b := UpTo(fs, i), EscapeBody(s);
    TextAt(fs, i);
    Assoc("{", u, Quoted(b) + t);
    QuotedThen(b, t);
    ReadAfterColon(head, m, s, t, k, p);
  }

  lemma {:induction false} OffsetNext(fs: seq<Field>, i: nat)
    requires i < |fs|
    ensures Offset(fs, i + 1) == Offset(fs, i) + Width(fs[i])
  {
    if i > 0 { OffsetNext(fs[1..], i - 1); }
  }

  lemma CharAfter(a: string, u: string, n: nat)
    requires a != [] && n < |u|
    ensures (a + u)[|a| + n] == u[n] && (a + u)[|a| - 1] == a[|a| - 1]
  {
  }

  lemma UpToStep(fs: seq<Field>, i: nat)
    requires i + 1 < |fs|
    ensures UpTo(fs, i + 1) == (FieldText(fs[0]) + ",") + UpTo(fs[1..], i)
    ensures Offset(fs, i + 1) == |FieldText(fs[0]) + ","| + Offset(fs[1..], i)
  {
  }

  lemma {:induction false} UpToComma(fs: seq<Field>, i: nat)
    requires i + 1 < |fs|
    ensures Offset(fs, i + 1) > 0 && UpTo(fs, i + 1)[Offset(fs, i + 1) - 1] == ','
  {
    var a, u := FieldText(fs[0]) + ",", UpTo(fs[1..], i);
    UpToStep(fs, i);
    if i == 0 {
      CharAfter(a, u, 0);
    } else {
      UpToComma(fs[1..], i - 1);
      CharAfter(a, u, Offset(fs[1..], i) - 1);
    }
  }

  lemma CommaThen(u: string, o: nat, head: string, q: string)
    requires o <= |u| && u == u[..o] + (q + ":") && "{" + u[..o] == head + ","
    ensures "{" + u == (head + ("," + q)) + ":"
  {
    Assoc("{", u[..o], q + ":");
    Assoc(head, ",", q + ":");
    Assoc(",", q, ":");
    Assoc(head, "," + q, ":");
  }

  lemma StartAt(json: string, k: string, p: nat, c: nat, q: nat)
    requires Find(json, Quoted(k), 0) == Some(p)
    requires Find(json, ":", p + |Quoted(k)|) == Some(c)
    requires Find(json, "\"", c + 1) == Some(q)
    ensures ValueStart(json, k) == Some(q)
  {
    assert FindNext(json, ":", Some(p), |Quoted(k)|) == Some(c);
    assert FindNext(json, "\"", Some(c), 1) == Some(q);
  }

  lemma ColonFound(head: string, m: string, u: string)
    requires ':' !in m
    ensures Find(((head + m) + ":") + u, ":", |head|) == Some(|head| + |m|)
  {
    Assoc(head + m, ":", u);
    FindAfter(head, m, ":" + u, ":", 0);
  }

  lemma QuoteFound(a: string, w: string)
    ensures Find(a + ("\"" + w), "\"", |a|) == Some(|a|)
  {
    FindShifted(a, "\"" + w, "\"", 0, 0);
  }

  lemma StartsAfterColon(json: string, head: string, m: string, w: string, k: string, p: nat)
    requires p + |k| + 2 == |head| && ':' !in m
    requires json == ((head + m) + ":") + ("\"" + w)
    requires Find(json, Quoted(k), 0) == Some(p)
    ensures ValueStart(json, k) == Some(|head| + |m| + 1)
  {
    ColonFound(head, m, "\"" + w);
    QuoteFound((head + m) + ":", w);
    StartAt(json, k, p, |head| + |m|, |head| + |m| + 1);
  }

  lemma ReadAfterColon(head: string, m: string, s: string, t: string, k: string, p: nat)
    requires p + |k| + 2 == |head| && ':' !in m
    requires Find(((head + m) + ":") + ("\"" + (EscapeBody(s) + ("\"" + t))), Quoted(k), 0) == Some(p)
    ensures StringField(((head + m) + ":") + ("\"" + (EscapeBody(s) + ("\"" + t))), k) == ReadBody(s)
  {
    var b, a := EscapeBody(s), (head + m) + ":";
    StartsAfterColon(a + ("\"" + (b + ("\"" + t))), head, m, b + ("\"" + t), k, p);
    assert a + ("\"" + (b + ("\"" + t))) == (a + "\"") + b + "\"" + t by {
      Assoc(a, "\"", b + ("\"" + t));
      Assoc(a + "\"", b, "\"" + t);
      Assoc(a + "\"" + b, "\"", t);
    }
    ReadEscaped(a + "\"", s, t);
  }

  /**
   Looking up the first string field with a key. With no spoiling value before it, the original value comes back
   exactly when its only control bytes are newline, return and tab.
   */
  lemma FieldLookup(fs: seq<Field>, k: string, i: nat, s: string)
    requires Word(k) && FieldsOk(fs) && i < |fs| && fs[i] == Field(k, Text(s))
    requires Clear(fs, k, i)
    ensures StringField(ObjectText(fs), k) == ReadBody(s)
    ensures StringField(ObjectText(fs), k) == s <==> forall c :: c in s ==> Readable(c)
  {
    LandsIff(fs, k, i);
    FieldRead(fs, k, i, s);
    ReadBodyIff(s);
  }

  /** The string read after the first quote of a text, if there is one. */
  function FirstQuoted(w: string): string {
    match Find(w, "\"", 0)
    case None => ""
    case Some(q) => Unescape(w, q + 1)
  }

  /** What a lookup that the i-th value spoils returns: it reads the first string after the next field's colon. */
  function AfterSpoiled(fs: seq<Field>, i: nat): string
    requires i < |fs|
  {
    if i + 1 == |fs| then ""
    else
      match fs[i + 1].value
      case Text(s) => ReadBody(s)
      case Raw(r) => if i + 2 < |fs| then fs[i + 2].key else FirstQuoted(r + "}")
  }

  lemma {:induction false} UnescapeInRest(a: string, w: string, n: nat)
    requires n <= |w|
    ensures Unescape(a + w, |a| + n) == Unescape(w, n)
    decreases |w| - n
  {
    if n < |w| {
      var t, i := a + w, |a| + n;
      assert t[i] == w[n];
      if w[n] == '\\' && n + 1 < |w| {
        assert t[i + 1] == w[n + 1];
        UnescapeInRest(a, w, n + 2);
        assert Unescape(t, i) == [UnescapeChar(w[n + 1])] + Unescape(t, i + 2);
        assert Unescape(w, n) == [UnescapeChar(w[n + 1])] + Unescape(w, n + 2);
      } else if w[n] != '\"' {
        UnescapeInRest(a, w, n + 1);
        assert Unescape(t, i) == [w[n]] + Unescape(t, i + 1);
        assert Unescape(w, n) == [w[n]] + Unescape(w, n + 1);
      }
    }
  }

  /** A lookup that finds a colon reads the first string after it. */
  lemma ReadsFirstQuoted(json: string, head: string, m: string, w: string, k: string, p: nat)
    requires p + |k| + 2 == |head| && ':' !in m && json == ((head + m) + ":") + w
    requires Find(json, Quoted(k), 0) == Some(p)
    ensures StringField(json, k) == FirstQuoted(w)
  {
    var a := (head + m) + ":";
    ColonFound(head, m, w);
    FindInRest(a, w, "\"", 0);
    assert FindNext(json, ":", Some(p), |Quoted(k)|) == Some(|a| - 1);
    assert FindNext(json, "\"", Some(|a| - 1), 1) == Shift(Find(w, "\"", 0), |a|);
    assert ValueStart(json, k) == Shift(Find(w, "\"", 0), |a|);
    if Find(w, "\"", 0).Some? { UnescapeInRest(a, w, Find(w, "\"", 0).value + 1); }
  }

  /** The text after the colon of field i. */
  function FromValue(fs: seq<Field>, i: nat): string
    requires i < |fs|
  {
    ValueText(fs[i].value) + (Separator(fs[i + 1..]) + Remaining(fs[i + 1..]))
  }

  /** Where an earlier value spoils the key, the search goes on to the next field's colon. */
  lemma SpoiledReads(fs: seq<Field>, k: string, i: nat)
    requires i + 1 < |fs| && Word(fs[i + 1].key)
    requires var r := Find(ObjectText(fs), Quoted(k), 0);
             r.Some? && r.value + |k| + 2 == Offset(fs, i) + Width(fs[i])
    ensures StringField(ObjectText(fs), k) == FirstQuoted(FromValue(fs, i + 1))
  {
    var u, o, key := UpTo(fs, i + 1), Offset(fs, i + 1), fs[i + 1].key;
    UpToEnds(fs, i + 1);
    UpToComma(fs, i);
    OffsetNext(fs, i);
    var head, m := ("{" + u)[..o], "," + Quoted(key);
    assert u == u[..o] + (Quoted(key) + ":");
    assert "{" + u == (head + m) + ":" by {
      assert "{" + u[..o] == head + ",";
      CommaThen(u, o, head, Quoted(key));
    }
    assert ':' !in m by { assert forall c :: c in key ==> WordChar(c); }
    TextAt(fs, i + 1);
    Assoc("{", u, FromValue(fs, i + 1));
    ReadsFirstQuoted(ObjectText(fs), head, m, FromValue(fs, i + 1), k, Find(ObjectText(fs), Quoted(k), 0).value);
  }

  lemma FirstQuotedIsRead(b: string, t: string)
    ensures FirstQuoted(Quoted(b) + t) == Unescape("\"" + b + "\"" + t, 1)
  {
    var w := "\"" + b + "\"" + t;
    assert "" + ("\"" + (b + ("\"" + t))) == w by {
      Assoc("\"", b, "\"" + t);
      Assoc("\"" + b, "\"", t);
    }
    QuoteFound("", b + ("\"" + t));
    assert Quoted(b) + t == w;
  }

  lemma FirstOfText(s: string, t: string)
    ensures FirstQuoted(Quoted(EscapeBody(s)) + t) == ReadBody(s)
  {
    FirstQuotedIsRead(EscapeBody(s), t);
    ReadEscaped("\"", s, t);
  }

  /** A text without quotes and then a word in quotes: the word is read. */
  lemma FirstOfWord(a: string, key: string, t: string)
    requires QuoteFree(a) && Word(key)
    ensures FirstQuoted(a + ("\"" + (key + ("\"" + t)))) == key
  {
    var w := a + ("\"" + (key + ("\"" + t)));
    FindSkipped(a, "\"" + (key + ("\"" + t)), "\"", 0);
    WordEscapesToItself(key);
    WordReadsItself(key);
    assert w == (a + "\"") + key + "\"" + t by {
      Assoc(a, "\"", key + ("\"" + t));
      Assoc(a + "\"", key, "\"" + t);
      Assoc(a + "\"" + key, "\"", t);
    }
    ReadEscaped(a + "\"", key, t);
  }

  lemma WordReadsItself(key: string)
    requires Word(key)
    ensures ReadBody(key) == key
  {
    ReadBodyIff(key);
    forall c | c in key ensures Readable(c) { assert WordChar(c); }
  }

  lemma RawThenKey(fs: seq<Field>, i: nat, r: string)
    requires i + 1 < |fs| && fs[i].value == Raw(r) && QuoteFree(r) && Word(fs[i + 1].key)
    ensures FirstQuoted(FromValue(fs, i)) == fs[i + 1].key
  {
    var rest := fs[i + 1..];
    var t := (if |rest| == 1 then "" else ",") + FieldsText(rest[1..]);
    var tail := ":" + (ValueText(rest[0].value) + t);
    assert FieldsText(rest) == FieldText(rest[0]) + t by {
      Assoc(FieldText(rest[0]), if |rest| == 1 then "" else ",", FieldsText(rest[1..]));
    }
    FieldThen(rest[0], t);
    Assoc(r, ",", FieldsText(rest));
    FirstOfWord(r + ",", rest[0].key, tail);
  }

  /** After the last value there is no colon. */
  lemma NothingAfterLast(fs: seq<Field>, k: string, i: nat)
    requires i + 1 == |fs|
    requires var r := Find(ObjectText(fs), Quoted(k), 0);
             r.Some? && r.value + |k| + 2 == Offset(fs, i) + Width(fs[i])
    ensures StringField(ObjectText(fs), k) == ""
  {
    var json, v := ObjectText(fs), UpTo(fs, i) + ValueText(fs[i].value);
    TextAt(fs, i);
    assert fs[i + 1..] == [];
    Assoc(UpTo(fs, i), ValueText(fs[i].value), "}" + "");
    Assoc("{", v, "}" + "");
    assert "}" + "" == "}";
    assert json == ("{" + v) + "}";
    FindInRest("{" + v, "}", ":", 0);
    NotFound("}", ":", 0);
    assert FindNext(json, ":", Find(json, Quoted(k), 0), |Quoted(k)|) == None;
  }

  /**
   The lookup that an earlier value spoils: it returns the string of the field after that value, whatever its key; if
   that field is no string, the key of the one after it, or what its text has in quotes if it is the last; and nothing
   after the last field.
   */
  lemma SpoiledLookup(fs: seq<Field>, k: string, i: nat)
    requires Word(k) && FieldsOk(fs) && i < |fs|
    requires Clear(fs, k, i) && fs[i].key != k && SpoilsValue(fs[i].value, k)
    ensures StringField(ObjectText(fs), k) == AfterSpoiled(fs, i)
  {
    StopIs(fs, k, i);
    SearchLands(fs, k);
    if i + 1 == |fs| {
      NothingAfterLast(fs, k, i);
    } else {
      SpoiledReads(fs, k, i);
      match fs[i + 1].value
      case Text(s) => FirstOfText(s, Separator(fs[i + 2..]) + Remaining(fs[i + 2..]));
      case Raw(r) =>
        if i + 2 < |fs| {
          RawThenKey(fs, i + 1, r);
        } else {
          assert fs[i + 2..] == [] && "}" + "" == "}";
        }
    }
  }

  /** So a last field that holds no quote gives nothing. */
  lemma SpoiledAtEnd(r: string)
    requires QuoteFree(r)
    ensures FirstQuoted(r + "}") == ""
  {
    NotFound(r + "}", "\"", 0);
  }

  /** Without the key and without a spoiling value there is nothing to find. */
  lemma MissingField(fs: seq<Field>, k: string)
    requires Word(k) && Flat(fs)
    requires forall j :: 0 <= j < |fs| ==> fs[j].key != k && !SpoilsValue(fs[j].value, k)
    ensures StringField(ObjectText(fs), k) == ""
  {
    SearchLands(fs, k);
  }
}
