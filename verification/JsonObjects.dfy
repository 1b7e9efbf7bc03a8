/**
 Cutting a nested object out of a text by counting braces, and the requests of the agent service: what the server
 reads is what the client wrote.
 */
module JsonObjects {
  import opened JsonEscape
  import opened JsonFields
  import opened TextSearch

  // ---- Counting braces

  function Weight(c: char): int {
    if c == '{' then 1 else if c == '}' then -1 else 0
  }

  function Balance(s: string): int {
    if s == [] then 0 else Balance(s[..|s| - 1]) + Weight(s[|s| - 1])
  }

  /** An opening brace with the text up to the brace that closes it. */
  predicate Closed(s: string) {
    && s != [] && s[0] == '{' && Balance(s) == 0
    && forall n :: 0 < n < |s| ==> Balance(s[..n]) > 0
  }

  /** Where the lookup of an object field starts: at the first brace after the key. */
  function ObjectStart(json: string, key: string): (r: Option<nat>)
    ensures r.Some? ==> r.value < |json|
  {
    FindNext(json, "{", Find(json, Quoted(key), 0), |Quoted(key)|)
  }

  /** What the lookup of an object field returns: the closed piece from there, or an empty object if there is none. */
  ghost predicate IsObjectField(json: string, key: string, out: string) {
    match ObjectStart(json, key)
    case None => out == "{}"
    case Some(p) =>
      || (exists e :: p < e <= |json| && Closed(json[p..e]) && out == json[p..e])
      || (out == "{}" && forall e :: p < e <= |json| ==> !Closed(json[p..e]))
  }

  lemma BalanceMore(s: string, p: nat, i: nat)
    requires p <= i < |s|
    ensures Balance(s[p..i + 1]) == Balance(s[p..i]) + Weight(s[i])
  {
    assert s[p..i + 1][..i - p] == s[p..i];
  }

  lemma StartsWithBrace(json: string, key: string)
    requires ObjectStart(json, key).Some?
    ensures json[ObjectStart(json, key).value] == '{'
  {
    FindIsFirst(json, "{", Find(json, Quoted(key), 0).value + |Quoted(key)|);
    assert json[ObjectStart(json, key).value + 0] == "{"[0];
  }

  method ExtractObjectField(json: string, key: string) returns (out: string)
    ensures IsObjectField(json, key, out)
  {
    var start := ObjectStart(json, key);
    if start == None { return "{}"; }
    StartsWithBrace(json, key);
    var pos := start.value;
    var depth := 0;
    var i := pos;
    while i < |json|
      invariant pos <= i <= |json|
      invariant depth == Balance(json[pos..i])
      invariant forall n :: pos < n <= i ==> Balance(json[pos..n]) > 0
    {
      BalanceMore(json, pos, i);
      if json[i] == '{' {
        depth := depth + 1;
      } else if json[i] == '}' {
        depth := depth - 1;
        if depth == 0 {
          ClosedHere(json, pos, i + 1);
          return json[pos..i + 1];
        }
      }
      i := i + 1;
    }
    forall e | pos < e <= |json| ensures !Closed(json[pos..e]) {}
    out := "{}";
  }

  lemma ClosedHere(json: string, p: nat, e: nat)
    requires p < e <= |json| && json[p] == '{' && Balance(json[p..e]) == 0
    requires forall n :: p < n < e ==> Balance(json[p..n]) > 0
    ensures Closed(json[p..e])
  {
    forall n | 0 < n < e - p ensures Balance(json[p..e][..n]) > 0 {
      assert json[p..e][..n] == json[p..p + n];
    }
  }

  /** No closed piece is the beginning of another, so the lookup has one result. */
  lemma ObjectFieldUnique(json: string, key: string, a: string, b: string)
    requires IsObjectField(json, key, a) && IsObjectField(json, key, b)
    ensures a == b
  {
    if ObjectStart(json, key).Some? {
      var p := ObjectStart(json, key).value;
      if exists e :: p < e <= |json| && Closed(json[p..e]) && a == json[p..e] {
        var e :| p < e <= |json| && Closed(json[p..e]) && a == json[p..e];
        if exists f :: p < f <= |json| && Closed(json[p..f]) && b == json[p..f] {
          var f :| p < f <= |json| && Closed(json[p..f]) && b == json[p..f];
          ClosedOnce(json, p, e, f);
        }
      }
    }
  }

  lemma NoShorter(json: string, p: nat, e: nat, f: nat)
    requires p < e < f <= |json| && Closed(json[p..f])
    ensures !Closed(json[p..e])
  {
    assert json[p..f][..e - p] == json[p..e];
  }

  lemma ClosedOnce(json: string, p: nat, e: nat, f: nat)
    requires p < e <= |json| && p < f <= |json| && Closed(json[p..e]) && Closed(json[p..f])
    ensures e == f
  {
    if e < f { NoShorter(json, p, e, f); }
    if f < e { NoShorter(json, p, f, e); }
  }

  // ---- Which written objects are closed

  /** The depth after a text that starts at depth d, or None once it has dropped to zero. */
  function Walk(s: string, d: nat): (r: Option<nat>)
    requires d > 0
    ensures r.Some? ==> r.value > 0
    decreases |s|
  {
    if s == [] then Some(d)
    else if d + Weight(s[0]) <= 0 then None
    else Walk(s[1..], d + Weight(s[0]))
  }

  /** The braces of a text nest: it opens all that it closes, in order. */
  predicate Nested(s: string) {
    Walk(s, 1) == Some(1)
  }

  lemma {:induction false} BalanceFirst(s: string)
    requires s != []
    ensures Balance(s) == Weight(s[0]) + Balance(s[1..])
    decreases |s|
  {
    var n := |s| - 1;
    if n > 0 {
      BalanceFirst(s[..n]);
      assert s[1..][..n - 1] == s[..n][1..];
    } else {
      assert s[..0] == [] && s[1..] == [];
    }
  }

  /** The walk in terms of the balance of every prefix. */
  lemma {:induction false} WalkIs(s: string, d: nat)
    requires d > 0
    ensures Walk(s, d).Some? <==> forall n :: 0 <= n <= |s| ==> d + Balance(s[..n]) > 0
    ensures Walk(s, d).Some? ==> Walk(s, d).value == d + Balance(s)
    decreases |s|
  {
    if s == [] {
      assert forall n :: 0 <= n <= |s| ==> s[..n] == [];
    } else {
      var w := Weight(s[0]);
      BalanceFirst(s);
      forall n | 1 <= n <= |s| ensures Balance(s[..n]) == w + Balance(s[1..][..n - 1]) {
        BalanceFirst(s[..n]);
        assert s[..n][1..] == s[1..][..n - 1];
      }
      assert s[..0] == [] && Balance(s[..1]) == w + Balance(s[1..][..0]) && s[1..][..0] == [];
      if d + w > 0 {
        WalkIs(s[1..], d + w);
        if Walk(s, d).Some? {
          forall n | 0 <= n <= |s| ensures d + Balance(s[..n]) > 0 {
            if n > 0 { assert (d + w) + Balance(s[1..][..n - 1]) > 0; }
          }
        } else {
          var n :| 0 <= n <= |s[1..]| && (d + w) + Balance(s[1..][..n]) <= 0;
          assert d + Balance(s[..n + 1]) <= 0;
        }
      } else {
        assert d + Balance(s[..1]) <= 0;
      }
    }
  }

  lemma ClosedIffNested(body: string)
    ensures Closed("{" + body + "}") <==> Nested(body)
  {
    var s := "{" + body + "}";
    forall n | 0 <= n <= |body| ensures Balance(s[..n + 1]) == 1 + Balance(body[..n]) {
      BalanceFirst(s[..n + 1]);
      assert s[..n + 1][1..] == body[..n];
    }
    assert s[..|s| - 1] == s[..|body| + 1] && body[..|body|] == body;
    assert Balance(s) == Balance(body);
    WalkIs(body, 1);
    if Closed(s) {
      forall n | 0 <= n <= |body| ensures 1 + Balance(body[..n]) > 0 {
        assert Balance(s[..n + 1]) > 0;
      }
    }
    if Nested(body) {
      forall n | 0 < n < |s| ensures Balance(s[..n]) > 0 {
        assert Balance(s[..(n - 1) + 1]) == 1 + Balance(body[..n - 1]);
      }
    }
  }

  function Then(r: Option<nat>, t: string): Option<nat>
    requires r.Some? ==> r.value > 0
  {
    if r.None? then None else Walk(t, r.value)
  }

  lemma {:induction false} WalkConcat(s: string, t: string, d: nat)
    requires d > 0
    ensures Walk(s + t, d) == Then(Walk(s, d), t)
    decreases |s|
  {
    if s == [] {
      assert s + t == t;
    } else {
      assert (s + t)[1..] == s[1..] + t;
      if d + Weight(s[0]) > 0 { WalkConcat(s[1..], t, d + Weight(s[0])); }
    }
  }

  predicate BraceFree(s: string) {
    '{' !in s && '}' !in s
  }

  lemma {:induction false} WalkBraceFree(s: string, d: nat)
    requires d > 0 && BraceFree(s)
    ensures Walk(s, d) == Some(d)
    decreases |s|
  {
    if s != [] { WalkBraceFree(s[1..], d); }
  }

  /** Escaping changes no brace. */
  lemma {:induction false} WalkEscaped(s: string, d: nat)
    requires d > 0
    ensures Walk(EscapeBody(s), d) == Walk(s, d)
    decreases |s|
  {
    if s != [] {
      var e := EscapeChar(s[0]);
      WalkConcat(e, EscapeBody(s[1..]), d);
      if Weight(s[0]) == 0 {
        WalkBraceFree(e, d);
        WalkEscaped(s[1..], d);
      } else {
        assert e == [s[0]] && e[1..] == [];
        if d + Weight(s[0]) > 0 { WalkEscaped(s[1..], d + Weight(s[0])); }
      }
    }
  }

  /** The values of an object one after another, as they were before they were written. */
  function Texts(fs: seq<Field>): string {
    if fs == [] then ""
    else (match fs[0].value case Text(s) => s case Raw(r) => r) + Texts(fs[1..])
  }

  /** The fields without the closing brace. */
  function Inner(fs: seq<Field>): string {
    if fs == [] then "" else FieldText(fs[0]) + (if |fs| == 1 then "" else ",") + Inner(fs[1..])
  }

  lemma {:induction false} InnerThenBrace(fs: seq<Field>)
    ensures FieldsText(fs) == Inner(fs) + "}"
  {
    if fs != [] {
      InnerThenBrace(fs[1..]);
      Assoc(FieldText(fs[0]) + (if |fs| == 1 then "" else ","), Inner(fs[1..]), "}");
    }
  }

  lemma WalkAround(a: string, s: string, b: string, d: nat)
    requires d > 0 && BraceFree(a) && BraceFree(b)
    ensures Walk(a + s + b, d) == Walk(s, d)
  {
    WalkConcat(a, s, d);
    WalkBraceFree(a, d);
    WalkConcat(a + s, b, d);
    if Walk(s, d).Some? { WalkBraceFree(b, Walk(s, d).value); }
  }

  lemma WalkField(f: Field, sep: string, d: nat)
    requires d > 0 && Word(f.key) && BraceFree(sep)
    ensures Walk(FieldText(f) + sep, d) == Walk(match f.value case Text(s) => s case Raw(r) => r, d)
  {
    var a := Quoted(f.key) + ":";
    assert BraceFree(a) by { assert forall c :: c in f.key ==> WordChar(c); }
    match f.value
    case Text(s) =>
      var b := "\"" + sep;
      assert FieldText(f) + sep == (a + "\"") + EscapeBody(s) + b;
      WalkAround(a + "\"", EscapeBody(s), b, d);
      WalkEscaped(s, d);
    case Raw(r) =>
      WalkAround(a, r, sep, d);
  }

  lemma {:induction false} WalkInner(fs: seq<Field>, d: nat)
    requires d > 0 && FieldsOk(fs)
    ensures Walk(Inner(fs), d) == Walk(Texts(fs), d)
    decreases |fs|
  {
    if fs != [] {
      var sep := if |fs| == 1 then "" else ",";
      var t := match fs[0].value case Text(s) => s case Raw(r) => r;
      assert FieldsOk(fs[1..]);
      WalkConcat(FieldText(fs[0]) + sep, Inner(fs[1..]), d);
      WalkField(fs[0], sep, d);
      WalkConcat(t, Texts(fs[1..]), d);
      if Walk(t, d).Some? { WalkInner(fs[1..], Walk(t, d).value); }
    }
  }

  /** A written object is a closed piece exactly when the braces of its values, taken together, nest. */
  lemma ObjectClosedIff(fs: seq<Field>)
    requires FieldsOk(fs)
    ensures Closed(ObjectText(fs)) <==> Nested(Texts(fs))
  {
    InnerThenBrace(fs);
    assert ObjectText(fs) == "{" + Inner(fs) + "}";
    ClosedIffNested(Inner(fs));
    WalkInner(fs, 1);
  }

  // ---- Requests

  /** A request, with the method name escaped and the parameters as they are. */
  function RequestFields(name: string, params: string): (fs: seq<Field>)
    ensures FieldsOk(fs)
  {
    [Field("method", Text(name)), Field("params", Raw(params))]
  }

  function Request(name: string, params: string): string {
    ObjectText(RequestFields(name, params))
  }

  /** The method name arrives exactly when its only control bytes are newline, return and tab. */
  lemma RequestMethod(name: string, params: string)
    ensures StringField(Request(name, params), "method") == name <==> forall c :: c in name ==> Readable(c)
  {
    FieldLookup(RequestFields(name, params), "method", 0, name);
  }

  /** The parameters are found in every request, even when the method name spoils their key. */
  lemma ParamsStart(name: string, params: string)
    requires params != [] && params[0] == '{'
    ensures ObjectStart(Request(name, params), "params") == Some(1 + |UpTo(RequestFields(name, params), 1)|)
    ensures Request(name, params) == ("{" + UpTo(RequestFields(name, params), 1)) + (params + "}")
  {
    var fs := RequestFields(name, params);
    var json, u, o := Request(name, params), UpTo(fs, 1), Offset(fs, 1);
    SearchLands(fs, "params");
    TextAt(fs, 1);
    assert fs[2..] == [];
    assert Separator(fs[2..]) + Remaining(fs[2..]) == "}";
    Assoc("{", u, params + "}");
    UpToEnds(fs, 1);
    UpToComma(fs, 0);
    OffsetNext(fs, 0);
    var r := Find(json, Quoted("params"), 0);
    if Stop(fs, "params") == 1 {
      ParamsHere(json, u, params, o, r.value, 0);
    } else {
      ParamsHere(json, u, params, o, r.value, 1);
    }
  }

  /** After the match, at the key itself or one comma before it, there is no brace before the parameters. */
  lemma ParamsHere(json: string, u: string, params: string, o: nat, p: nat, comma: nat)
    requires params != [] && params[0] == '{' && json == ("{" + u) + (params + "}")
    requires comma <= 1 <= o <= |u| && u[o - 1] == ',' && u[o..] == Quoted("params") + ":"
    requires Find(json, Quoted("params"), 0) == Some(p)
    requires if comma == 0 then p == 1 + o else p + 8 == o
    ensures ObjectStart(json, "params") == Some(1 + |u|)
  {
    var q := Quoted("params") + ":";
    var k := if comma == 0 then o + 9 else o;
    var a, m := ("{" + u)[..k], ("{" + u)[k..];
    assert m == if comma == 0 then q[8..] else [','] + q;
    assert "{" + u == a + m;
    BraceFound(a, m, params + "}", json);
  }

  lemma BraceFound(a: string, m: string, s: string, json: string)
    requires json == (a + m) + s && '{' !in m && s != [] && s[0] == '{'
    ensures Find(json, "{", |a|) == Some(|a| + |m|)
  {
    FindAfter(a, m, s, "{", 0);
  }

  /** The server's parameters are the client's exactly when these are one closed piece. */
  lemma RequestParams(name: string, params: string, out: string)
    requires params != [] && params[0] == '{'
    requires IsObjectField(Request(name, params), "params", out)
    ensures out == params <==> Closed(params)
  {
    ParamsStart(name, params);
    var json, pre := Request(name, params), "{" + UpTo(RequestFields(name, params), 1);
    var p, e := |pre|, |pre| + |params|;
    assert json[p..e] == params;
    if Closed(params) {
      assert IsObjectField(json, "params", params);
      ObjectFieldUnique(json, "params", out, params);
    } else if out == params {
      EmptyIsClosed();
    }
  }

  lemma EmptyIsClosed()
    ensures Closed("{}")
  {
    ClosedIffNested("");
    assert "{" + "" + "}" == "{}";
  }

  /** The parameters of a goal. */
  function GoalFields(name: string, description: string, priority: string): (fs: seq<Field>)
    ensures FieldsOk(fs)
  {
    [Field("name", Text(name)), Field("description", Text(description)), Field("priority", Raw(priority))]
  }

  /**
   Setting a goal over the wire. The parameters arrive whole exactly when the braces in name and description nest,
   and then name and description arrive as they were whenever the reader knows their control bytes, whatever else
   they contain: even a name that spoils the key of the description leaves the description to be found.
   */
  lemma GoalArrives(name: string, description: string, priority: string, out: string)
    requires QuoteFree(priority) && BraceFree(priority)
    requires IsObjectField(Request("SetGoal", ObjectText(GoalFields(name, description, priority))), "params", out)
    ensures out == ObjectText(GoalFields(name, description, priority)) <==> Nested(name + description)
    ensures Nested(name + description) ==>
              && (StringField(out, "name") == name <==> forall c :: c in name ==> Readable(c))
              && (StringField(out, "description") == description <==> forall c :: c in description ==> Readable(c))
  {
    var fs := GoalFields(name, description, priority);
    RequestParams("SetGoal", ObjectText(fs), out);
    ObjectClosedIff(fs);
    GoalTexts(name, description, priority);
    ReadBodyIff(name);
    ReadBodyIff(description);
    FieldLookup(fs, "name", 0, name);
    SecondFound(fs[0], "description", description, fs[2]);
    assert fs == [fs[0], Field("description", Text(description)), fs[2]];
  }

  /** The second of three fields is found even if the first spoils its key. */
  lemma SecondFound(a: Field, k: string, s: string, c: Field)
    requires FieldsOk([a, Field(k, Text(s)), c]) && a.key != k && Word(k)
    ensures StringField(ObjectText([a, Field(k, Text(s)), c]), k) == ReadBody(s)
  {
    var fs := [a, Field(k, Text(s)), c];
    if SpoilsValue(a.value, k) {
      assert fs[0] == a;
      SpoiledLookup(fs, k, 0);
    } else {
      assert fs[0] == a;
      FieldLookup(fs, k, 1, s);
    }
  }

  lemma GoalTexts(name: string, description: string, priority: string)
    requires BraceFree(priority)
    ensures Nested(Texts(GoalFields(name, description, priority))) <==> Nested(name + description)
  {
    var fs := GoalFields(name, description, priority);
    assert fs[1..][1..][1..] == [];
    assert Texts(fs[1..][1..]) == priority;
    assert Texts(fs) == (name + description) + priority;
    WalkConcat(name + description, priority, 1);
    var r := Walk(name + description, 1);
    if r.Some? { WalkBraceFree(priority, r.value); }
  }
}
