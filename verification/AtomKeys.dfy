/** The keys of the store's two name indexes, and the quoting of names in a snapshot. */
module AtomKeys {
  // ---- Keys

  function Digit(d: nat): char
    requires d < 10
  {
    "0123456789"[d]
  }

  /** A number in decimal. */
  function Decimal(n: nat): (s: string)
    ensures s != []
  {
    if n < 10 then [Digit(n)] else Decimal(n / 10) + [Digit(n % 10)]
  }

  /** The number that a text of digits stands for. */
  function Number(s: string): int {
    if s == "" then 0 else Number(s[..|s| - 1]) * 10 + (s[|s| - 1] as int - '0' as int)
  }

  /** A number's decimal digits stand for it, and only zero begins with a zero. */
  lemma {:induction false} DecimalIsNumber(n: nat)
    ensures Number(Decimal(n)) == n && forall c :: c in Decimal(n) ==> '0' <= c <= '9'
    ensures n > 0 ==> Decimal(n)[0] != '0'
  {
    var digits := "0123456789";
    assert forall i: nat :: i < 10 ==> digits[i] as int == '0' as int + i;
    if n < 10 {
      assert Decimal(n)[..0] == "";
    } else {
      DecimalIsNumber(n / 10);
      assert Decimal(n)[..|Decimal(n)| - 1] == Decimal(n / 10);
    }
  }

  /** The key of a node: the type's number, a colon, and the name. */
  function NodeKey(t: nat, name: string): string {
    Decimal(t) + (":" + name)
  }

  function KeyTail(out: seq<nat>): string {
    if out == [] then "" else ":" + Decimal(out[0]) + KeyTail(out[1..])
  }

  /** The key of a link: the type's number and the members' ids, separated by colons. */
  function LinkKey(t: nat, out: seq<nat>): string {
    Decimal(t) + KeyTail(out)
  }

  predicate NoColon(s: string) {
    ':' !in s
  }

  lemma {:induction false} DecimalNoColon(n: nat)
    ensures NoColon(Decimal(n))
  {
    if n >= 10 { DecimalNoColon(n / 10); }
  }

  lemma {:induction false} DecimalInjective(m: nat, n: nat)
    requires Decimal(m) == Decimal(n)
    ensures m == n
  {
    var s, t := Decimal(m), Decimal(n);
    assert s[|s| - 1] == Digit(m % 10) && t[|t| - 1] == Digit(n % 10);
    DigitInjective(m % 10, n % 10);
    if m >= 10 && n >= 10 {
      assert s[..|s| - 1] == Decimal(m / 10) && t[..|t| - 1] == Decimal(n / 10);
      DecimalInjective(m / 10, n / 10);
    }
  }

  lemma DigitInjective(c: nat, d: nat)
    requires c < 10 && d < 10 && Digit(c) == Digit(d)
    ensures c == d
  {
    assert forall i: nat :: i < 10 ==> "0123456789"[i] as int == '0' as int + i;
  }

  /** What follows a number in a key: nothing, or a colon and more. */
  predicate ColonFirst(r: string) {
    r == [] || r[0] == ':'
  }

  function FirstColon(s: string): nat {
    if s == [] || s[0] == ':' then 0 else 1 + FirstColon(s[1..])
  }

  lemma {:induction false} ColonAt(a: string, r: string)
    requires NoColon(a) && ColonFirst(r)
    ensures FirstColon(a + r) == |a|
  {
    if a == [] {
      assert a + r == r;
    } else {
      assert a[0] in a && (a + r)[0] == a[0] && (a + r)[1..] == a[1..] + r;
      ColonAt(a[1..], r);
    }
  }

  lemma SplitAtColon(a: string, r: string, b: string, q: string)
    requires NoColon(a) && NoColon(b) && ColonFirst(r) && ColonFirst(q) && a + r == b + q
    ensures a == b && r == q
  {
    ColonAt(a, r);
    ColonAt(b, q);
    assert a == (a + r)[..|a|] && b == (b + q)[..|a|];
    assert r == (a + r)[|a|..] && q == (b + q)[|a|..];
  }

  /** Node keys are injective, whatever colons the names contain. */
  lemma NodeKeyInjective(t: nat, name: string, u: nat, other: string)
    requires NodeKey(t, name) == NodeKey(u, other)
    ensures t == u && name == other
  {
    DecimalNoColon(t);
    DecimalNoColon(u);
    SplitAtColon(Decimal(t), ":" + name, Decimal(u), ":" + other);
    DecimalInjective(t, u);
    assert (":" + name)[1..] == name && (":" + other)[1..] == other;
  }

  lemma {:induction false} KeyTailInjective(x: seq<nat>, y: seq<nat>)
    requires KeyTail(x) == KeyTail(y)
    ensures x == y
  {
    if x != [] && y != [] {
      var a, b := Decimal(x[0]), Decimal(y[0]);
      DecimalNoColon(x[0]);
      DecimalNoColon(y[0]);
      assert KeyTail(x)[1..] == a + KeyTail(x[1..]) && KeyTail(y)[1..] == b + KeyTail(y[1..]);
      SplitAtColon(a, KeyTail(x[1..]), b, KeyTail(y[1..]));
      DecimalInjective(x[0], y[0]);
      KeyTailInjective(x[1..], y[1..]);
      assert x == [x[0]] + x[1..] && y == [y[0]] + y[1..];
    }
  }

  /** Link keys are injective. */
  lemma LinkKeyInjective(t: nat, x: seq<nat>, u: nat, y: seq<nat>)
    requires LinkKey(t, x) == LinkKey(u, y)
    ensures t == u && x == y
  {
    DecimalNoColon(t);
    DecimalNoColon(u);
    SplitAtColon(Decimal(t), KeyTail(x), Decimal(u), KeyTail(y));
    DecimalInjective(t, u);
    KeyTailInjective(x, y);
  }

  lemma {:induction false} KeyTailMore(out: seq<nat>, i: nat)
    requires i < |out|
    ensures KeyTail(out[..i + 1]) == KeyTail(out[..i]) + (":" + Decimal(out[i]))
  {
    if i == 0 {
      assert out[..1][1..] == [] && out[..0] == [];
    } else {
      assert out[..i + 1][1..] == out[1..][..i] && out[..i][1..] == out[1..][..i - 1];
      KeyTailMore(out[1..], i - 1);
    }
  }

  method BuildLinkKey(t: nat, out: seq<nat>) returns (key: string)
    ensures key == LinkKey(t, out)
  {
    key := Decimal(t);
    for i := 0 to |out|
      invariant key == Decimal(t) + KeyTail(out[..i])
    {
      KeyTailMore(out, i);
      key := key + (":" + Decimal(out[i]));
    }
    assert out[..|out|] == out;
  }

  // ---- Names in a snapshot

  function QuoteChar(c: char): string {
    if c == '\"' then "\\\"" else if c == '\\' then "\\\\" else if c == '\n' then "\\n" else [c]
  }

  function QuoteBody(s: string): string {
    if s == [] then "" else QuoteChar(s[0]) + QuoteBody(s[1..])
  }

  function QuoteName(s: string): string {
    "\"" + QuoteBody(s) + "\""
  }

  lemma {:induction false} QuoteBodyMore(s: string, i: nat)
    requires i < |s|
    ensures QuoteBody(s[..i + 1]) == QuoteBody(s[..i]) + QuoteChar(s[i])
  {
    if i == 0 {
      assert s[..1][1..] == [] && s[..0] == [];
    } else {
      assert s[..i + 1][1..] == s[1..][..i] && s[..i][1..] == s[1..][..i - 1];
      QuoteBodyMore(s[1..], i - 1);
    }
  }

  method WriteQuoted(s: string) returns (r: string)
    ensures r == QuoteName(s)
  {
    r := "\"";
    for i := 0 to |s|
      invariant r == "\"" + QuoteBody(s[..i])
    {
      QuoteBodyMore(s, i);
      if s[i] == '\"' { r := r + "\\\""; }
      else if s[i] == '\\' { r := r + "\\\\"; }
      else if s[i] == '\n' { r := r + "\\n"; }
      else { r := r + [s[i]]; }
    }
    assert s[..|s|] == s;
    r := r + "\"";
  }

  /** The name that starts at position i and the position after it, up to the first quote no backslash precedes. */
  function UnquoteFrom(text: string, i: nat): (r: (string, nat))
    requires i <= |text|
    ensures i <= r.1 <= |text|
    decreases |text| - i
  {
    if i == |text| then ("", i)
    else if text[i] == '\"' then ("", i + 1)
    else if text[i] == '\\' then
      if i + 1 == |text| then ("", i + 1)
      else
        var c := if text[i + 1] == 'n' then '\n' else text[i + 1];
        var (rest, j) := UnquoteFrom(text, i + 2);
        ([c] + rest, j)
    else
      var (rest, j) := UnquoteFrom(text, i + 1);
      ([text[i]] + rest, j)
  }

  /** A backslash with an n after it is read as a newline, and with any other byte as that byte. */
  lemma EscapesRead(text: string, i: nat)
    requires i + 1 < |text| && text[i] == '\\'
    ensures UnquoteFrom(text, i).1 == UnquoteFrom(text, i + 2).1
    ensures UnquoteFrom(text, i).0 == [if text[i + 1] == 'n' then '\n' else text[i + 1]] + UnquoteFrom(text, i + 2).0
  {
  }

  /** The position after the first quote, or the end. */
  function AfterQuote(text: string, i: nat): (j: nat)
    requires i <= |text|
    ensures i <= j <= |text|
    decreases |text| - i
  {
    if i == |text| then i else if text[i] == '\"' then i + 1 else AfterQuote(text, i + 1)
  }

  function Unquote(text: string): (string, nat) {
    UnquoteFrom(text, AfterQuote(text, 0))
  }

  lemma Prepend(name: string, c: char, rest: string)
    ensures name + ([c] + rest) == (name + [c]) + rest
  {
  }

  method ReadQuoted(text: string) returns (name: string, pos: nat)
    ensures (name, pos) == Unquote(text)
  {
    pos := 0;
    while pos < |text| && text[pos] != '\"'
      invariant pos <= |text| && AfterQuote(text, pos) == AfterQuote(text, 0)
    {
      pos := pos + 1;
    }
    if pos == |text| { return "", pos; }
    pos := pos + 1;
    name, pos := ReadBody(text, pos);
  }

  method ReadBody(text: string, start: nat) returns (name: string, pos: nat)
    requires start <= |text|
    ensures (name, pos) == UnquoteFrom(text, start)
  {
    name, pos := "", start;
    ghost var (whole, end) := UnquoteFrom(text, start);
    while pos < |text| && text[pos] != '\"'
      invariant start <= pos <= |text|
      invariant whole == name + UnquoteFrom(text, pos).0 && end == UnquoteFrom(text, pos).1
    {
      if text[pos] == '\\' {
        pos := pos + 1;
        if pos < |text| {
          var c := if text[pos] == 'n' then '\n' else text[pos];
          pos := pos + 1;
          Prepend(name, c, UnquoteFrom(text, pos).0);
          name := name + [c];
        }
      } else {
        Prepend(name, text[pos], UnquoteFrom(text, pos + 1).0);
        name := name + [text[pos]];
        pos := pos + 1;
      }
    }
    assert name + "" == name;
    if pos < |text| { pos := pos + 1; }
  }

  /** Quoting adds one byte for each quote, backslash and newline, and no other. */
  lemma {:induction false} QuoteAdds(s: string)
    ensures |QuoteBody(s)| == |s| + multiset(s)['\"'] + multiset(s)['\\'] + multiset(s)['\n']
  {
    if s != "" {
      QuoteAdds(s[1..]);
      assert s == [s[0]] + s[1..];
    }
  }

  /** Reading a quoted name gives the name and stops right after the closing quote, for every name. */
  lemma {:induction false} UnquoteQuoted(pre: string, s: string, rest: string)
    ensures UnquoteFrom(pre + QuoteBody(s) + "\"" + rest, |pre|) == (s, |pre| + |QuoteBody(s)| + 1)
    decreases |s|
  {
    var t := pre + QuoteBody(s) + "\"" + rest;
    if s == [] {
      assert t[|pre|] == '\"';
    } else {
      var q, b := QuoteChar(s[0]), QuoteBody(s[1..]);
      assert t == (pre + q) + b + "\"" + rest by { assert pre + (q + b) == (pre + q) + b; }
      UnquoteQuoted(pre + q, s[1..], rest);
      assert t[|pre|] == q[0] && (|q| > 1 ==> t[|pre| + 1] == q[1]);
      assert [s[0]] + s[1..] == s;
    }
  }

  lemma {:induction false} AfterBlanks(pre: string, rest: string, i: nat)
    requires '\"' !in pre && i <= |pre|
    ensures AfterQuote(pre + ("\"" + rest), i) == |pre| + 1
    decreases |pre| - i
  {
    var t := pre + ("\"" + rest);
    if i < |pre| {
      assert t[i] == pre[i];
      AfterBlanks(pre, rest, i + 1);
    } else {
      assert t[i] == '\"';
    }
  }

  /** Quoting is invertible: a quoted name after quote-free text is read back whole. */
  lemma QuoteRoundTrip(pre: string, s: string, rest: string)
    requires '\"' !in pre
    ensures Unquote(pre + QuoteName(s) + rest) == (s, |pre + QuoteName(s)|)
  {
    var b := QuoteBody(s);
    assert pre + QuoteName(s) + rest == pre + ("\"" + (b + "\"" + rest)) == (pre + "\"") + b + "\"" + rest;
    AfterBlanks(pre, b + "\"" + rest, 0);
    UnquoteQuoted(pre + "\"", s, rest);
  }
}
