/**
 The string escapers, and what a reader makes of their output: the reader that RFC 8259, section 7 prescribes, and
 the lenient one of the agent service. A byte is a char.
 */
module JsonEscape {
  import opened TextSearch

  // ---- Escaping

  function HexDigit(n: nat): char
    requires n < 16
  {
    "0123456789abcdef"[n]
  }

  /** The output for one byte. */
  function EscapeChar(c: char): (e: string)
    ensures e != []
  {
    if c == '\"' then "\\\""
    else if c == '\\' then "\\\\"
    else if c == '\n' then "\\n"
    else if c == '\r' then "\\r"
    else if c == '\t' then "\\t"
    else if c as int < 0x20 then "\\u00" + [HexDigit(c as int / 16), HexDigit(c as int % 16)]
    else [c]
  }

  function EscapeBody(s: string): string {
    if s == [] then [] else EscapeChar(s[0]) + EscapeBody(s[1..])
  }

  function Quoted(body: string): string {
    "\"" + body + "\""
  }

  lemma {:induction false} EscapeBodyConcat(s: string, t: string)
    ensures EscapeBody(s + t) == EscapeBody(s) + EscapeBody(t)
  {
    if s == [] {
      assert s + t == t;
    } else {
      assert (s + t)[0] == s[0] && (s + t)[1..] == s[1..] + t;
      assert EscapeBody(s + t) == EscapeChar(s[0]) + EscapeBody(s[1..] + t);
      EscapeBodyConcat(s[1..], t);
      Assoc(EscapeChar(s[0]), EscapeBody(s[1..]), EscapeBody(t));
    }
  }

  lemma EscapeBodyMore(s: string, i: nat)
    requires i < |s|
    ensures EscapeBody(s[..i + 1]) == EscapeBody(s[..i]) + EscapeChar(s[i])
  {
    assert s[..i + 1] == s[..i] + [s[i]];
    EscapeBodyConcat(s[..i], [s[i]]);
    assert [s[i]][1..] == [];
  }

  /** The agent service's escaper. */
  method Escape(s: string) returns (out: string)
    ensures out == Quoted(EscapeBody(s))
  {
    out := "\"";
    var i := 0;
    while i < |s|
      invariant i <= |s| && out == "\"" + EscapeBody(s[..i])
    {
      var c := s[i];
      EscapeBodyMore(s, i);
      ghost var before := out;
      match c {
        case '\"' => out := out + "\\\"";
        case '\\' => out := out + "\\\\";
        case '\n' => out := out + "\\n";
        case '\r' => out := out + "\\r";
        case '\t' => out := out + "\\t";
        case _ =>
          if c as int < 0x20 {
            out := out + ("\\u00" + [HexDigit(c as int / 16), HexDigit(c as int % 16)]);
          } else {
            out := out + [c];
          }
      }
      assert out == before + EscapeChar(c);
      Assoc("\"", EscapeBody(s[..i]), EscapeChar(c));
      i := i + 1;
    }
    assert s[..i] == s;
    out := out + "\"";
  }

  /** The escaper of the batch report: three escapes, no quotes around, everything else as it is. */
  function BatchChar(c: char): string {
    if c == '\"' then "\\\"" else if c == '\\' then "\\\\" else if c == '\n' then "\\n" else [c]
  }

  function BatchBody(s: string): string {
    if s == [] then [] else BatchChar(s[0]) + BatchBody(s[1..])
  }

  lemma {:induction false} BatchBodyConcat(s: string, t: string)
    ensures BatchBody(s + t) == BatchBody(s) + BatchBody(t)
  {
    if s == [] {
      assert s + t == t;
    } else {
      assert (s + t)[0] == s[0] && (s + t)[1..] == s[1..] + t;
      BatchBodyConcat(s[1..], t);
      Assoc(BatchChar(s[0]), BatchBody(s[1..]), BatchBody(t));
    }
  }

  method BatchEscape(s: string) returns (r: string)
    ensures r == BatchBody(s)
  {
    r := "";
    var i := 0;
    while i < |s|
      invariant i <= |s| && r == BatchBody(s[..i])
    {
      var c := s[i];
      assert s[..i + 1] == s[..i] + [c] && [c][1..] == [];
      BatchBodyConcat(s[..i], [c]);
      if c == '\"' { r := r + "\\\""; }
      else if c == '\\' { r := r + "\\\\"; }
      else if c == '\n' { r := r + "\\n"; }
      else { r := r + [c]; }
      i := i + 1;
    }
    assert s[..i] == s;
  }

  // ---- Reading back by the standard

  function HexValue(c: char): Option<nat> {
    if '0' <= c <= '9' then Some(c as int - '0' as int)
    else if 'a' <= c <= 'f' then Some(c as int - 'a' as int + 10)
    else if 'A' <= c <= 'F' then Some(c as int - 'A' as int + 10)
    else None
  }

  /** Four hex digits below the surrogates, as one character. */
  function HexChar(h: string): Option<char>
    requires |h| == 4
  {
    match (HexValue(h[0]), HexValue(h[1]), HexValue(h[2]), HexValue(h[3]))
    case (Some(a), Some(b), Some(c), Some(d)) =>
      var v := ((a * 16 + b) * 16 + c) * 16 + d;
      if v < 0xD800 then Some(v as char) else None
    case _ => None
  }

  /** One character of a string body and what is left, by the standard; None when the body is not well-formed. */
  function DecodeOne(b: string): Option<(char, string)>
    requires b != []
  {
    if b[0] == '\"' || b[0] as int < 0x20 then None
    else if b[0] != '\\' then Some((b[0], b[1..]))
    else if |b| == 1 then None
    else match b[1]
         case '\"' => Some(('\"', b[2..]))
         case '\\' => Some(('\\', b[2..]))
         case '/' => Some(('/', b[2..]))
         case 'b' => Some((8 as char, b[2..]))
         case 'f' => Some((12 as char, b[2..]))
         case 'n' => Some(('\n', b[2..]))
         case 'r' => Some(('\r', b[2..]))
         case 't' => Some(('\t', b[2..]))
         case 'u' =>
           if |b| < 6 then None
           else (match HexChar(b[2..6])
                 case Some(c) => Some((c, b[6..]))
                 case None => None)
         case _ => None
  }

  /** The text that the body between two quotes stands for. */
  function Decode(b: string): Option<string>
    decreases |b|
  {
    if b == [] then Some([])
    else match DecodeOne(b)
         case None => None
         case Some((c, rest)) =>
           assert |rest| < |b| by { assert DecodeOne(b).Some?; }
           match Decode(rest)
           case None => None
           case Some(text) => Some([c] + text)
  }

  lemma DecodeEscaped(c: char, rest: string)
    ensures DecodeOne(EscapeChar(c) + rest) == Some((c, rest))
  {
    var e := EscapeChar(c);
    var b := e + rest;
    assert b[|e|..] == rest;
    if c as int < 0x20 && c != '\n' && c != '\r' && c != '\t' {
      assert b[2..6] == ['0', '0', HexDigit(c as int / 16), HexDigit(c as int % 16)];
    }
  }

  /** Escaping is invertible on every input: the standard reader gives back the original. */
  lemma {:induction false} EscapeInvertible(s: string)
    ensures Decode(EscapeBody(s)) == Some(s)
  {
    if s != [] {
      DecodeEscaped(s[0], EscapeBody(s[1..]));
      EscapeInvertible(s[1..]);
      assert [s[0]] + s[1..] == s;
    }
  }

  /** So no two texts have the same escaped form. */
  lemma EscapeInjective(s: string, t: string)
    requires EscapeBody(s) == EscapeBody(t)
    ensures s == t
  {
    EscapeInvertible(s);
    EscapeInvertible(t);
  }

  predicate Control(c: char) {
    c as int < 0x20
  }

  /** The escaped body holds no control byte. */
  lemma {:induction false} EscapedHasNoControl(s: string)
    ensures forall c :: c in EscapeBody(s) ==> !Control(c)
  {
    if s != [] {
      EscapedHasNoControl(s[1..]);
      forall c | c in EscapeChar(s[0]) ensures !Control(c) {}
    }
  }

  /** The batch escaper is right exactly on texts whose only control bytes are newlines. */
  lemma {:induction false} BatchInvertibleIff(s: string)
    ensures Decode(BatchBody(s)) == Some(s) <==> (forall c :: c in s && Control(c) ==> c == '\n')
    ensures Decode(BatchBody(s)) == Some(s) || Decode(BatchBody(s)) == None
  {
    if s != [] {
      var c, rest := s[0], BatchBody(s[1..]);
      BatchInvertibleIff(s[1..]);
      assert s == [c] + s[1..];
      if Control(c) && c != '\n' {
        assert DecodeOne(BatchBody(s)) == None;
      } else {
        assert BatchChar(c) == EscapeChar(c);
        DecodeEscaped(c, rest);
      }
    }
  }

  // ---- Reading back with the agent service's own reader

  /** What the lenient reader makes of the character after a backslash. */
  function UnescapeChar(n: char): char {
    match n
    case 'n' => '\n'
    case 'r' => '\r'
    case 't' => '\t'
    case _ => n
  }

  /** The reader's loop from position i: up to the first quote that no backslash precedes, or the end. */
  function Unescape(json: string, i: nat): string
    requires i <= |json|
    decreases |json| - i
  {
    if i == |json| then []
    else if json[i] == '\\' && i + 1 < |json| then [UnescapeChar(json[i + 1])] + Unescape(json, i + 2)
    else if json[i] == '\"' then []
    else [json[i]] + Unescape(json, i + 1)
  }

  method ReadString(json: string, start: nat) returns (out: string)
    requires start <= |json|
    ensures out == Unescape(json, start)
  {
    var i := start;
    out := "";
    while i < |json|
      invariant start <= i <= |json|
      invariant out + Unescape(json, i) == Unescape(json, start)
    {
      var c := json[i];
      if c == '\\' && i + 1 < |json| {
        Assoc(out, [UnescapeChar(json[i + 1])], Unescape(json, i + 2));
        out := out + [UnescapeChar(json[i + 1])];
        i := i + 2;
      } else if c == '\"' {
        break;
      } else {
        Assoc(out, [c], Unescape(json, i + 1));
        out := out + [c];
        i := i + 1;
      }
    }
  }

  /** The control bytes that the reader knows. */
  predicate Readable(c: char) {
    Control(c) ==> c == '\n' || c == '\r' || c == '\t'
  }

  /** What the reader makes of one escaped byte: the byte, or the five characters after the backslash. */
  function ReadChar(c: char): string {
    if Readable(c) then [c] else EscapeChar(c)[1..]
  }

  function ReadBody(s: string): string {
    if s == [] then [] else ReadChar(s[0]) + ReadBody(s[1..])
  }

  /** The escaped byte stands in the text at n, and something follows it. */
  predicate EscapedAt(t: string, n: nat, c: char) {
    n + |EscapeChar(c)| < |t| && forall k :: 0 <= k < |EscapeChar(c)| ==> t[n + k] == EscapeChar(c)[k]
  }

  lemma ShortEscape(c: char, e: string)
    requires e == EscapeChar(c) && |e| <= 2
    ensures |e| == 1 ==> e[0] != '\\' && e[0] != '\"' && ReadChar(c) == [e[0]]
    ensures |e| == 2 ==> e[0] == '\\' && ReadChar(c) == [UnescapeChar(e[1])]
  {
  }

  lemma UnescapeShort(t: string, n: nat, c: char)
    requires EscapedAt(t, n, c) && |EscapeChar(c)| <= 2
    ensures Unescape(t, n) == ReadChar(c) + Unescape(t, n + |EscapeChar(c)|)
  {
    var e := EscapeChar(c);
    ShortEscape(c, e);
    assert t[n + 0] == e[0];
    if |e| == 2 {
      assert t[n + 1] == e[1];
      assert Unescape(t, n) == [UnescapeChar(e[1])] + Unescape(t, n + 2);
    } else {
      assert Unescape(t, n) == [e[0]] + Unescape(t, n + 1);
    }
  }

  /** The four digits after the letter of a long escape, read one by one. */
  lemma UnescapeDigits(t: string, n: nat, a: char, b: char)
    requires n + 4 < |t| && t[n] == '0' == t[n + 1] && t[n + 2] == a && t[n + 3] == b
    requires a != '\\' && a != '\"' && b != '\\' && b != '\"'
    ensures Unescape(t, n) == ['0', '0', a, b] + Unescape(t, n + 4)
  {
    var u := Unescape(t, n + 4);
    assert Unescape(t, n + 3) == [b] + u;
    assert Unescape(t, n + 2) == [a] + ([b] + u);
    assert Unescape(t, n + 1) == ['0'] + ([a] + ([b] + u));
    assert Unescape(t, n) == ['0'] + (['0'] + ([a] + ([b] + u)));
  }

  lemma LongEscape(c: char, e: string)
    requires e == EscapeChar(c) && |e| == 6
    ensures e[0] == '\\' && e[1] == 'u' && e[2] == '0' && e[3] == '0'
    ensures e[4] != '\\' && e[4] != '\"' && e[5] != '\\' && e[5] != '\"'
    ensures ReadChar(c) == ['u'] + ['0', '0', e[4], e[5]]
  {
    assert !Readable(c);
    assert e[1..] == ['u', '0', '0', e[4], e[5]];
  }

  lemma UnescapeLong(t: string, n: nat, c: char)
    requires EscapedAt(t, n, c) && |EscapeChar(c)| == 6
    ensures Unescape(t, n) == ReadChar(c) + Unescape(t, n + 6)
  {
    var e := EscapeChar(c);
    LongEscape(c, e);
    assert t[n + 0] == e[0] && t[n + 1] == e[1] && t[n + 2] == e[2] && t[n + 3] == e[3];
    assert t[n + 4] == e[4] && t[n + 5] == e[5];
    UnescapeDigits(t, n + 2, e[4], e[5]);
    assert Unescape(t, n) == ['u'] + Unescape(t, n + 2);
    Assoc(['u'], ['0', '0', e[4], e[5]], Unescape(t, n + 6));
  }

  lemma UnescapeOne(pre: string, c: char, rest: string)
    requires rest != []
    ensures Unescape(pre + EscapeChar(c) + rest, |pre|)
         == ReadChar(c) + Unescape(pre + EscapeChar(c) + rest, |pre| + |EscapeChar(c)|)
  {
    var t := pre + EscapeChar(c) + rest;
    assert EscapedAt(t, |pre|, c);
    if |EscapeChar(c)| <= 2 { UnescapeShort(t, |pre|, c); } else { UnescapeLong(t, |pre|, c); }
  }

  lemma ReadEnd(pre: string, rest: string)
    ensures Unescape(pre + "" + "\"" + rest, |pre|) == ""
  {
    assert (pre + "" + "\"" + rest)[|pre|] == '\"';
  }

  lemma ReadNext(pre: string, c: char, b: string, rest: string, read: string)
    requires Unescape((pre + EscapeChar(c)) + b + "\"" + rest, |pre + EscapeChar(c)|) == read
    ensures Unescape(pre + (EscapeChar(c) + b) + "\"" + rest, |pre|) == ReadChar(c) + read
  {
    Regroup(pre, EscapeChar(c), b, "\"", rest);
    UnescapeOne(pre, c, b + "\"" + rest);
  }

  /** Reading from the opening quote of an escaped text gives what the reader makes of each byte. */
  lemma {:induction false} ReadEscaped(pre: string, s: string, rest: string)
    ensures Unescape(pre + EscapeBody(s) + "\"" + rest, |pre|) == ReadBody(s)
    decreases |s|
  {
    if s == [] {
      ReadEnd(pre, rest);
    } else {
      ReadEscaped(pre + EscapeChar(s[0]), s[1..], rest);
      ReadNext(pre, s[0], EscapeBody(s[1..]), rest, ReadBody(s[1..]));
    }
  }

  lemma Regroup(pre: string, e: string, b: string, q: string, rest: string)
    ensures pre + (e + b) + q + rest == pre + e + (b + q + rest) == (pre + e) + b + q + rest
  {
    Assoc(pre, e, b);
    Assoc((pre + e) + b, q, rest);
    Assoc(pre + e, b, q + rest);
    Assoc(b, q, rest);
  }

  lemma {:induction false} ReadBodyLength(s: string)
    ensures |ReadBody(s)| >= |s|
    ensures |ReadBody(s)| == |s| <==> forall c :: c in s ==> Readable(c)
  {
    if s != [] {
      ReadBodyLength(s[1..]);
      assert s == [s[0]] + s[1..];
      assert |ReadChar(s[0])| == if Readable(s[0]) then 1 else 5;
    }
  }

  /** The reader returns the original exactly when its only control bytes are newline, return and tab. */
  lemma {:induction false} ReadBodyIff(s: string)
    ensures ReadBody(s) == s <==> forall c :: c in s ==> Readable(c)
  {
    ReadBodyLength(s);
    if s != [] && forall c :: c in s ==> Readable(c) {
      assert forall c :: c in s[1..] ==> c in s;
      ReadBodyIff(s[1..]);
      assert s == [s[0]] + s[1..];
    }
  }
}
