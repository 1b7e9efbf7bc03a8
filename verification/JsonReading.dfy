/**
 How the escaper and the two lookups act on texts in general: how much escaping adds, where the lenient reader agrees
 with section 7 of RFC 8259, what a lookup returns in any text, and braces counted by number.
 */
module JsonReading {
  import opened JsonEscape
  import opened JsonFields
  import opened JsonObjects
  import opened TextSearch

  // ---- How much escaping adds

  /** How many bytes are added for a byte: one for those with a short escape, five for other control bytes. */
  function Added(c: char): nat {
    if c in "\"\\\n\r\t" then 1 else if c as int < 0x20 then 5 else 0
  }

  function AddedAll(s: string): nat {
    if s == "" then 0 else Added(s[0]) + AddedAll(s[1..])
  }

  /** Escaping adds to a text just what its quotes, backslashes and control bytes need, and no capital letter. */
  lemma {:induction false} EscapeAdds(s: string)
    ensures |EscapeBody(s)| == |s| + AddedAll(s)
    ensures forall c :: c in EscapeBody(s) && 'A' <= c <= 'Z' ==> c in s
  {
    if s != "" {
      EscapeAdds(s[1..]);
      assert |EscapeChar(s[0])| == 1 + Added(s[0]);
      forall c | c in EscapeChar(s[0]) && 'A' <= c <= 'Z' ensures c == s[0] { CapitalsStay(s[0], c); }
    }
  }

  lemma CapitalsStay(a: char, c: char)
    requires c in EscapeChar(a) && 'A' <= c <= 'Z'
    ensures c == a
  {
  }

  predicate Unescaped(c: char) {
    c != '\"' && c != '\\' && c as int >= 0x20
  }

  /** A text is its own escaped form exactly when it has no quote, backslash or control byte. */
  lemma {:induction false} EscapeUnchangedIff(s: string)
    ensures EscapeBody(s) == s <==> forall c :: c in s ==> Unescaped(c)
  {
    EscapeAdds(s);
    AddedNothing(s);
    if AddedAll(s) == 0 { UnescapedStays(s); }
  }

  lemma {:induction false} AddedNothing(s: string)
    ensures AddedAll(s) == 0 <==> forall c :: c in s ==> Unescaped(c)
  {
    if s != "" {
      var c, r := s[0], s[1..];
      AddedNothing(r);
      assert Added(c) == 0 <==> Unescaped(c);
      assert s == [c] + r && forall d :: d in s <==> d == c || d in r;
    }
  }

  lemma {:induction false} UnescapedStays(s: string)
    requires AddedAll(s) == 0
    ensures EscapeBody(s) == s
  {
    if s != "" {
      UnescapedStays(s[1..]);
      assert s == [s[0]] + s[1..];
    }
  }

  /** The batch report's escaper adds one byte for each quote, backslash and newline, and no other. */
  lemma {:induction false} BatchAdds(s: string)
    ensures |BatchBody(s)| == |s| + multiset(s)['\"'] + multiset(s)['\\'] + multiset(s)['\n']
  {
    if s != "" {
      BatchAdds(s[1..]);
      assert s == [s[0]] + s[1..];
    }
  }

  // ---- The lenient reader and the standard

  /** The body has no escapes but of quote, backslash, slash, newline, return and tab. */
  predicate Simple(b: string) {
    b == "" ||
    if b[0] != '\\' then Simple(b[1..])
    else |b| > 1 && b[1] in "\"\\/nrt" && Simple(b[2..])
  }

  /** What the lenient reader makes of a body, up to its closing quote. */
  function Lenient(b: string): string {
    Unescape(b + "\"", 0)
  }

  lemma LenientPlain(b: string)
    requires b != "" && b[0] != '\\' && b[0] != '\"'
    ensures Lenient(b) == [b[0]] + Lenient(b[1..])
  {
    assert b + "\"" == [b[0]] + (b[1..] + "\"");
    UnescapeInRest([b[0]], b[1..] + "\"", 0);
  }

  lemma LenientEscape(b: string)
    requires |b| > 1 && b[0] == '\\'
    ensures Lenient(b) == [UnescapeChar(b[1])] + Lenient(b[2..])
  {
    assert b + "\"" == b[..2] + (b[2..] + "\"");
    UnescapeInRest(b[..2], b[2..] + "\"", 0);
  }

  /** Any character that the escape is not for a newline, return or tab stands for itself. */
  lemma OtherEscapes(b: string)
    requires |b| > 1 && b[0] == '\\' && b[1] !in "nrt"
    ensures Lenient(b) == [b[1]] + Lenient(b[2..])
  {
    LenientEscape(b);
  }

  lemma LenientHex(b: string)
    requires |b| >= 6 && b[0] == '\\' && b[1] == 'u' && HexChar(b[2..6]).Some?
    ensures Lenient(b) == b[1..6] + Lenient(b[6..])
  {
    LenientEscape(b);
    var h := b[2..6];
    assert h[0] == b[2] && h[1] == b[3] && h[2] == b[4] && h[3] == b[5];
    LenientPlain(b[2..]);
    LenientPlain(b[3..]);
    LenientPlain(b[4..]);
    LenientPlain(b[5..]);
    assert b[2..][1..] == b[3..] && b[3..][1..] == b[4..] && b[4..][1..] == b[5..] && b[5..][1..] == b[6..];
    assert b[1..6] == [b[1]] + ([b[2]] + ([b[3]] + ([b[4]] + [b[5]])));
  }

  lemma DecodedFirst(b: string)
    requires b != "" && Decode(b).Some?
    ensures DecodeOne(b).Some? && Decode(DecodeOne(b).value.1).Some? && |DecodeOne(b).value.1| < |b|
    ensures Decode(b).value == [DecodeOne(b).value.0] + Decode(DecodeOne(b).value.1).value
  {
  }

  /** The escapes of the standard. */
  lemma StandardEscapes(b: string)
    requires b != "" && DecodeOne(b).Some? && b[0] == '\\'
    ensures |b| > 1 && b[1] in "\"\\/nrtbfu"
    ensures b[1] == 'u' ==> |b| >= 6 && HexChar(b[2..6]).Some? && DecodeOne(b).value.1 == b[6..]
    ensures b[1] in "bf" ==> DecodeOne(b).value.1 == b[2..] && DecodeOne(b).value.0 != b[1]
    ensures b[1] in "\"\\/nrt" ==> DecodeOne(b).value == (UnescapeChar(b[1]), b[2..])
  {
  }

  /** What both readers make of the first character of a body. */
  lemma FirstRead(b: string)
    requires b != "" && DecodeOne(b).Some? && (b[0] != '\\' || b[1] in "\"\\/nrt")
    ensures var (c, rest) := DecodeOne(b).value;
            Lenient(b) == [c] + Lenient(rest) && (Simple(b) <==> Simple(rest))
  {
    if b[0] != '\\' {
      LenientPlain(b);
    } else {
      StandardEscapes(b);
      LenientEscape(b);
    }
  }

  lemma {:induction false} LenientIsLonger(b: string)
    requires Decode(b).Some?
    ensures |Lenient(b)| >= |Decode(b).value|
    decreases |b|
  {
    if b == "" {
      assert Lenient(b) == "";
    } else {
      DecodedFirst(b);
      LenientIsLonger(DecodeOne(b).value.1);
      if b[0] != '\\' || b[1] in "\"\\/nrt" {
        FirstRead(b);
      } else {
        StandardEscapes(b);
        if b[1] == 'u' { LenientHex(b); } else { LenientEscape(b); }
      }
    }
  }

  /** An escape that the reader does not know makes the result differ. */
  lemma UnknownEscapeDiffers(b: string)
    requires b != "" && Decode(b).Some? && b[0] == '\\' && b[1] in "bfu"
    ensures Lenient(b) != Decode(b).value && !Simple(b)
  {
    DecodedFirst(b);
    StandardEscapes(b);
    if b[1] == 'u' {
      LenientHex(b);
      LenientIsLonger(b[6..]);
    } else {
      LenientEscape(b);
      assert Lenient(b)[0] != Decode(b).value[0];
    }
  }

  /**
   On any well-formed body the lenient reader gives what the standard prescribes exactly when the body uses no escape
   but those of quote, backslash, slash, newline, return and tab.
   */
  lemma {:induction false} LenientIsStandardIff(b: string)
    requires Decode(b).Some?
    ensures Lenient(b) == Decode(b).value <==> Simple(b)
    decreases |b|
  {
    if b == "" {
      assert Lenient(b) == "";
    } else {
      DecodedFirst(b);
      if b[0] != '\\' || b[1] in "\"\\/nrt" {
        FirstRead(b);
        var (c, rest) := DecodeOne(b).value;
        LenientIsStandardIff(rest);
        assert ([c] + Lenient(rest))[1..] == Lenient(rest) && ([c] + Decode(rest).value)[1..] == Decode(rest).value;
      } else {
        StandardEscapes(b);
        UnknownEscapeDiffers(b);
      }
    }
  }

  // ---- A string lookup in any text

  /** The pattern is at the position, from the given one on, and nowhere between. */
  predicate FirstAt(json: string, pat: string, from: nat, p: nat) {
    from <= p && MatchAt(json, pat, p) && forall q :: from <= q < p ==> !MatchAt(json, pat, q)
  }

  ghost predicate Nowhere(json: string, pat: string, from: nat) {
    forall q :: from <= q ==> !MatchAt(json, pat, q)
  }

  lemma FindIsFirstAt(json: string, pat: string, from: nat, p: nat)
    ensures FirstAt(json, pat, from, p) <==> Find(json, pat, from) == Some(p)
    ensures Nowhere(json, pat, from) <==> Find(json, pat, from) == None
  {
    FindIsFirst(json, pat, from);
  }

  /**
   In any text, blanks or not: what is read is what follows the first quote after the first colon after the first
   quoted key.
   */
  lemma StringFieldIs(json: string, k: string, p: nat, c: nat, q: nat)
    requires FirstAt(json, Quoted(k), 0, p) && FirstAt(json, ":", p + |k| + 2, c) && FirstAt(json, "\"", c + 1, q)
    ensures q < |json| && StringField(json, k) == Unescape(json, q + 1)
  {
    FindIsFirstAt(json, Quoted(k), 0, p);
    FindIsFirstAt(json, ":", p + |k| + 2, c);
    assert FindNext(json, ":", Some(p), |Quoted(k)|) == Some(c);
    FindIsFirstAt(json, "\"", c + 1, q);
    assert FindNext(json, "\"", Some(c), 1) == Some(q);
  }

  /** If one of the three is missing nothing is returned. */
  lemma StringFieldMissing(json: string, k: string, p: nat, c: nat)
    requires || Nowhere(json, Quoted(k), 0)
             || (FirstAt(json, Quoted(k), 0, p) && Nowhere(json, ":", p + |k| + 2))
             || (FirstAt(json, Quoted(k), 0, p) && FirstAt(json, ":", p + |k| + 2, c) && Nowhere(json, "\"", c + 1))
    ensures StringField(json, k) == ""
  {
    FindIsFirstAt(json, Quoted(k), 0, p);
    if FirstAt(json, Quoted(k), 0, p) {
      FindIsFirstAt(json, ":", p + |k| + 2, c);
      if FirstAt(json, ":", p + |k| + 2, c) {
        FindIsFirstAt(json, "\"", c + 1, c);
        assert FindNext(json, ":", Some(p), |Quoted(k)|) == Some(c);
      } else {
        assert FindNext(json, ":", Some(p), |Quoted(k)|) == None;
      }
    }
  }

  /** An object is looked for at the first brace after the first quoted key, in any text. */
  lemma ObjectStartIs(json: string, k: string, p: nat, b: nat)
    ensures Nowhere(json, Quoted(k), 0) ==> ObjectStart(json, k) == None
    ensures FirstAt(json, Quoted(k), 0, p) && Nowhere(json, "{", p + |k| + 2) ==> ObjectStart(json, k) == None
    ensures FirstAt(json, Quoted(k), 0, p) && FirstAt(json, "{", p + |k| + 2, b) ==> ObjectStart(json, k) == Some(b)
  {
    FindIsFirstAt(json, Quoted(k), 0, p);
    FindIsFirstAt(json, "{", p + |k| + 2, b);
  }

  // ---- Braces by number

  lemma {:induction false} BalanceCounts(s: string)
    ensures Balance(s) + multiset(s)['}'] == multiset(s)['{']
  {
    if s != "" {
      BalanceCounts(s[..|s| - 1]);
      assert s == s[..|s| - 1] + [s[|s| - 1]];
    }
  }

  /** A piece is closed exactly when it starts with a brace, opens as many as it closes, and more in every beginning. */
  lemma ClosedIff(s: string)
    ensures Closed(s) <==>
            && s != "" && s[0] == '{' && multiset(s)['{'] == multiset(s)['}']
            && forall n :: 0 < n < |s| ==> multiset(s[..n])['{'] > multiset(s[..n])['}']
  {
    BalanceCounts(s);
    forall n | 0 < n < |s| ensures Balance(s[..n]) + multiset(s[..n])['}'] == multiset(s[..n])['{'] {
      BalanceCounts(s[..n]);
    }
  }

  /** Braces nest exactly when as many are opened as closed, and no beginning closes more than it opens. */
  lemma NestedIff(s: string)
    ensures Nested(s) <==>
            && multiset(s)['{'] == multiset(s)['}']
            && forall n :: 0 <= n <= |s| ==> multiset(s[..n])['{'] >= multiset(s[..n])['}']
  {
    WalkIs(s, 1);
    BalanceCounts(s);
    forall n | 0 <= n <= |s| ensures Balance(s[..n]) + multiset(s[..n])['}'] == multiset(s[..n])['{'] {
      BalanceCounts(s[..n]);
    }
  }
}
