/** The sentences that the bridge reads, what each comes back as, and what more rounds do to it. */
module BridgeSentences {
  import opened TextSearch
  import opened BridgeText

  predicate Absent(text: string, phrase: string) {
    !Contains(ToLower(text), phrase)
  }

  /** The phrase is in the middle, and nowhere before. */
  predicate Splits(s: string, phrase: string, o: string) {
    Find(ToLower(s + phrase + o), phrase, 0) == Some(|s|)
  }

  /** Without its article, the text has no quote and is split by the phrase into the two parts. */
  predicate Reads(text: string, s: string, phrase: string, o: string) {
    StripArt(text) == s + phrase + o && QuoteFree(text) && Splits(s, phrase, o)
  }

  predicate NoInheritance(text: string) {
    Absent(text, " is a ") && Absent(text, " is an ")
  }

  /** None of the phrases that decide before possession and membership do. */
  predicate NoLikeness(text: string) {
    NoInheritance(text) && Absent(text, " is like ") && Absent(text, " resembles ")
  }

  predicate NoPossession(text: string) {
    NoLikeness(text) && Absent(text, " has ") && Absent(text, " have ")
  }

  /** What a sentence comes back as. */
  function Round(text: string): string {
    AtomeseToNl(NlToAtomese(text))
  }

  // ---- "X is a Y", "X is an Y"

  lemma ParseInheritance(text: string, s: string, o: string)
    requires Reads(text, s, " is a ", o)
    ensures Parse(text) == Inherit(s, StripArt(o))
  {
    var t := StripArt(text);
    assert t[..|s|] == s && t[|s| + 6..] == o;
    FindIsFirst(ToLower(t), " is a ", 0);
  }

  /** "X is a Y" comes back as "X is a Y", without Y's article. */
  lemma InheritanceRoundTrip(text: string, s: string, o: string)
    requires Reads(text, s, " is a ", o)
    ensures Round(text) == s + " is a " + StripArt(o) + "."
  {
    ParseInheritance(text, s, o);
    RoundTrip(text);
  }

  lemma ParseInheritanceAn(text: string, s: string, o: string)
    requires Reads(text, s, " is an ", o) && Absent(StripArt(text), " is a ")
    ensures Parse(text) == Inherit(s, StripArt(o))
  {
    var t := StripArt(text);
    assert t[..|s|] == s && t[|s| + 7..] == o;
    ContainsIs(ToLower(t), " is a ");
    assert !MatchAt(ToLower(t), " is a ", |s|);
    FindIsFirst(ToLower(t), " is an ", 0);
  }

  /** "X is an Y" comes back as "X is a Y". */
  lemma InheritanceAnRoundTrip(text: string, s: string, o: string)
    requires Reads(text, s, " is an ", o) && Absent(StripArt(text), " is a ")
    ensures Round(text) == s + " is a " + StripArt(o) + "."
  {
    ParseInheritanceAn(text, s, o);
    RoundTrip(text);
  }

  // ---- "X is like Y", "X resembles Y"

  lemma ParseLikeness(text: string, s: string, o: string)
    requires Reads(text, s, " is like ", o) && NoInheritance(StripArt(text))
    ensures Parse(text) == Similar(s, StripArt(o))
  {
    var t := StripArt(text);
    assert t[..|s|] == s && t[|s| + 9..] == o;
  }

  /** "X is like Y" comes back as a similarity exactly when no name has the word that is looked for first. */
  lemma LikenessRoundTripIff(text: string, s: string, o: string)
    requires Reads(text, s, " is like ", o) && NoInheritance(StripArt(text))
    ensures Round(text) == s + " is similar to " + StripArt(o) + "."
       <==> !Contains(s, "InheritanceLink") && !Contains(StripArt(o), "InheritanceLink")
  {
    ParseLikeness(text, s, o);
    ParsedIsPlain(text);
    SimilarityComesBackIff(s, StripArt(o));
  }

  lemma ParseResemblance(text: string, s: string, o: string)
    requires Reads(text, s, " resembles ", o)
    requires NoInheritance(StripArt(text)) && Absent(StripArt(text), " is like ")
    ensures Parse(text) == Similar(s, StripArt(o))
  {
    var t := StripArt(text);
    assert t[..|s|] == s && t[|s| + 11..] == o;
  }

  lemma ResemblanceRoundTripIff(text: string, s: string, o: string)
    requires Reads(text, s, " resembles ", o)
    requires NoInheritance(StripArt(text)) && Absent(StripArt(text), " is like ")
    ensures Round(text) == s + " is similar to " + StripArt(o) + "."
       <==> !Contains(s, "InheritanceLink") && !Contains(StripArt(o), "InheritanceLink")
  {
    ParseResemblance(text, s, o);
    ParsedIsPlain(text);
    SimilarityComesBackIff(s, StripArt(o));
  }

  // ---- "X has Y", "X have Y"

  lemma ParsePossession(text: string, s: string, o: string)
    requires Reads(text, s, " has ", o) && NoLikeness(StripArt(text))
    ensures Parse(text) == Evaluate("has", s, StripArt(o))
  {
    var t := StripArt(text);
    assert t[..|s|] == s && t[|s| + 5..] == o;
    FindIsFirst(ToLower(t), " has ", 0);
  }

  /** "X has Y" comes back exactly when no name has a word that is looked for before. */
  lemma PossessionRoundTripIff(text: string, s: string, o: string)
    requires Reads(text, s, " has ", o) && NoLikeness(StripArt(text))
    ensures Round(text) == s + " " + "has" + " " + StripArt(o) + "." <==> Unmistaken(Evaluate("has", s, StripArt(o)))
  {
    ParsePossession(text, s, o);
    ParsedIsPlain(text);
    PossessionComesBackIff(s, StripArt(o));
  }

  lemma ParsePossessionHave(text: string, s: string, o: string)
    requires Reads(text, s, " have ", o)
    requires NoLikeness(StripArt(text)) && Absent(StripArt(text), " has ")
    ensures Parse(text) == Evaluate("has", s, StripArt(o))
  {
    var t := StripArt(text);
    assert t[..|s|] == s && t[|s| + 6..] == o;
    ContainsIs(ToLower(t), " has ");
    assert !MatchAt(ToLower(t), " has ", |s|);
    FindIsFirst(ToLower(t), " have ", 0);
  }

  /** "X have Y" comes back as "X has Y". */
  lemma PossessionHaveRoundTripIff(text: string, s: string, o: string)
    requires Reads(text, s, " have ", o)
    requires NoLikeness(StripArt(text)) && Absent(StripArt(text), " has ")
    ensures Round(text) == s + " " + "has" + " " + StripArt(o) + "." <==> Unmistaken(Evaluate("has", s, StripArt(o)))
  {
    ParsePossessionHave(text, s, o);
    ParsedIsPlain(text);
    PossessionComesBackIff(s, StripArt(o));
  }

  // ---- "X belongs to Y"

  lemma ParseMembership(text: string, s: string, o: string)
    requires Reads(text, s, " belongs to ", o) && NoPossession(StripArt(text))
    ensures Parse(text) == Member(s, StripArt(o))
  {
    var t := StripArt(text);
    assert t[..|s|] == s && t[|s| + 12..] == o;
  }

  /** "X belongs to Y" comes back exactly when no name has a word that is looked for before. */
  lemma MembershipRoundTripIff(text: string, s: string, o: string)
    requires Reads(text, s, " belongs to ", o) && NoPossession(StripArt(text))
    ensures Round(text) == s + " belongs to " + StripArt(o) + "." <==> Unmistaken(Member(s, StripArt(o)))
  {
    ParseMembership(text, s, o);
    ParsedIsPlain(text);
    MembershipComesBackIff(s, StripArt(o));
  }

  // ---- "X verb Y"

  lemma ParseVerbPhrase(text: string, s: string, v: string, o: string)
    requires ' ' !in s && ' ' !in v && StripArt(text) == s + " " + v + " " + o && QuoteFree(text)
    requires NoPossession(StripArt(text)) && Absent(StripArt(text), " belongs to ")
    ensures Parse(text) == Evaluate(v, s, StripArt(o))
  {
    var t := StripArt(text);
    VerbRegroup(s, v, o);
    FirstBlank(t, s, v + (" " + o));
    NextBlank(t, s + " ", v, o);
    assert t[..|s|] == s && t[|s| + 1..|s| + 1 + |v|] == v && t[|s| + 2 + |v|..] == o;
  }

  /** "X verb Y" comes back exactly when no name has a word that is looked for before. */
  lemma VerbRoundTripIff(text: string, s: string, v: string, o: string)
    requires ' ' !in s && ' ' !in v && StripArt(text) == s + " " + v + " " + o && QuoteFree(text)
    requires NoPossession(StripArt(text)) && Absent(StripArt(text), " belongs to ")
    ensures Round(text) == s + " " + v + " " + StripArt(o) + "." <==> Unmistaken(Evaluate(v, s, StripArt(o)))
  {
    ParseVerbPhrase(text, s, v, o);
    ParsedIsPlain(text);
    VerbComesBackIff(v, s, StripArt(o));
  }

  // ---- Many rounds

  function Iterate(f: string -> string, text: string, n: nat): string
    decreases n
  {
    if n == 0 then text else Iterate(f, f(text), n - 1)
  }

  /** What a sentence has become after n rounds. */
  function Rounds(text: string, n: nat): string {
    Iterate(Round, text, n)
  }

  function Stops(n: nat): string {
    if n == 0 then "" else Stops(n - 1) + "."
  }

  /** A stop at the end makes no match of a phrase that does not end in one. */
  lemma MatchBeforeStop(text: string, phrase: string, p: nat)
    requires phrase != [] && phrase[|phrase| - 1] != '.'
    ensures MatchAt(text + ".", phrase, p) <==> MatchAt(text, phrase, p)
  {
    if MatchAt(text + ".", phrase, p) {
      assert (text + ".")[p + (|phrase| - 1)] == phrase[|phrase| - 1];
    }
  }

  lemma ContainsBeforeStop(text: string, phrase: string)
    requires phrase != [] && phrase[|phrase| - 1] != '.'
    ensures Contains(text + ".", phrase) <==> Contains(text, phrase)
  {
    ContainsIs(text, phrase);
    ContainsIs(text + ".", phrase);
    forall p: nat
      ensures MatchAt(text + ".", phrase, p) <==> MatchAt(text, phrase, p) { MatchBeforeStop(text, phrase, p); }
  }

  lemma AbsentBeforeStop(text: string, phrase: string)
    requires phrase != [] && phrase[|phrase| - 1] != '.'
    ensures Absent(text + ".", phrase) <==> Absent(text, phrase)
  {
    assert ToLower(text + ".") == ToLower(text) + ".";
    ContainsBeforeStop(ToLower(text), phrase);
  }

  lemma FirstMatch(t: string, phrase: string, p: nat)
    ensures Find(t, phrase, 0) == Some(p) <==>
            MatchAt(t, phrase, p) && forall q: nat :: q < p ==> !MatchAt(t, phrase, q)
  {
    FindIsFirst(t, phrase, 0);
  }

  lemma FindBeforeStop(t: string, phrase: string, p: nat)
    requires phrase != [] && phrase[|phrase| - 1] != '.' && Find(t, phrase, 0) == Some(p)
    ensures Find(t + ".", phrase, 0) == Some(p)
  {
    FirstMatch(t, phrase, p);
    FirstMatch(t + ".", phrase, p);
    forall q: nat ensures MatchAt(t + ".", phrase, q) <==> MatchAt(t, phrase, q) { MatchBeforeStop(t, phrase, q); }
  }

  lemma SplitsBeforeStop(s: string, phrase: string, o: string)
    requires phrase != [] && phrase[|phrase| - 1] != '.' && Splits(s, phrase, o)
    ensures Splits(s, phrase, o + ".")
  {
    var t := s + phrase + o;
    FindBeforeStop(ToLower(t), phrase, |s|);
    Assoc(s + phrase, o, ".");
    assert ToLower(t + ".") == ToLower(t) + ".";
  }

  /** No article leads the text, nor would one if a stop followed. */
  predicate Settled(t: string) {
    StripArt(t + ".") == t + "."
  }

  lemma SettledStays(t: string)
    requires Settled(t)
    ensures StripArt(t) == t && Settled(t + ".")
  {
    var lo, one, two := ToLower(t), ToLower(t + "."), ToLower((t + ".") + ".");
    assert one == lo + "." && two == one + ".";
    forall k | 0 <= k < |one| ensures two[..k] == one[..k] {}
    forall k | 0 <= k < |lo| ensures one[..k] == lo[..k] {}
    assert |one| <= 4 && |two| > 4 ==> two[3] == '.';
    assert |one| <= 3 && |two| > 3 ==> two[2] == '.';
    assert |one| <= 2 && |two| > 2 ==> two[1] == '.';
  }

  // ---- A stop for every round

  datatype Kind = IsA | Has | BelongsTo | Does(verb: string)

  function Phrase(k: Kind): string {
    match k
    case IsA => " is a "
    case Has => " has "
    case BelongsTo => " belongs to "
    case Does(v) => " " + v + " "
  }

  function Meaning(k: Kind, s: string, o: string): Statement {
    match k
    case IsA => Inherit(s, o)
    case Has => Evaluate("has", s, o)
    case BelongsTo => Member(s, o)
    case Does(v) => Evaluate(v, s, o)
  }

  /** The sentence is read as one of its kind, and its statement is said back as what it is. */
  predicate Stable(k: Kind, s: string, o: string) {
    var text := s + Phrase(k) + o;
    && Settled(text) && QuoteFree(text) && Settled(o)
    && match k
       case IsA => Splits(s, " is a ", o)
       case Has => Splits(s, " has ", o) && NoLikeness(text) && Unmistaken(Meaning(k, s, o))
       case BelongsTo => Splits(s, " belongs to ", o) && NoPossession(text) && Unmistaken(Meaning(k, s, o))
       case Does(v) =>
         && ' ' !in s && ' ' !in v && NoPossession(text) && Absent(text, " belongs to ")
         && Unmistaken(Meaning(k, s, o))
  }

  lemma HasParts(s: string)
    ensures s + " " + "has" + " " == s + " has "
  {
    Assoc(s, " ", "has");
    Assoc(s, " has", " ");
    assert " " + "has" == " has" && " has" + " " == " has ";
  }

  lemma StableHas(text: string, s: string, o: string)
    requires Stable(Has, s, o) && StripArt(text) == s + " has " + o && QuoteFree(text)
    ensures Round(text) == s + " has " + o + "."
  {
    SettledStays(o);
    PossessionRoundTripIff(text, s, o);
    HasParts(s);
  }

  lemma StableDoes(text: string, s: string, v: string, o: string)
    requires Stable(Does(v), s, o) && StripArt(text) == s + (" " + v + " ") + o && QuoteFree(text)
    ensures Round(text) == s + (" " + v + " ") + o + "."
  {
    SettledStays(o);
    Assoc(s, " " + v, " ");
    Assoc(s, " ", v);
    VerbRoundTripIff(text, s, v, o);
  }

  lemma StableOther(k: Kind, text: string, s: string, o: string)
    requires k.IsA? || k.BelongsTo?
    requires Stable(k, s, o) && StripArt(text) == s + Phrase(k) + o && QuoteFree(text)
    ensures Round(text) == s + Phrase(k) + o + "."
  {
    SettledStays(o);
    if k.IsA? { InheritanceRoundTrip(text, s, o); } else { MembershipRoundTripIff(text, s, o); }
  }

  /** A sentence of the kind, with or without an article before it, comes back with a stop. */
  lemma StableRound(k: Kind, text: string, s: string, o: string)
    requires Stable(k, s, o) && StripArt(text) == s + Phrase(k) + o && QuoteFree(text)
    ensures Round(text) == s + Phrase(k) + (o + ".")
  {
    Assoc(s + Phrase(k), o, ".");
    match k
    case Has => StableHas(text, s, o);
    case Does(v) => StableDoes(text, s, v, o);
    case _ => StableOther(k, text, s, o);
  }

  lemma NoPossessionBeforeStop(text: string)
    ensures NoLikeness(text) ==> NoLikeness(text + ".")
    ensures NoPossession(text) ==> NoPossession(text + ".")
  {
    AbsentBeforeStop(text, " is a ");
    AbsentBeforeStop(text, " is an ");
    AbsentBeforeStop(text, " is like ");
    AbsentBeforeStop(text, " resembles ");
    AbsentBeforeStop(text, " has ");
    AbsentBeforeStop(text, " have ");
  }

  lemma WordBeforeStop(k: Kind, s: string, o: string, w: string)
    requires w != [] && w[|w| - 1] != '.' && HasWord(Meaning(k, s, o + "."), w)
    ensures HasWord(Meaning(k, s, o), w)
  {
    var st, more := Meaning(k, s, o), Meaning(k, s, o + ".");
    var i :| 0 <= i < |Names(more)| && Contains(Names(more)[i], w);
    ContainsBeforeStop(o, w);
    assert Contains(Names(st)[i], w);
  }

  lemma UnmistakenBeforeStop(k: Kind, s: string, o: string)
    requires Unmistaken(Meaning(k, s, o))
    ensures Unmistaken(Meaning(k, s, o + "."))
  {
    if HasWord(Meaning(k, s, o + "."), "InheritanceLink") { WordBeforeStop(k, s, o, "InheritanceLink"); }
    if HasWord(Meaning(k, s, o + "."), "SimilarityLink") { WordBeforeStop(k, s, o, "SimilarityLink"); }
  }

  lemma StableBeforeStop(k: Kind, s: string, o: string)
    requires Stable(k, s, o)
    ensures Stable(k, s, o + ".")
  {
    var text := s + Phrase(k) + o;
    Assoc(s + Phrase(k), o, ".");
    SettledStays(text);
    SettledStays(o);
    NoPossessionBeforeStop(text);
    AbsentBeforeStop(text, " belongs to ");
    match k
    case IsA => SplitsBeforeStop(s, " is a ", o);
    case Has =>
      SplitsBeforeStop(s, " has ", o);
      UnmistakenBeforeStop(k, s, o);
    case BelongsTo =>
      SplitsBeforeStop(s, " belongs to ", o);
      UnmistakenBeforeStop(k, s, o);
    case Does(v) => UnmistakenBeforeStop(k, s, o);
  }

  lemma StopLast(o: string, n: nat)
    ensures (o + Stops(n)) + "." == o + Stops(n + 1)
  {
    Assoc(o, Stops(n), ".");
  }

  lemma {:induction false} StableWithStops(k: Kind, s: string, o: string, n: nat, x: string)
    requires Stable(k, s, o) && x == o + Stops(n)
    ensures Stable(k, s, x)
    decreases n
  {
    if n == 0 {
      assert x == o;
    } else {
      var y := o + Stops(n - 1);
      StableWithStops(k, s, o, n - 1, y);
      assert x == y + "." by { StopLast(o, n - 1); }
      StableBeforeStop(k, s, y);
    }
  }

  /** The sentence with n stops more. */
  function Stopped(k: Kind, s: string, o: string, n: nat): string {
    s + Phrase(k) + (o + Stops(n))
  }

  lemma NextRound(k: Kind, s: string, o: string, n: nat)
    requires Stable(k, s, o)
    ensures Round(Stopped(k, s, o, n)) == Stopped(k, s, o, n + 1)
  {
    var x := o + Stops(n);
    StableWithStops(k, s, o, n, x);
    SettledStays(s + Phrase(k) + x);
    StableRound(k, s + Phrase(k) + x, s, x);
    StopLast(o, n);
  }

  /** The function leads from each of the texts to the next. */
  predicate Chain(f: string -> string, texts: seq<string>) {
    texts != [] && forall i :: 0 <= i < |texts| - 1 ==> f(texts[i]) == texts[i + 1]
  }

  lemma {:induction false} ChainEnds(f: string -> string, texts: seq<string>)
    requires Chain(f, texts)
    ensures Iterate(f, texts[0], |texts| - 1) == texts[|texts| - 1]
    decreases |texts|
  {
    if |texts| > 1 {
      forall i | 0 <= i < |texts[1..]| - 1 ensures f(texts[1..][i]) == texts[1..][i + 1] {
        assert f(texts[i + 1]) == texts[i + 1 + 1];
      }
      ChainEnds(f, texts[1..]);
      assert f(texts[0]) == texts[0 + 1];
    }
  }

  lemma ChainMore(f: string -> string, texts: seq<string>, last: string, next: string)
    requires Chain(f, texts) && texts[|texts| - 1] == last && f(last) == next
    ensures Chain(f, texts + [next])
  {
  }

  lemma {:induction false} StoppedChain(text: string, k: Kind, s: string, o: string, n: nat)
    returns (texts: seq<string>)
    requires Stable(k, s, o) && n > 0 && Round(text) == Stopped(k, s, o, 1)
    ensures |texts| == n + 1 && Chain(Round, texts)
    ensures texts[0] == text && texts[n] == Stopped(k, s, o, n)
    decreases n
  {
    if n == 1 {
      texts := [text] + [Stopped(k, s, o, 1)];
    } else {
      texts := StoppedChain(text, k, s, o, n - 1);
      NextRound(k, s, o, n - 1);
      ChainMore(Round, texts, Stopped(k, s, o, n - 1), Stopped(k, s, o, n));
      texts := texts + [Stopped(k, s, o, n)];
    }
  }

  /** A text that a round makes a stable sentence of gains one full stop in every round. */
  lemma StopsFromFirst(text: string, k: Kind, s: string, o: string, n: nat)
    requires Stable(k, s, o) && n > 0 && Round(text) == Stopped(k, s, o, 1)
    ensures Rounds(text, n) == Stopped(k, s, o, n)
  {
    var texts := StoppedChain(text, k, s, o, n);
    ChainEnds(Round, texts);
  }

  lemma OneStop(k: Kind, s: string, o: string)
    ensures Stopped(k, s, o, 1) == s + Phrase(k) + (o + ".")
  {
    assert Stops(0) + "." == ".";
  }

  /** However often a sentence goes round, it gains one full stop each time; an article before it goes in the first. */
  lemma EachRoundAStop(k: Kind, text: string, s: string, o: string, n: nat)
    requires Stable(k, s, o) && StripArt(text) == s + Phrase(k) + o && QuoteFree(text) && n > 0
    ensures Rounds(text, n) == Stopped(k, s, o, n)
  {
    StableRound(k, text, s, o);
    OneStop(k, s, o);
    StopsFromFirst(text, k, s, o, n);
  }

  /**
   A likeness comes back with "is similar to" in its place. If that sentence is read as one of the other kinds, as it is
   with "is" for a verb when its subject is one word, every round adds a stop too.
   */
  lemma LikenessGainsStops(text: string, x: string, y: string, k: Kind, s: string, o: string, n: nat)
    requires Reads(text, x, " is like ", y) && NoInheritance(StripArt(text))
    requires !Contains(x, "InheritanceLink") && !Contains(StripArt(y), "InheritanceLink")
    requires Stable(k, s, o) && s + Phrase(k) + o == x + " is similar to " + StripArt(y) && n > 0
    ensures Rounds(text, n) == Stopped(k, s, o, n)
  {
    LikenessRoundTripIff(text, x, y);
    Assoc(s + Phrase(k), o, ".");
    OneStop(k, s, o);
    StopsFromFirst(text, k, s, o, n);
  }

  lemma ResemblanceGainsStops(text: string, x: string, y: string, k: Kind, s: string, o: string, n: nat)
    requires Reads(text, x, " resembles ", y) && NoInheritance(StripArt(text)) && Absent(StripArt(text), " is like ")
    requires !Contains(x, "InheritanceLink") && !Contains(StripArt(y), "InheritanceLink")
    requires Stable(k, s, o) && s + Phrase(k) + o == x + " is similar to " + StripArt(y) && n > 0
    ensures Rounds(text, n) == Stopped(k, s, o, n)
  {
    ResemblanceRoundTripIff(text, x, y);
    Assoc(s + Phrase(k), o, ".");
    OneStop(k, s, o);
    StopsFromFirst(text, k, s, o, n);
  }
}
