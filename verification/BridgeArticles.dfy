/** Articles written out: what the converter strips from a sentence and its object, and what then comes back. */
module BridgeArticles {
  import opened TextSearch
  import opened BridgeText
  import opened BridgeSentences

  // ---- Letters

  /** Capital letters are lowered, and nothing else changes. */
  lemma LowerIs(i: nat, c: char)
    requires i < 26
    ensures Lower("ABCDEFGHIJKLMNOPQRSTUVWXYZ"[i]) == "abcdefghijklmnopqrstuvwxyz"[i]
    ensures c !in "ABCDEFGHIJKLMNOPQRSTUVWXYZ" ==> Lower(c) == c
  {
    var caps := "ABCDEFGHIJKLMNOPQRSTUVWXYZ";
    assert forall k :: 0 <= k < 26 ==> caps[k] as int == 'A' as int + k;
    assert forall k :: 0 <= k < 26 ==> "abcdefghijklmnopqrstuvwxyz"[k] as int == 'a' as int + k;
    if 'A' <= c <= 'Z' { assert c == caps[c as int - 'A' as int]; }
  }

  // ---- Articles

  /** An article and its blank, in any case. */
  predicate Article(w: string) {
    ToLower(w) == "the " || ToLower(w) == "an " || ToLower(w) == "a "
  }

  /** The text is an article and something more. */
  predicate Led(text: string, w: string, rest: string) {
    Article(w) && rest != "" && text == w + rest
  }

  lemma LowerOfBoth(w: string, rest: string)
    ensures ToLower(w + rest) == ToLower(w) + ToLower(rest)
  {
  }

  lemma LowerStarts(text: string, n: nat)
    requires n <= |text|
    ensures ToLower(text)[..n] == ToLower(text[..n])
  {
  }

  /** An article is stripped if something follows. */
  lemma ArticleGoes(text: string, w: string, rest: string)
    requires Led(text, w, rest)
    ensures StripArt(text) == rest
  {
    var lo := ToLower(text);
    LowerOfBoth(w, rest);
    assert lo[..|w|] == ToLower(w) && text[|w|..] == rest;
    assert lo[1] == ToLower(w)[1];
    if |w| == 2 {
      assert |lo| > 3 ==> lo[..3][1] == ' ' && "an "[1] == 'n';
      assert |lo| > 4 ==> lo[..4][1] == ' ' && "the "[1] == 'h';
    } else if |w| == 3 {
      assert |lo| > 4 ==> lo[..4][1] == 'n' && "the "[1] == 'h';
    }
  }

  /** A text is stripped of nothing exactly when it is not an article and something more. */
  lemma NothingGoesIff(text: string)
    ensures StripArt(text) == text <==> !exists w, rest :: Led(text, w, rest)
  {
    if w, rest :| Led(text, w, rest) {
      ArticleGoes(text, w, rest);
      assert |rest| < |text|;
    }
    if StripArt(text) != text {
      var n := |text| - |StripArt(text)|;
      LowerStarts(text, n);
      assert text == text[..n] + text[n..];
      assert Led(text, text[..n], text[n..]);
    }
  }

  /** The article, if there is one, in front of a text that does not begin with one. */
  ghost predicate Fronted(w: string, rest: string) {
    if w == "" then forall v, r :: !Led(rest, v, r) else Article(w) && rest != ""
  }

  lemma FrontGoes(w: string, rest: string)
    requires Fronted(w, rest)
    ensures StripArt(w + rest) == rest
  {
    if w == "" {
      NothingGoesIff(rest);
      assert w + rest == rest;
    } else {
      ArticleGoes(w + rest, w, rest);
    }
  }

  // ---- Sentences

  /** A sentence with an article, or none, before its subject and one before its object. */
  ghost predicate Sentence(text: string, w: string, s: string, phrase: string, v: string, o: string) {
    && text == w + (s + phrase + (v + o)) && QuoteFree(text)
    && Fronted(w, s + phrase + (v + o)) && Fronted(v, o) && Splits(s, phrase, v + o)
  }

  lemma SentenceReads(text: string, w: string, s: string, phrase: string, v: string, o: string)
    requires Sentence(text, w, s, phrase, v, o)
    ensures Reads(text, s, phrase, v + o) && StripArt(v + o) == o && StripArt(text) == s + phrase + (v + o)
  {
    FrontGoes(w, s + phrase + (v + o));
    FrontGoes(v, o);
  }

  /** An inheritance comes back with its names bare: both articles go, whatever their case. */
  lemma InheritanceWithArticles(text: string, w: string, s: string, v: string, o: string)
    requires Sentence(text, w, s, " is a ", v, o)
    ensures Round(text) == s + " is a " + o + "."
  {
    SentenceReads(text, w, s, " is a ", v, o);
    InheritanceRoundTrip(text, s, v + o);
  }

  lemma InheritanceAnWithArticles(text: string, w: string, s: string, v: string, o: string)
    requires Sentence(text, w, s, " is an ", v, o) && Absent(s + " is an " + (v + o), " is a ")
    ensures Round(text) == s + " is a " + o + "."
  {
    SentenceReads(text, w, s, " is an ", v, o);
    InheritanceAnRoundTrip(text, s, v + o);
  }

  lemma LikenessWithArticlesIff(text: string, w: string, s: string, v: string, o: string)
    requires Sentence(text, w, s, " is like ", v, o) && NoInheritance(s + " is like " + (v + o))
    ensures Round(text) == s + " is similar to " + o + "."
       <==> !Contains(s, "InheritanceLink") && !Contains(o, "InheritanceLink")
  {
    SentenceReads(text, w, s, " is like ", v, o);
    LikenessRoundTripIff(text, s, v + o);
  }

  lemma ResemblanceWithArticlesIff(text: string, w: string, s: string, v: string, o: string)
    requires Sentence(text, w, s, " resembles ", v, o)
    requires NoInheritance(s + " resembles " + (v + o)) && Absent(s + " resembles " + (v + o), " is like ")
    ensures Round(text) == s + " is similar to " + o + "."
       <==> !Contains(s, "InheritanceLink") && !Contains(o, "InheritanceLink")
  {
    SentenceReads(text, w, s, " resembles ", v, o);
    ResemblanceRoundTripIff(text, s, v + o);
  }

  lemma PossessionWithArticlesIff(text: string, w: string, s: string, v: string, o: string)
    requires Sentence(text, w, s, " has ", v, o) && NoLikeness(s + " has " + (v + o))
    ensures Round(text) == s + " " + "has" + " " + o + "." <==> Unmistaken(Evaluate("has", s, o))
  {
    SentenceReads(text, w, s, " has ", v, o);
    PossessionRoundTripIff(text, s, v + o);
  }

  lemma PossessionHaveWithArticlesIff(text: string, w: string, s: string, v: string, o: string)
    requires Sentence(text, w, s, " have ", v, o)
    requires NoLikeness(s + " have " + (v + o)) && Absent(s + " have " + (v + o), " has ")
    ensures Round(text) == s + " " + "has" + " " + o + "." <==> Unmistaken(Evaluate("has", s, o))
  {
    SentenceReads(text, w, s, " have ", v, o);
    PossessionHaveRoundTripIff(text, s, v + o);
  }

  lemma MembershipWithArticlesIff(text: string, w: string, s: string, v: string, o: string)
    requires Sentence(text, w, s, " belongs to ", v, o) && NoPossession(s + " belongs to " + (v + o))
    ensures Round(text) == s + " belongs to " + o + "." <==> Unmistaken(Member(s, o))
  {
    SentenceReads(text, w, s, " belongs to ", v, o);
    MembershipRoundTripIff(text, s, v + o);
  }

  lemma VerbWithArticlesIff(text: string, w: string, s: string, verb: string, v: string, o: string)
    requires text == w + (s + " " + verb + " " + (v + o)) && QuoteFree(text) && ' ' !in s && ' ' !in verb
    requires Fronted(w, s + " " + verb + " " + (v + o)) && Fronted(v, o)
    requires NoPossession(s + " " + verb + " " + (v + o)) && Absent(s + " " + verb + " " + (v + o), " belongs to ")
    ensures Round(text) == s + " " + verb + " " + o + "." <==> Unmistaken(Evaluate(verb, s, o))
  {
    FrontGoes(w, s + " " + verb + " " + (v + o));
    FrontGoes(v, o);
    VerbRoundTripIff(text, s, verb, v + o);
  }

  // ---- What is no sentence

  /** The text has at most one blank. */
  predicate OneBlank(t: string) {
    forall i, j :: 0 <= i < j < |t| ==> !(t[i] == ' ' && t[j] == ' ')
  }

  lemma PhraseHasBlanks(t: string, phrase: string)
    requires OneBlank(t) && |phrase| > 1 && phrase[0] == ' ' && phrase[|phrase| - 1] == ' '
    ensures Find(ToLower(t), phrase, 0) == None
  {
    var lo := ToLower(t);
    FindIsFirst(lo, phrase, 0);
    if p: nat :| MatchAt(lo, phrase, p) {
      assert lo[p] == phrase[0] && lo[p + (|phrase| - 1)] == phrase[|phrase| - 1];
      LowerBlank(t[p]);
      LowerBlank(t[p + (|phrase| - 1)]);
    }
  }

  lemma LowerBlank(c: char)
    ensures Lower(c) == ' ' <==> c == ' '
  {
  }

  lemma NoSecondBlank(t: string)
    requires OneBlank(t)
    ensures FindChar(t, ' ', 0).Some? ==> FindChar(t, ' ', FindChar(t, ' ', 0).value + 1) == None
  {
    if FindChar(t, ' ', 0).Some? {
      var p := FindChar(t, ' ', 0).value;
      FindCharIsFirst(t, ' ', 0);
      assert ' ' !in t[p + 1..|t|];
      FindCharIs(t, ' ', p + 1, |t|);
    }
  }

  lemma NoPhrase(t: string, text: string)
    requires OneBlank(t) && t == StripArt(text)
    ensures Parse(text) == Just(text)
  {
    PhraseHasBlanks(t, " is a ");
    PhraseHasBlanks(t, " is an ");
    PhraseHasBlanks(t, " is like ");
    PhraseHasBlanks(t, " resembles ");
    PhraseHasBlanks(t, " has ");
    PhraseHasBlanks(t, " have ");
    PhraseHasBlanks(t, " belongs to ");
    NoSecondBlank(t);
  }

  /** A text that, without its article, has no two blanks is kept whole as a concept, and comes back as that. */
  lemma FewWordsAreAConcept(text: string)
    requires OneBlank(StripArt(text))
    ensures NlToAtomese(text) == "(ConceptNode " + "\"" + text + "\"" + ")"
    ensures QuoteFree(text) ==> Round(text) == "(ConceptNode " + "\"" + text + "\"" + ")"
  {
    NoPhrase(StripArt(text), text);
    if QuoteFree(text) { RoundTrip(text); }
  }

  // ---- Expressions

  lemma InheritanceExpression(text: string, w: string, s: string, v: string, o: string)
    requires Sentence(text, w, s, " is a ", v, o)
    ensures NlToAtomese(text)
         == "(InheritanceLink (ConceptNode " + "\"" + s + "\"" + ") (ConceptNode " + "\"" + o + "\"" + "))"
  {
    SentenceReads(text, w, s, " is a ", v, o);
    ParseInheritance(text, s, v + o);
  }

  lemma LikenessExpression(text: string, w: string, s: string, v: string, o: string)
    requires Sentence(text, w, s, " is like ", v, o) && NoInheritance(s + " is like " + (v + o))
    ensures NlToAtomese(text)
         == "(SimilarityLink (ConceptNode " + "\"" + s + "\"" + ") (ConceptNode " + "\"" + o + "\"" + "))"
  {
    SentenceReads(text, w, s, " is like ", v, o);
    ParseLikeness(text, s, v + o);
  }

  lemma MembershipExpression(text: string, w: string, s: string, v: string, o: string)
    requires Sentence(text, w, s, " belongs to ", v, o) && NoPossession(s + " belongs to " + (v + o))
    ensures NlToAtomese(text)
         == "(MemberLink (ConceptNode " + "\"" + s + "\"" + ") (ConceptNode " + "\"" + o + "\"" + "))"
  {
    SentenceReads(text, w, s, " belongs to ", v, o);
    ParseMembership(text, s, v + o);
  }

  lemma VerbExpression(text: string, w: string, s: string, verb: string, v: string, o: string)
    requires text == w + (s + " " + verb + " " + (v + o)) && QuoteFree(text) && ' ' !in s && ' ' !in verb
    requires Fronted(w, s + " " + verb + " " + (v + o)) && Fronted(v, o)
    requires NoPossession(s + " " + verb + " " + (v + o)) && Absent(s + " " + verb + " " + (v + o), " belongs to ")
    ensures NlToAtomese(text)
         == "(EvaluationLink (PredicateNode " + "\"" + verb + "\"" + ") (ListLink (ConceptNode " + "\"" + s + "\""
            + ") (ConceptNode " + "\"" + o + "\"" + ")))"
  {
    FrontGoes(w, s + " " + verb + " " + (v + o));
    FrontGoes(v, o);
    ParseVerbPhrase(text, s, verb, v + o);
  }

  /** The answer to any text of two names or more: the first of the words that it has decides. */
  lemma AnswerIs(a: string, names: seq<string>)
    requires names == QuotedFrom(a, 0) && |names| > 1
    ensures Contains(a, "InheritanceLink") ==> AtomeseToNl(a) == names[0] + " is a " + names[1] + "."
    ensures !Contains(a, "InheritanceLink") && Contains(a, "SimilarityLink") ==>
              AtomeseToNl(a) == names[0] + " is similar to " + names[1] + "."
    ensures Untold(a) && Contains(a, "EvaluationLink") && |names| > 2 ==>
              AtomeseToNl(a) == names[1] + " " + names[0] + " " + names[2] + "."
    ensures Untold(a) && !(Contains(a, "EvaluationLink") && |names| > 2) && Contains(a, "MemberLink") ==>
              AtomeseToNl(a) == names[0] + " belongs to " + names[1] + "."
    ensures Untold(a) && !(Contains(a, "EvaluationLink") && |names| > 2) && !Contains(a, "MemberLink") ==>
              AtomeseToNl(a) == a
  {
  }

  /** Neither an inheritance nor a similarity. */
  predicate Untold(a: string) {
    !Contains(a, "InheritanceLink") && !Contains(a, "SimilarityLink")
  }

  /** A text with fewer than two quoted names is answered by itself. */
  lemma NoNamesNoAnswer(a: string)
    requires |QuotedFrom(a, 0)| < 2
    ensures AtomeseToNl(a) == a
  {
  }
}
