/** What a given name asks of a link, at each place of a pattern: nothing, or one atom. */
module KbNames {
  import opened KbQuery

  /** A field is a variable exactly when it begins with a question mark, even if nothing follows. */
  lemma MarkedIsVariable(f: string)
    ensures IsVar(f) <==> exists r :: f == "?" + r
  {
    if IsVar(f) { assert f == "?" + f[1..]; }
  }

  /** Neither a concept nor a predicate has the name. */
  predicate Unknown(sp: Space, f: string) {
    !IsVar(f) && Node(ConceptNode, f) !in sp.nodes && Node(PredicateNode, f) !in sp.nodes
  }

  /** In any place, a name that stands for nothing is taken for a variable. */
  lemma UnknownIsVariable(sp: Space, t: Triple, e: Eval, v: string)
    requires IsVar(v)
    ensures Unknown(sp, t.subj) ==> (Matches(sp, t, e) <==> Matches(sp, t.(subj := v), e))
    ensures Unknown(sp, t.pred) ==> (Matches(sp, t, e) <==> Matches(sp, t.(pred := v), e))
    ensures Unknown(sp, t.obj) ==> (Matches(sp, t, e) <==> Matches(sp, t.(obj := v), e))
  {
  }

  /** Variables take any link of a predicate and two atoms; only their names differ. */
  lemma VariablesTakeAll(sp: Space, t: Triple, e: Eval)
    requires IsVar(t.subj) && IsVar(t.pred) && IsVar(t.obj)
    ensures Matches(sp, t, e) <==> e.Eval?
  {
  }

  /** The one atom that a known name asks for: the concept of the name, or the predicate if there is no concept. */
  function Asked(sp: Space, f: string): Atom {
    if Node(ConceptNode, f) in sp.nodes then Node(ConceptNode, f) else Node(PredicateNode, f)
  }

  /** A subject or object that is given and known asks for its atom there, and for nothing else. */
  lemma KnownAsksForAtom(sp: Space, t: Triple, e: Eval, v: string)
    requires IsVar(v) && IsVar(t.pred) && e.Eval?
    ensures !IsVar(t.subj) && !Unknown(sp, t.subj) ==>
              (Matches(sp, t, e) <==> Matches(sp, t.(subj := v), e) && e.subj == Asked(sp, t.subj))
    ensures !IsVar(t.obj) && !Unknown(sp, t.obj) ==>
              (Matches(sp, t, e) <==> Matches(sp, t.(obj := v), e) && e.obj == Asked(sp, t.obj))
  {
  }

  /**
   A given and known predicate asks for its atom, the concept first, unless the subject is given and known too: then it
   asks for the predicate of that name, and is content to find it among the link's further members.
   */
  lemma KnownPredicate(sp: Space, t: Triple, e: Eval, v: string)
    requires IsVar(v) && e.Eval? && !IsVar(t.pred) && !Unknown(sp, t.pred)
    ensures IsVar(t.subj) || Unknown(sp, t.subj) ==>
              (Matches(sp, t, e) <==> Matches(sp, t.(pred := v), e) && e.pred == Asked(sp, t.pred))
    ensures !IsVar(t.subj) && !Unknown(sp, t.subj) ==>
              (Matches(sp, t, e) <==>
                 && Matches(sp, t.(pred := v), e) && Node(PredicateNode, t.pred) in sp.nodes
                 && (e.pred == Node(PredicateNode, t.pred) || Node(PredicateNode, t.pred) in e.more))
  {
  }
}
