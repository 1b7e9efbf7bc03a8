/**
 What each operation of the store leaves stored, and the store with its indexes as a refinement of a plain map of
 atoms in which everything is found by looking through all of them.
 */
module AtomEffects {
  import opened AtomKeys
  import opened AtomStore

  /** A new atom's truth value is certain, and nothing draws attention to it. */
  function New(a: Shape): Atom {
    Atom(a, Numbers(1.0, 1.0, 0.0, 0.0))
  }

  /** The types are numbered in the order of their declaration. */
  lemma CodesInOrder(i: nat)
    requires i < 11
    ensures Code([AtomType.Concept, AtomType.Predicate, AtomType.Variable, AtomType.List, AtomType.Evaluation,
                  AtomType.Inheritance, AtomType.Similarity, AtomType.Implication, AtomType.Execution, AtomType.State,
                  AtomType.Custom][i]) == i
  {
  }

  // ---- Adding

  /**
   Adding a node gives the node of that type and name: the one that is there, and then the store stays as it is, or a
   new one under the next id, and then nothing else changes.
   */
  lemma AddNodeStores(s: Store, t: AtomType, name: string)
    requires Agrees(s)
    ensures var (r, id) := AddNode(s, t, name);
            && GetNode(r, t, name) == Found(id) && id in r.byId && r.byId[id].shape == Shape(t, name, [])
            && (GetNode(s, t, name) != Missing ==> r == s)
            && (GetNode(s, t, name) == Missing ==>
                 id == s.nextId && r.nextId == id + 1 && r.byId == s.byId[id := New(Shape(t, name, []))])
  {
    var (r, id) := AddNode(s, t, name);
    if GetNode(s, t, name) != Missing { GetNodeIsScan(s, t, name, id); }
  }

  /** So does adding a link with members. */
  lemma AddLinkStores(s: Store, t: AtomType, out: seq<nat>)
    requires Agrees(s) && out != []
    ensures var (r, id) := AddLink(s, t, out);
            && GetLink(r, t, out) == Found(id) && id in r.byId
            && r.byId[id].shape.kind == t && r.byId[id].shape.out == out
            && (GetLink(s, t, out) != Missing ==> r == s)
            && (GetLink(s, t, out) == Missing ==>
                 id == s.nextId && r.nextId == id + 1 && r.byId == s.byId[id := New(Shape(t, "", out))])
  {
    var (r, id) := AddLink(s, t, out);
    if GetLink(s, t, out) != Missing { GetLinkIsScan(s, t, out, id); }
  }

  /** A node is found alike in two stores if the same ids hold it in both. */
  lemma FoundNodes(s: Store, r: Store, t: AtomType, name: string)
    requires Agrees(s) && Agrees(r)
    requires forall id :: Is(s, id, Shape(t, name, [])) <==> Is(r, id, Shape(t, name, []))
    ensures GetNode(r, t, name) == GetNode(s, t, name)
  {
    forall id ensures GetNode(s, t, name) == Found(id) <==> GetNode(r, t, name) == Found(id) {
      GetNodeIsScan(s, t, name, id);
      GetNodeIsScan(r, t, name, id);
      assert Is(s, id, Shape(t, name, [])) <==> Is(r, id, Shape(t, name, []));
    }
    if GetNode(s, t, name) != Missing { assert GetNode(s, t, name) == Found(GetNode(s, t, name).id); }
    if GetNode(r, t, name) != Missing { assert GetNode(r, t, name) == Found(GetNode(r, t, name).id); }
  }

  predicate Is(s: Store, id: nat, a: Shape) {
    id in s.byId && s.byId[id].shape == a
  }

  /** In every state, legal or not, what is returned as incoming is live and listed. */
  lemma IncomingIsLive(s: Store, h: Handle, id: nat)
    ensures id in GetIncoming(s, h) <==> h != Null && id in At(s.incoming, h.id) && id in s.byId
  {
    if h != Null { LiveIs(s, At(s.incoming, h.id), id); }
  }

  lemma {:induction false} LiveIs(s: Store, v: seq<nat>, id: nat)
    ensures id in Live(s, v) <==> id in v && id in s.byId
  {
    if v != [] {
      LiveIs(s, v[..|v| - 1], id);
      assert v == v[..|v| - 1] + [v[|v| - 1]];
    }
  }

  // ---- Removing and setting

  /** Removing takes out the atom of the handle, if it is live, and no other; no id is given back. */
  lemma RemoveTakesOut(s: Store, h: Handle, id: nat)
    ensures Remove(s, h).nextId == s.nextId
    ensures id in Remove(s, h).byId <==> id in s.byId && (h == Null || id != h.id)
    ensures id in Remove(s, h).byId ==> Remove(s, h).byId[id] == s.byId[id]
  {
  }

  /** Once removed, the atom is not found any more, and every other node is found as before. */
  lemma RemovedIsGone(s: Store, h: Handle, t: AtomType, name: string)
    requires Agrees(s) && Issued(s, h) && h.id in s.byId
    ensures h.shape == Shape(t, name, []) ==> GetNode(Remove(s, h), t, name) == Missing
    ensures h.shape != Shape(t, name, []) ==> GetNode(Remove(s, h), t, name) == GetNode(s, t, name)
  {
    var r, a := Remove(s, h), Shape(t, name, []);
    RemoveAgreesIff(s, h);
    if h.shape != a {
      forall id ensures Is(s, id, a) <==> Is(r, id, a) { RemoveTakesOut(s, h, id); }
      FoundNodes(s, r, t, name);
    }
  }

  /** Setting numbers sets those of a live atom, and changes nothing else. */
  lemma NumbersAreSet(s: Store, h: Handle, nums: Numbers, id: nat)
    ensures var r := SetNumbers(s, h, nums);
            && r == s.(byId := r.byId) && (id in r.byId <==> id in s.byId)
            && (id in s.byId ==> r.byId[id].shape == s.byId[id].shape)
            && (id in s.byId ==> r.byId[id].nums == if h != Null && id == h.id then nums else s.byId[id].nums)
  {
  }

  // ---- The plain store

  datatype Plain = Plain(next: nat, atoms: map<nat, Atom>)

  /** Two shapes are the same atom: nodes by type and name, links by type and members. */
  predicate Same(a: Shape, b: Shape) {
    a.kind == b.kind && a.out == b.out && (a.out == [] ==> a.name == b.name)
  }

  predicate Has(m: Plain, a: Shape) {
    exists id :: id in m.atoms && Same(m.atoms[id].shape, a)
  }

  function PlainAdd(m: Plain, a: Shape): Plain {
    if Has(m, a) then m else Plain(m.next + 1, m.atoms[m.next := New(a)])
  }

  function PlainApply(m: Plain, op: Op): Plain {
    match op
    case AddNodeOp(t, name) => PlainAdd(m, Shape(t, name, []))
    case AddLinkOp(t, out) => PlainAdd(m, Shape(t, "", out))
    case RemoveOp(h) => if h == Null then m else m.(atoms := m.atoms - {h.id})
    case SetOp(h, nums) =>
      if h != Null && h.id in m.atoms then m.(atoms := m.atoms[h.id := m.atoms[h.id].(nums := nums)]) else m
    case ClearOp => Plain(1, map[])
  }

  function PlainRun(ops: seq<Op>): Plain {
    if ops == [] then Plain(1, map[]) else PlainApply(PlainRun(ops[..|ops| - 1]), ops[|ops| - 1])
  }

  function Atoms(s: Store): Plain {
    Plain(s.nextId, s.byId)
  }

  lemma NodeIsThere(s: Store, t: AtomType, name: string)
    requires Agrees(s)
    ensures Has(Atoms(s), Shape(t, name, [])) <==> GetNode(s, t, name) != Missing
  {
    if Has(Atoms(s), Shape(t, name, [])) {
      var id :| id in s.byId && Same(s.byId[id].shape, Shape(t, name, []));
      GetNodeIsScan(s, t, name, id);
    }
    if GetNode(s, t, name) != Missing { GetNodeIsScan(s, t, name, GetNode(s, t, name).id); }
  }

  lemma LinkIsThere(s: Store, t: AtomType, out: seq<nat>)
    requires Agrees(s) && out != []
    ensures Has(Atoms(s), Shape(t, "", out)) <==> GetLink(s, t, out) != Missing
  {
    if Has(Atoms(s), Shape(t, "", out)) {
      var id :| id in s.byId && Same(s.byId[id].shape, Shape(t, "", out));
      GetLinkIsScan(s, t, out, id);
    }
    if GetLink(s, t, out) != Missing { GetLinkIsScan(s, t, out, GetLink(s, t, out).id); }
  }

  lemma ApplyRefines(s: Store, op: Op)
    requires Agrees(s) && Legal(s, op)
    ensures Atoms(Apply(s, op)) == PlainApply(Atoms(s), op)
  {
    match op
    case AddNodeOp(t, name) =>
      NodeIsThere(s, t, name);
      AddNodeStores(s, t, name);
    case AddLinkOp(t, out) =>
      LinkIsThere(s, t, out);
      AddLinkStores(s, t, out);
    case _ =>
  }

  /**
   After every legal run the store holds the atoms that the plain store holds after the same operations, so that the
   indexes, which agree with a scan, find what looking through the plain store's atoms finds.
   */
  lemma {:induction false} RunRefines(ops: seq<Op>)
    requires LegalRun(ops)
    ensures Agrees(Run(ops)) && Atoms(Run(ops)) == PlainRun(ops)
  {
    if ops == [] {
      EmptyAgrees();
    } else {
      var init := ops[..|ops| - 1];
      RunRefines(init);
      ApplyRefines(Run(init), ops[|ops| - 1]);
      ApplyAgrees(Run(init), ops[|ops| - 1]);
    }
  }

  /** What the lookups return after a legal run, in terms of the plain store. */
  lemma RunFinds(ops: seq<Op>, t: AtomType, name: string, out: seq<nat>, h: Handle, id: nat)
    requires LegalRun(ops) && out != [] && h != Null && h.id != 0
    ensures var s, m := Run(ops), PlainRun(ops).atoms;
            && (GetNode(s, t, name) == Found(id) <==> id in m && Same(m[id].shape, Shape(t, name, [])))
            && (GetLink(s, t, out) == Found(id) <==> id in m && Same(m[id].shape, Shape(t, "", out)))
            && (id in GetByType(s, t) <==> id in m && m[id].shape.kind == t)
            && (id in GetIncoming(s, h) <==> id in m && h.id in m[id].shape.out)
  {
    RunRefines(ops);
    var s := Run(ops);
    GetNodeIsScan(s, t, name, id);
    GetLinkIsScan(s, t, out, id);
    GetByTypeIsScan(s, t, id);
    GetIncomingIsScan(s, h, id);
  }
}
