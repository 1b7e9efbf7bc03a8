/**
 The hypergraph store as a value: an id map, two name indexes, and two lists of ids per type and per member. A handle
 is an atom's id with its immutable part, so it survives the atom's removal.
 */
module AtomStore {
  import opened AtomKeys

  datatype AtomType =
    | Concept | Predicate | Variable | List | Evaluation | Inheritance | Similarity | Implication | Execution | State
    | Custom

  function Code(t: AtomType): (n: nat)
    ensures n <= 10
  {
    match t
    case Concept => 0
    case Predicate => 1
    case Variable => 2
    case List => 3
    case Evaluation => 4
    case Inheritance => 5
    case Similarity => 6
    case Implication => 7
    case Execution => 8
    case State => 9
    case Custom => 10
  }

  lemma CodeInjective(t: AtomType, u: AtomType)
    requires Code(t) == Code(u)
    ensures t == u
  {
  }

  /** What never changes in an atom. An atom without members is a node; member 0 is a null handle. */
  datatype Shape = Shape(kind: AtomType, name: string, out: seq<nat>)

  datatype Numbers = Numbers(strength: real, confidence: real, sti: real, lti: real)

  const FRESH := Numbers(1.0, 1.0, 0.0, 0.0)

  datatype Atom = Atom(shape: Shape, nums: Numbers)

  datatype Handle = Null | Handle(id: nat, shape: Shape)

  predicate IsNode(a: Shape) {
    a.out == []
  }

  datatype Store = Store(nextId: nat, byId: map<nat, Atom>, nodeIndex: map<string, nat>, linkIndex: map<string, nat>,
                         incoming: map<nat, seq<nat>>, typeIndex: map<nat, seq<nat>>)

  const EMPTY := Store(1, map[], map[], map[], map[], map[])

  // ---- Lists per key

  function At(m: map<nat, seq<nat>>, k: nat): seq<nat> {
    if k in m then m[k] else []
  }

  function Push(m: map<nat, seq<nat>>, k: nat, id: nat): map<nat, seq<nat>> {
    m[k := At(m, k) + [id]]
  }

  function Without(v: seq<nat>, x: nat): seq<nat> {
    if v == [] then []
    else Without(v[..|v| - 1], x) + if v[|v| - 1] == x then [] else [v[|v| - 1]]
  }

  /** Takes an id out of the list at k, and the list itself when it becomes empty. */
  function Pull(m: map<nat, seq<nat>>, k: nat, id: nat): map<nat, seq<nat>> {
    if k !in m then m
    else
      var v := Without(m[k], id);
      if v == [] then m - {k} else m[k := v]
  }

  /** Enters a link under each of its members. */
  function Register(m: map<nat, seq<nat>>, id: nat, out: seq<nat>): map<nat, seq<nat>> {
    if out == [] then m
    else
      var r := Register(m, id, out[..|out| - 1]);
      if out[|out| - 1] == 0 then r else Push(r, out[|out| - 1], id)
  }

  function Unregister(m: map<nat, seq<nat>>, id: nat, out: seq<nat>): map<nat, seq<nat>> {
    if out == [] then m
    else
      var r := Unregister(m, id, out[..|out| - 1]);
      if out[|out| - 1] == 0 then r else Pull(r, out[|out| - 1], id)
  }

  // ---- Operations

  function NodeKeyOf(a: Shape): string {
    NodeKey(Code(a.kind), a.name)
  }

  function LinkKeyOf(a: Shape): string {
    LinkKey(Code(a.kind), a.out)
  }

  function InsertNode(s: Store, id: nat, a: Atom): Store {
    s.(byId := s.byId[id := a], nodeIndex := s.nodeIndex[NodeKeyOf(a.shape) := id],
       typeIndex := Push(s.typeIndex, Code(a.shape.kind), id))
  }

  function InsertLink(s: Store, id: nat, a: Atom): Store {
    s.(byId := s.byId[id := a], linkIndex := s.linkIndex[LinkKeyOf(a.shape) := id],
       typeIndex := Push(s.typeIndex, Code(a.shape.kind), id), incoming := Register(s.incoming, id, a.shape.out))
  }

  /** Adds or retrieves a node. */
  function AddNode(s: Store, t: AtomType, name: string): (Store, nat) {
    var a := Shape(t, name, []);
    if NodeKeyOf(a) in s.nodeIndex then (s, s.nodeIndex[NodeKeyOf(a)])
    else (InsertNode(s, s.nextId, Atom(a, FRESH)).(nextId := s.nextId + 1), s.nextId)
  }

  /** Adds or retrieves a link. */
  function AddLink(s: Store, t: AtomType, out: seq<nat>): (Store, nat) {
    var a := Shape(t, "", out);
    if LinkKeyOf(a) in s.linkIndex then (s, s.linkIndex[LinkKeyOf(a)])
    else (InsertLink(s, s.nextId, Atom(a, FRESH)).(nextId := s.nextId + 1), s.nextId)
  }

  function Remove(s: Store, h: Handle): Store {
    if h == Null then s
    else
      var a := h.shape;
      s.(byId := s.byId - {h.id},
         nodeIndex := if IsNode(a) then s.nodeIndex - {NodeKeyOf(a)} else s.nodeIndex,
         linkIndex := if IsNode(a) then s.linkIndex else s.linkIndex - {LinkKeyOf(a)},
         incoming := Unregister(s.incoming, h.id, a.out),
         typeIndex := Pull(s.typeIndex, Code(a.kind), h.id))
  }

  /** Truth and attention values are set on the atom itself, live or not. */
  function SetNumbers(s: Store, h: Handle, nums: Numbers): Store {
    if h != Null && h.id in s.byId then s.(byId := s.byId[h.id := s.byId[h.id].(nums := nums)]) else s
  }

  datatype Found = Missing | Found(id: nat)

  function GetNode(s: Store, t: AtomType, name: string): Found {
    var k := NodeKey(Code(t), name);
    if k in s.nodeIndex then Found(s.nodeIndex[k]) else Missing
  }

  function GetLink(s: Store, t: AtomType, out: seq<nat>): Found {
    var k := LinkKey(Code(t), out);
    if k in s.linkIndex then Found(s.linkIndex[k]) else Missing
  }

  function GetByType(s: Store, t: AtomType): seq<nat> {
    At(s.typeIndex, Code(t))
  }

  function Live(s: Store, v: seq<nat>): seq<nat> {
    if v == [] then []
    else Live(s, v[..|v| - 1]) + if v[|v| - 1] in s.byId then [v[|v| - 1]] else []
  }

  function GetIncoming(s: Store, h: Handle): seq<nat> {
    if h == Null then [] else Live(s, At(s.incoming, h.id))
  }

  // ---- What a scan of the atoms finds

  function TypePart(b: map<nat, Atom>, i: nat, t: nat): seq<nat> {
    if i in b && Code(b[i].shape.kind) == t then [i] else []
  }

  function LinkPart(b: map<nat, Atom>, i: nat, m: nat): seq<nat> {
    if i in b then Repeat(i, Count(b[i].shape.out, m)) else []
  }

  /** The ids below n of the atoms of a type, in order. */
  function IdsOfType(b: map<nat, Atom>, n: nat, t: nat): seq<nat> {
    if n == 0 then [] else IdsOfType(b, n - 1, t) + TypePart(b, n - 1, t)
  }

  function Count(out: seq<nat>, m: nat): nat {
    if out == [] then 0 else Count(out[..|out| - 1], m) + if out[|out| - 1] == m then 1 else 0
  }

  function Repeat(x: nat, k: nat): seq<nat> {
    if k == 0 then [] else Repeat(x, k - 1) + [x]
  }

  /** The ids below n of the links to m, in order, once for each time m is a member. */
  function LinksTo(b: map<nat, Atom>, n: nat, m: nat): seq<nat> {
    if n == 0 then [] else LinksTo(b, n - 1, m) + LinkPart(b, n - 1, m)
  }

  predicate IdsOk(b: map<nat, Atom>, n: nat) {
    forall id :: id in b ==> 0 < id < n && forall m :: m in b[id].shape.out ==> m < id
  }

  predicate NodesAgree(b: map<nat, Atom>, index: map<string, nat>) {
    && (forall k :: k in index ==> index[k] in b && IsNode(b[index[k]].shape) && NodeKeyOf(b[index[k]].shape) == k)
    && (forall id :: id in b && IsNode(b[id].shape) ==>
          NodeKeyOf(b[id].shape) in index && index[NodeKeyOf(b[id].shape)] == id)
  }

  predicate LinksAgree(b: map<nat, Atom>, index: map<string, nat>) {
    && (forall k :: k in index ==> index[k] in b && !IsNode(b[index[k]].shape) && LinkKeyOf(b[index[k]].shape) == k)
    && (forall id :: id in b && !IsNode(b[id].shape) ==>
          LinkKeyOf(b[id].shape) in index && index[LinkKeyOf(b[id].shape)] == id)
  }

  ghost predicate TypesAgree(b: map<nat, Atom>, n: nat, index: map<nat, seq<nat>>) {
    && (forall t :: At(index, t) == IdsOfType(b, n, t))
    && (forall t :: t in index ==> index[t] != [])
  }

  /** No list is kept for null, and no empty one. */
  predicate Listed(index: map<nat, seq<nat>>) {
    forall m :: m in index ==> m != 0 && index[m] != []
  }

  ghost predicate IncomingAgrees(b: map<nat, Atom>, n: nat, index: map<nat, seq<nat>>) {
    && (forall m :: m != 0 ==> At(index, m) == LinksTo(b, n, m))
    && Listed(index)
  }

  /** The indexes say exactly what a scan of the atoms with ids below n finds. */
  ghost predicate AgreesBelow(s: Store, n: nat) {
    && n > 0 && IdsOk(s.byId, n)
    && NodesAgree(s.byId, s.nodeIndex)
    && LinksAgree(s.byId, s.linkIndex)
    && TypesAgree(s.byId, n, s.typeIndex)
    && IncomingAgrees(s.byId, n, s.incoming)
  }

  ghost predicate Agrees(s: Store) {
    AgreesBelow(s, s.nextId)
  }

  // ---- Scans and updates

  predicate SameAt(b: map<nat, Atom>, c: map<nat, Atom>, i: nat) {
    (i in b <==> i in c) && (i in b ==> b[i].shape == c[i].shape)
  }

  lemma {:induction false} SameScans(b: map<nat, Atom>, c: map<nat, Atom>, n: nat, k: nat)
    requires forall i :: 0 <= i < n ==> SameAt(b, c, i)
    ensures IdsOfType(b, n, k) == IdsOfType(c, n, k) && LinksTo(b, n, k) == LinksTo(c, n, k)
  {
    if n > 0 {
      SameScans(b, c, n - 1, k);
      assert SameAt(b, c, n - 1);
    }
  }

  lemma {:induction false} ScansEnd(b: map<nat, Atom>, n: nat, m: nat, k: nat)
    requires n <= m && forall i :: i in b ==> i < n
    ensures IdsOfType(b, m, k) == IdsOfType(b, n, k) && LinksTo(b, m, k) == LinksTo(b, n, k)
  {
    if n < m {
      ScansEnd(b, n, m - 1, k);
      assert m - 1 !in b;
    }
  }

  lemma {:induction false} WithoutConcat(u: seq<nat>, v: seq<nat>, x: nat)
    ensures Without(u + v, x) == Without(u, x) + Without(v, x)
    decreases |v|
  {
    if v == [] {
      assert u + v == u && Without(v, x) == [];
    } else {
      assert (u + v)[..|u + v| - 1] == u + v[..|v| - 1];
      WithoutConcat(u, v[..|v| - 1], x);
    }
  }

  lemma {:induction false} WithoutAbsent(v: seq<nat>, x: nat)
    requires x !in v
    ensures Without(v, x) == v
  {
    if v != [] {
      WithoutAbsent(v[..|v| - 1], x);
      assert v[..|v| - 1] + [v[|v| - 1]] == v;
    }
  }

  lemma {:induction false} WithoutRepeat(y: nat, k: nat, x: nat)
    ensures Without(Repeat(y, k), x) == if x == y then [] else Repeat(y, k)
  {
    if k > 0 {
      WithoutRepeat(y, k - 1, x);
      assert Repeat(y, k)[..k - 1] == Repeat(y, k - 1) by { RepeatLength(y, k - 1); }
      RepeatLength(y, k);
    }
  }

  lemma {:induction false} RepeatLength(y: nat, k: nat)
    ensures |Repeat(y, k)| == k && forall i :: 0 <= i < k ==> Repeat(y, k)[i] == y
  {
    if k > 0 { RepeatLength(y, k - 1); }
  }

  lemma {:induction false} IdsOfTypeIs(b: map<nat, Atom>, n: nat, t: nat, id: nat)
    ensures id in IdsOfType(b, n, t) <==> id < n && id in b && Code(b[id].shape.kind) == t
  {
    if n > 0 { IdsOfTypeIs(b, n - 1, t, id); }
  }

  lemma LinkPartIs(b: map<nat, Atom>, i: nat, m: nat, id: nat)
    ensures id in LinkPart(b, i, m) <==> id == i && i in b && m in b[i].shape.out
  {
    if i in b {
      var k := Count(b[i].shape.out, m);
      CountIs(b[i].shape.out, m);
      RepeatLength(i, k);
      if k > 0 { assert Repeat(i, k)[0] == i; }
    }
  }

  lemma {:induction false} LinksToIs(b: map<nat, Atom>, n: nat, m: nat, id: nat)
    ensures id in LinksTo(b, n, m) <==> id < n && id in b && m in b[id].shape.out
  {
    if n > 0 {
      var most, part := LinksTo(b, n - 1, m), LinkPart(b, n - 1, m);
      LinksToIs(b, n - 1, m, id);
      LinkPartIs(b, n - 1, m, id);
      assert id in most + part <==> id in most || id in part;
    }
  }

  lemma {:induction false} CountIs(out: seq<nat>, m: nat)
    ensures Count(out, m) > 0 <==> m in out
  {
    if out != [] {
      CountIs(out[..|out| - 1], m);
      assert out == out[..|out| - 1] + [out[|out| - 1]];
    }
  }

  lemma PartsWithout(b: map<nat, Atom>, i: nat, k: nat, id: nat)
    ensures TypePart(b - {id}, i, k) == Without(TypePart(b, i, k), id)
    ensures LinkPart(b - {id}, i, k) == Without(LinkPart(b, i, k), id)
  {
    if i in b {
      WithoutOne(i, id);
      WithoutRepeat(i, Count(b[i].shape.out, k), id);
    }
  }

  lemma WithoutOne(x: nat, y: nat)
    ensures Without([x], y) == if x == y then [] else [x]
  {
    assert [x][..0] == [];
  }

  lemma WithoutBoth(u: seq<nat>, v: seq<nat>, x: nat, u': seq<nat>, v': seq<nat>)
    requires u' == Without(u, x) && v' == Without(v, x)
    ensures u' + v' == Without(u + v, x)
  {
    WithoutConcat(u, v, x);
  }

  lemma IdsWithoutNext(b: map<nat, Atom>, n: nat, k: nat, id: nat)
    requires IdsOfType(b - {id}, n, k) == Without(IdsOfType(b, n, k), id)
    ensures IdsOfType(b - {id}, n + 1, k) == Without(IdsOfType(b, n + 1, k), id)
  {
    PartsWithout(b, n, k, id);
    WithoutBoth(IdsOfType(b, n, k), TypePart(b, n, k), id, IdsOfType(b - {id}, n, k), TypePart(b - {id}, n, k));
  }

  lemma {:induction false} IdsWithout(b: map<nat, Atom>, n: nat, k: nat, id: nat)
    ensures IdsOfType(b - {id}, n, k) == Without(IdsOfType(b, n, k), id)
  {
    if n > 0 {
      IdsWithout(b, n - 1, k, id);
      IdsWithoutNext(b, n - 1, k, id);
    }
  }

  lemma {:induction false} LinksWithout(b: map<nat, Atom>, n: nat, k: nat, id: nat)
    ensures LinksTo(b - {id}, n, k) == Without(LinksTo(b, n, k), id)
  {
    if n > 0 {
      var m, c := n - 1, b - {id};
      LinksWithout(b, m, k, id);
      PartsWithout(b, m, k, id);
      WithoutBoth(LinksTo(b, m, k), LinkPart(b, m, k), id, LinksTo(c, m, k), LinkPart(c, m, k));
    }
  }

  // ---- Registering

  lemma {:induction false} Registered(m: map<nat, seq<nat>>, id: nat, out: seq<nat>, k: nat)
    requires k != 0
    ensures At(Register(m, id, out), k) == At(m, k) + Repeat(id, Count(out, k))
  {
    if out == [] {
      assert At(m, k) + [] == At(m, k);
    } else {
      var init := out[..|out| - 1];
      Registered(m, id, init, k);
      assert (At(m, k) + Repeat(id, Count(init, k))) + [id] == At(m, k) + (Repeat(id, Count(init, k)) + [id]);
    }
  }

  lemma {:induction false} RegisterListed(m: map<nat, seq<nat>>, id: nat, out: seq<nat>)
    requires Listed(m)
    ensures Listed(Register(m, id, out))
  {
    if out != [] {
      RegisterListed(m, id, out[..|out| - 1]);
      if out[|out| - 1] != 0 { PushListed(Register(m, id, out[..|out| - 1]), out[|out| - 1], id); }
    }
  }

  lemma PushListed(m: map<nat, seq<nat>>, k: nat, id: nat)
    requires Listed(m) && k != 0
    ensures Listed(Push(m, k, id))
  {
  }

  lemma PullListed(m: map<nat, seq<nat>>, k: nat, id: nat)
    requires Listed(m)
    ensures Listed(Pull(m, k, id))
  {
  }

  lemma {:induction false} WithoutTwice(v: seq<nat>, x: nat)
    ensures x !in Without(v, x)
    ensures Without(Without(v, x), x) == Without(v, x)
  {
    if v != [] { WithoutTwice(v[..|v| - 1], x); }
    WithoutAbsent(Without(v, x), x);
  }

  lemma {:induction false} Unregistered(m: map<nat, seq<nat>>, id: nat, out: seq<nat>, k: nat)
    requires k != 0
    ensures At(Unregister(m, id, out), k) == if k in out then Without(At(m, k), id) else At(m, k)
  {
    if out != [] {
      var init, last := out[..|out| - 1], out[|out| - 1];
      Unregistered(m, id, init, k);
      assert out == init + [last];
      if k == last {
        WithoutTwice(At(m, k), id);
        PulledAt(Unregister(m, id, init), k, id);
      }
    }
  }

  lemma PulledAt(m: map<nat, seq<nat>>, k: nat, id: nat)
    ensures At(Pull(m, k, id), k) == Without(At(m, k), id)
    ensures forall j :: j != k ==> At(Pull(m, k, id), j) == At(m, j)
  {
  }

  lemma {:induction false} UnregisterListed(m: map<nat, seq<nat>>, id: nat, out: seq<nat>)
    requires Listed(m)
    ensures Listed(Unregister(m, id, out))
  {
    if out != [] {
      UnregisterListed(m, id, out[..|out| - 1]);
      PullListed(Unregister(m, id, out[..|out| - 1]), out[|out| - 1], id);
    }
  }

  // ---- Agreement is kept

  lemma EmptyAgrees()
    ensures Agrees(EMPTY)
  {
    forall t ensures IdsOfType(map[], 1, t) == [] && LinksTo(map[], 1, t) == [] {
      assert IdsOfType(map[], 0, t) == [] && LinksTo(map[], 0, t) == [];
    }
  }

  lemma AgreesLater(s: Store, n: nat, m: nat)
    requires AgreesBelow(s, n) && n <= m
    ensures AgreesBelow(s, m)
  {
    forall k
      ensures IdsOfType(s.byId, m, k) == IdsOfType(s.byId, n, k) && LinksTo(s.byId, m, k) == LinksTo(s.byId, n, k) {
      ScansEnd(s.byId, n, m, k);
    }
  }

  /** A new atom's scans: one more id of its type, and of each member. */
  lemma ScansWithNew(b: map<nat, Atom>, n: nat, a: Atom, k: nat)
    requires IdsOk(b, n)
    ensures IdsOfType(b[n := a], n + 1, k) == IdsOfType(b, n, k) + if Code(a.shape.kind) == k then [n] else []
    ensures LinksTo(b[n := a], n + 1, k) == LinksTo(b, n, k) + Repeat(n, Count(a.shape.out, k))
  {
    SameScans(b, b[n := a], n, k);
  }

  lemma TypesWithNew(b: map<nat, Atom>, n: nat, a: Atom, index: map<nat, seq<nat>>)
    requires IdsOk(b, n) && TypesAgree(b, n, index)
    ensures TypesAgree(b[n := a], n + 1, Push(index, Code(a.shape.kind), n))
  {
    forall t ensures At(Push(index, Code(a.shape.kind), n), t) == IdsOfType(b[n := a], n + 1, t) {
      ScansWithNew(b, n, a, t);
      assert At(index, t) == IdsOfType(b, n, t);
    }
  }

  lemma IncomingWithNew(b: map<nat, Atom>, n: nat, a: Atom, index: map<nat, seq<nat>>)
    requires IdsOk(b, n) && IncomingAgrees(b, n, index)
    ensures IncomingAgrees(b[n := a], n + 1, Register(index, n, a.shape.out))
  {
    var r := Register(index, n, a.shape.out);
    forall m | m != 0 ensures At(r, m) == LinksTo(b[n := a], n + 1, m) {
      ScansWithNew(b, n, a, m);
      Registered(index, n, a.shape.out, m);
      assert At(index, m) == LinksTo(b, n, m);
    }
    RegisterListed(index, n, a.shape.out);
  }

  lemma NodesWithNew(b: map<nat, Atom>, n: nat, a: Atom, index: map<string, nat>)
    requires n !in b && NodesAgree(b, index)
    requires IsNode(a.shape) ==> NodeKeyOf(a.shape) !in index
    ensures NodesAgree(b[n := a], if IsNode(a.shape) then index[NodeKeyOf(a.shape) := n] else index)
  {
  }

  lemma LinksWithNew(b: map<nat, Atom>, n: nat, a: Atom, index: map<string, nat>)
    requires n !in b && LinksAgree(b, index)
    requires !IsNode(a.shape) ==> LinkKeyOf(a.shape) !in index
    ensures LinksAgree(b[n := a], if IsNode(a.shape) then index else index[LinkKeyOf(a.shape) := n])
  {
  }

  lemma InsertNodeAgrees(s: Store, n: nat, a: Atom)
    requires AgreesBelow(s, n) && IsNode(a.shape) && NodeKeyOf(a.shape) !in s.nodeIndex
    ensures AgreesBelow(InsertNode(s, n, a), n + 1)
  {
    assert n !in s.byId;
    TypesWithNew(s.byId, n, a, s.typeIndex);
    IncomingWithNew(s.byId, n, a, s.incoming);
    NodesWithNew(s.byId, n, a, s.nodeIndex);
    LinksWithNew(s.byId, n, a, s.linkIndex);
  }

  lemma InsertLinkAgrees(s: Store, n: nat, a: Atom)
    requires AgreesBelow(s, n) && !IsNode(a.shape) && LinkKeyOf(a.shape) !in s.linkIndex
    requires forall m :: m in a.shape.out ==> m < n
    ensures AgreesBelow(InsertLink(s, n, a), n + 1)
  {
    assert n !in s.byId;
    TypesWithNew(s.byId, n, a, s.typeIndex);
    IncomingWithNew(s.byId, n, a, s.incoming);
    NodesWithNew(s.byId, n, a, s.nodeIndex);
    LinksWithNew(s.byId, n, a, s.linkIndex);
  }

  lemma AddNodeAgrees(s: Store, t: AtomType, name: string)
    requires Agrees(s)
    ensures Agrees(AddNode(s, t, name).0)
  {
    var a := Atom(Shape(t, name, []), FRESH);
    if NodeKeyOf(a.shape) !in s.nodeIndex { InsertNodeAgrees(s, s.nextId, a); }
  }

  /** Adding a link keeps the agreement exactly when the link has a member. */
  lemma AddLinkAgreesIff(s: Store, t: AtomType, out: seq<nat>)
    requires Agrees(s) && forall m :: m in out ==> m < s.nextId
    ensures Agrees(AddLink(s, t, out).0) <==> out != []
  {
    var a := Atom(Shape(t, "", out), FRESH);
    var r := AddLink(s, t, out).0;
    if LinkKeyOf(a.shape) in s.linkIndex {
      var b := s.byId[s.linkIndex[LinkKeyOf(a.shape)]].shape;
      LinkKeyInjective(Code(b.kind), b.out, Code(t), out);
    } else if out != [] {
      InsertLinkAgrees(s, s.nextId, a);
    } else {
      assert !LinksAgree(r.byId, r.linkIndex) by { assert r.linkIndex[LinkKeyOf(a.shape)] == s.nextId; }
    }
  }

  // ---- Lookups say what a scan says

  lemma GetNodeIsScan(s: Store, t: AtomType, name: string, id: nat)
    requires Agrees(s)
    ensures GetNode(s, t, name) == Found(id)
       <==> id in s.byId && IsNode(s.byId[id].shape) && s.byId[id].shape.kind == t && s.byId[id].shape.name == name
  {
    var k := NodeKey(Code(t), name);
    if k in s.nodeIndex {
      var a := s.byId[s.nodeIndex[k]].shape;
      NodeKeyInjective(Code(a.kind), a.name, Code(t), name);
      CodeInjective(a.kind, t);
    }
  }

  lemma GetLinkIsScan(s: Store, t: AtomType, out: seq<nat>, id: nat)
    requires Agrees(s) && out != []
    ensures GetLink(s, t, out) == Found(id)
       <==> id in s.byId && s.byId[id].shape.kind == t && s.byId[id].shape.out == out
  {
    var k := LinkKey(Code(t), out);
    if k in s.linkIndex {
      var a := s.byId[s.linkIndex[k]].shape;
      LinkKeyInjective(Code(a.kind), a.out, Code(t), out);
      CodeInjective(a.kind, t);
    }
  }

  /** No two live atoms are the same node or the same link. */
  lemma NoTwins(s: Store, i: nat, j: nat)
    requires Agrees(s) && i in s.byId && j in s.byId
    requires var a, b := s.byId[i].shape, s.byId[j].shape;
             a.kind == b.kind && a.out == b.out && (IsNode(a) ==> a.name == b.name)
    ensures i == j
  {
  }

  lemma GetByTypeIsScan(s: Store, t: AtomType, id: nat)
    requires Agrees(s)
    ensures GetByType(s, t) == IdsOfType(s.byId, s.nextId, Code(t))
    ensures id in GetByType(s, t) <==> id in s.byId && s.byId[id].shape.kind == t
  {
    IdsOfTypeIs(s.byId, s.nextId, Code(t), id);
    if id in s.byId && Code(s.byId[id].shape.kind) == Code(t) { CodeInjective(s.byId[id].shape.kind, t); }
  }

  lemma {:induction false} LiveAll(s: Store, v: seq<nat>)
    requires forall i :: 0 <= i < |v| ==> v[i] in s.byId
    ensures Live(s, v) == v
  {
    if v != [] {
      LiveAll(s, v[..|v| - 1]);
      assert v[|v| - 1] in s.byId;
      assert v == v[..|v| - 1] + [v[|v| - 1]];
    }
  }

  lemma GetIncomingIsScan(s: Store, h: Handle, id: nat)
    requires Agrees(s) && h != Null && h.id != 0
    ensures GetIncoming(s, h) == LinksTo(s.byId, s.nextId, h.id)
    ensures id in GetIncoming(s, h) <==> id in s.byId && h.id in s.byId[id].shape.out
  {
    var v := LinksTo(s.byId, s.nextId, h.id);
    assert At(s.incoming, h.id) == v;
    forall i | 0 <= i < |v| ensures v[i] in s.byId { LinksToIs(s.byId, s.nextId, h.id, v[i]); }
    LiveAll(s, v);
    LinksToIs(s.byId, s.nextId, h.id, id);
  }

  // ---- Removing

  /** A handle that this store gave out: its atom is live, or gone for good. */
  predicate Issued(s: Store, h: Handle) {
    h != Null && 0 < h.id < s.nextId && (h.id in s.byId ==> s.byId[h.id].shape == h.shape)
  }

  lemma TypesWithout(b: map<nat, Atom>, n: nat, h: Handle, index: map<nat, seq<nat>>)
    requires h != Null && (h.id in b ==> b[h.id].shape == h.shape) && TypesAgree(b, n, index)
    ensures TypesAgree(b - {h.id}, n, Pull(index, Code(h.shape.kind), h.id))
  {
    var c := Code(h.shape.kind);
    forall t ensures At(Pull(index, c, h.id), t) == IdsOfType(b - {h.id}, n, t) {
      PulledAt(index, c, h.id);
      IdsWithout(b, n, t, h.id);
      IdsOfTypeIs(b, n, t, h.id);
      if t != c { WithoutAbsent(IdsOfType(b, n, t), h.id); }
    }
  }

  lemma IncomingWithout(b: map<nat, Atom>, n: nat, h: Handle, index: map<nat, seq<nat>>)
    requires h != Null && (h.id in b ==> b[h.id].shape == h.shape) && IncomingAgrees(b, n, index)
    ensures IncomingAgrees(b - {h.id}, n, Unregister(index, h.id, h.shape.out))
  {
    var r := Unregister(index, h.id, h.shape.out);
    forall m | m != 0 ensures At(r, m) == LinksTo(b - {h.id}, n, m) {
      Unregistered(index, h.id, h.shape.out, m);
      LinksWithout(b, n, m, h.id);
      LinksToIs(b, n, m, h.id);
      assert At(index, m) == LinksTo(b, n, m);
      if m !in h.shape.out { WithoutAbsent(LinksTo(b, n, m), h.id); }
    }
    UnregisterListed(index, h.id, h.shape.out);
  }

  /** Another live atom with the handle's key. */
  predicate Replaced(s: Store, h: Handle)
    requires h != Null
  {
    if IsNode(h.shape) then GetNode(s, h.shape.kind, h.shape.name) != Missing
    else GetLink(s, h.shape.kind, h.shape.out) != Missing
  }

  lemma NodesWithout(b: map<nat, Atom>, index: map<string, nat>, h: Handle)
    requires h != Null && NodesAgree(b, index) && (h.id in b ==> b[h.id].shape == h.shape)
    ensures var k := NodeKeyOf(h.shape);
            NodesAgree(b - {h.id}, if IsNode(h.shape) then index - {k} else index)
            <==> h.id in b || !(IsNode(h.shape) && k in index)
  {
    var k := NodeKeyOf(h.shape);
    if h.id !in b && IsNode(h.shape) && k in index {
      assert index[k] in b - {h.id};
    }
  }

  lemma LinksWithoutOne(b: map<nat, Atom>, index: map<string, nat>, h: Handle)
    requires h != Null && LinksAgree(b, index) && (h.id in b ==> b[h.id].shape == h.shape)
    ensures var k := LinkKeyOf(h.shape);
            LinksAgree(b - {h.id}, if IsNode(h.shape) then index else index - {k})
            <==> h.id in b || !(!IsNode(h.shape) && k in index)
  {
    var k := LinkKeyOf(h.shape);
    if h.id !in b && !IsNode(h.shape) && k in index {
      assert index[k] in b - {h.id};
    }
  }

  /**
   Removing through a handle keeps the indexes right exactly when its atom is live or no later atom took its key: a
   second removal through an old handle hides the atom that replaced it.
   */
  lemma RemoveAgreesIff(s: Store, h: Handle)
    requires Agrees(s) && Issued(s, h)
    ensures Agrees(Remove(s, h)) <==> h.id in s.byId || !Replaced(s, h)
  {
    TypesWithout(s.byId, s.nextId, h, s.typeIndex);
    IncomingWithout(s.byId, s.nextId, h, s.incoming);
    NodesWithout(s.byId, s.nodeIndex, h);
    LinksWithoutOne(s.byId, s.linkIndex, h);
  }

  lemma SameShapesAgree(s: Store, r: Store, n: nat)
    requires AgreesBelow(s, n) && r == s.(byId := r.byId, nextId := r.nextId) && r.byId.Keys == s.byId.Keys
    requires forall i :: i in s.byId ==> r.byId[i].shape == s.byId[i].shape
    ensures AgreesBelow(r, n)
  {
    forall k
      ensures IdsOfType(r.byId, n, k) == IdsOfType(s.byId, n, k) && LinksTo(r.byId, n, k) == LinksTo(s.byId, n, k) {
      SameScans(r.byId, s.byId, n, k);
    }
  }

  // ---- Runs

  datatype Op =
    | AddNodeOp(t: AtomType, name: string)
    | AddLinkOp(t: AtomType, out: seq<nat>)
    | RemoveOp(h: Handle)
    | SetOp(h: Handle, nums: Numbers)
    | ClearOp

  function Apply(s: Store, op: Op): Store {
    match op
    case AddNodeOp(t, name) => AddNode(s, t, name).0
    case AddLinkOp(t, out) => AddLink(s, t, out).0
    case RemoveOp(h) => Remove(s, h)
    case SetOp(h, nums) => SetNumbers(s, h, nums)
    case ClearOp => EMPTY
  }

  /** Links have members, which the store gave out; an atom is removed through a handle only while it is live. */
  predicate Legal(s: Store, op: Op) {
    match op
    case AddLinkOp(_, out) => out != [] && forall m :: m in out ==> m < s.nextId
    case RemoveOp(h) => h == Null || (Issued(s, h) && h.id in s.byId)
    case _ => true
  }

  function Run(ops: seq<Op>): Store {
    if ops == [] then EMPTY else Apply(Run(ops[..|ops| - 1]), ops[|ops| - 1])
  }

  predicate LegalRun(ops: seq<Op>) {
    ops == [] || (LegalRun(ops[..|ops| - 1]) && Legal(Run(ops[..|ops| - 1]), ops[|ops| - 1]))
  }

  lemma SetAgrees(s: Store, h: Handle, nums: Numbers)
    requires Agrees(s)
    ensures Agrees(SetNumbers(s, h, nums))
  {
    if h != Null && h.id in s.byId {
      ReplacedAgrees(s, h.id, s.byId[h.id].(nums := nums));
    }
  }

  lemma ReplacedAgrees(s: Store, id: nat, a: Atom)
    requires Agrees(s) && id in s.byId && a.shape == s.byId[id].shape
    ensures Agrees(s.(byId := s.byId[id := a]))
  {
    SameShapesAgree(s, s.(byId := s.byId[id := a]), s.nextId);
  }

  lemma ApplyAgrees(s: Store, op: Op)
    requires Agrees(s) && Legal(s, op)
    ensures Agrees(Apply(s, op))
  {
    match op
    case AddNodeOp(t, name) => AddNodeAgrees(s, t, name);
    case AddLinkOp(t, out) => AddLinkAgreesIff(s, t, out);
    case RemoveOp(h) => if h != Null { RemoveAgreesIff(s, h); }
    case SetOp(h, nums) => SetAgrees(s, h, nums);
    case ClearOp => EmptyAgrees();
  }

  /** After every legal run the indexes say what a scan of the atoms says. */
  lemma {:induction false} RunAgrees(ops: seq<Op>)
    requires LegalRun(ops)
    ensures Agrees(Run(ops))
  {
    if ops == [] {
      EmptyAgrees();
    } else {
      RunAgrees(ops[..|ops| - 1]);
      ApplyAgrees(Run(ops[..|ops| - 1]), ops[|ops| - 1]);
    }
  }

  lemma RunAppend(ops: seq<Op>, op: Op)
    requires LegalRun(ops) && Legal(Run(ops), op)
    ensures LegalRun(ops + [op]) && Run(ops + [op]) == Apply(Run(ops), op)
  {
    assert (ops + [op])[..|ops|] == ops;
  }

  /** Adding a node, removing it and adding it again are legal; removing it through the first handle hides it. */
  lemma OldHandleHides(t: AtomType, name: string) returns (ops: seq<Op>, h: Handle)
    ensures LegalRun(ops) && h != Null && Issued(Run(ops), h) && GetNode(Run(ops), t, name) == Found(2)
    ensures var s := Remove(Run(ops), h); !Agrees(s) && 2 in s.byId && GetNode(s, t, name) == Missing
  {
    var add, one := AddNodeOp(t, name), Shape(t, name, []);
    h := Handle(1, one);
    RunAppend([], add);
    assert Run([] + [add]).byId == map[1 := Atom(one, FRESH)];
    RunAppend([] + [add], RemoveOp(h));
    var s := Run([] + [add] + [RemoveOp(h)]);
    assert s.byId == map[] && s.nodeIndex == map[] && s.nextId == 2;
    RunAppend([] + [add] + [RemoveOp(h)], add);
    ops := [] + [add] + [RemoveOp(h)] + [add];
    assert Run(ops).byId == map[2 := Atom(one, FRESH)];
    RunAgrees(ops);
    RemoveAgreesIff(Run(ops), h);
  }

  // ---- Dangling members

  /** Every member of every atom is live. */
  predicate Whole(b: map<nat, Atom>) {
    forall id :: id in b ==> forall m :: m in b[id].shape.out ==> m in b
  }

  /** Removing a live atom leaves no link dangling exactly when no link contains it. */
  lemma RemoveWholeIff(s: Store, h: Handle)
    requires Agrees(s) && Issued(s, h) && h.id in s.byId && Whole(s.byId)
    ensures Whole(Remove(s, h).byId) <==> GetIncoming(s, h) == []
  {
    var v, b := GetIncoming(s, h), Remove(s, h).byId;
    if v != [] {
      GetIncomingIsScan(s, h, v[0]);
      assert v[0] in b && h.id in b[v[0]].shape.out;
    } else if !Whole(b) {
      var id, m :| id in b && m in b[id].shape.out && m !in b;
      GetIncomingIsScan(s, h, id);
    }
  }

  lemma AddLinkWholeIff(s: Store, t: AtomType, out: seq<nat>)
    requires Agrees(s) && Whole(s.byId) && out != [] && forall m :: m in out ==> m < s.nextId
    ensures Whole(AddLink(s, t, out).0.byId) <==> forall m :: m in out ==> m in s.byId
  {
    var (r, id) := AddLink(s, t, out);
    if LinkKey(Code(t), out) in s.linkIndex {
      GetLinkIsScan(s, t, out, id);
    } else {
      assert r.byId[id].shape.out == out;
    }
  }
}
