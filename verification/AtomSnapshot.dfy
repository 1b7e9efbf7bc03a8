/**
 Saving the store as a list of records in id order, and loading it back. Numbers go through the stream's printing,
 which is a parameter: it may round.
 */
module AtomSnapshot {
  import opened AtomKeys
  import opened AtomStore

  type Printing = real -> real

  /** A line of a snapshot; a node's line holds its quoted name between blanks. */
  datatype Record =
    | NextIdRecord(n: nat)
    | NodeRecord(id: nat, kind: AtomType, text: string, nums: Numbers)
    | LinkRecord(id: nat, kind: AtomType, out: seq<nat>, nums: Numbers)

  function PrintedNumbers(p: Printing, x: Numbers): Numbers {
    Numbers(p(x.strength), p(x.confidence), p(x.sti), p(x.lti))
  }

  function RecordOf(id: nat, a: Atom, p: Printing): Record {
    if IsNode(a.shape) then NodeRecord(id, a.shape.kind, " " + QuoteName(a.shape.name) + " ", PrintedNumbers(p, a.nums))
    else LinkRecord(id, a.shape.kind, a.shape.out, PrintedNumbers(p, a.nums))
  }

  /** The records of the atoms with ids below n, in id order. */
  function RecordsBelow(b: map<nat, Atom>, n: nat, p: Printing): seq<Record> {
    if n == 0 then [] else RecordsBelow(b, n - 1, p) + if n - 1 in b then [RecordOf(n - 1, b[n - 1], p)] else []
  }

  function SaveBelow(s: Store, n: nat, p: Printing): seq<Record> {
    [NextIdRecord(s.nextId)] + RecordsBelow(s.byId, n, p)
  }

  /** One past the greatest of the ids. */
  ghost function IdsEnd(ids: set<nat>): (n: nat)
    ensures forall id :: id in ids ==> id < n
    ensures n == 0 || n - 1 in ids
  {
    if ids == {} then 0
    else
      var x :| x in ids;
      var n := IdsEnd(ids - {x});
      assert ids == (ids - {x}) + {x};
      if x < n then n else x + 1
  }

  /** The atoms in id order, after the next id. */
  ghost function Save(s: Store, p: Printing): seq<Record> {
    SaveBelow(s, IdsEnd(s.byId.Keys), p)
  }

  lemma {:induction false} RecordsEnd(b: map<nat, Atom>, n: nat, m: nat, p: Printing)
    requires n <= m && forall id :: id in b ==> id < n
    ensures RecordsBelow(b, m, p) == RecordsBelow(b, n, p)
  {
    if n < m {
      RecordsEnd(b, n, m - 1, p);
      assert m - 1 !in b;
    }
  }

  /** Any bound on the ids gives the same records. */
  lemma SaveIs(s: Store, n: nat, p: Printing)
    requires forall id :: id in s.byId ==> id < n
    ensures Save(s, p) == SaveBelow(s, n, p)
  {
    RecordsEnd(s.byId, IdsEnd(s.byId.Keys), n, p);
  }

  datatype Loaded = Loaded(ok: bool, store: Store)

  /** Loading one record; it fails at a link with a member that no earlier record has. */
  function LoadRecord(s: Store, r: Record): Loaded {
    match r
    case NextIdRecord(n) => Loaded(true, s.(nextId := n))
    case NodeRecord(id, kind, text, nums) =>
      Loaded(true, InsertNode(s, id, Atom(Shape(kind, Unquote(text).0, []), nums)))
    case LinkRecord(id, kind, out, nums) =>
      if forall i :: 0 <= i < |out| ==> out[i] in s.byId then
        Loaded(true, InsertLink(s, id, Atom(Shape(kind, "", out), nums)))
      else Loaded(false, s)
  }

  function Load(rs: seq<Record>): Loaded {
    if rs == [] then Loaded(true, EMPTY)
    else
      var l := Load(rs[..|rs| - 1]);
      if l.ok then LoadRecord(l.store, rs[|rs| - 1]) else l
  }

  lemma {:induction false} FailureSticks(rs: seq<Record>, n: nat)
    requires n <= |rs| && !Load(rs[..n]).ok
    ensures Load(rs) == Load(rs[..n])
  {
    if n < |rs| {
      assert rs[..|rs| - 1][..n] == rs[..n];
      FailureSticks(rs[..|rs| - 1], n);
    } else {
      assert rs[..n] == rs;
    }
  }

  lemma LoadMore(rs: seq<Record>, r: Record)
    ensures Load(rs + [r]) == if Load(rs).ok then LoadRecord(Load(rs).store, r) else Load(rs)
  {
    assert (rs + [r])[..|rs + [r]| - 1] == rs;
  }

  /** A name's line has no line break in it, so a record is one line of the file. */
  lemma {:induction false} QuotedIsOneLine(s: string)
    ensures '\n' !in QuoteBody(s)
  {
    if s != [] { QuotedIsOneLine(s[1..]); }
  }

  /** The atoms as they come back: with their numbers as printed, and links without a name. */
  function PrintedAtom(a: Atom, p: Printing): Atom {
    Atom(if IsNode(a.shape) then a.shape else a.shape.(name := ""), PrintedNumbers(p, a.nums))
  }

  function Printed(s: Store, p: Printing): Store {
    s.(byId := map id | id in s.byId :: PrintedAtom(s.byId[id], p))
  }

  /** Links have no names. */
  predicate Unnamed(b: map<nat, Atom>) {
    forall id :: id in b && !IsNode(b[id].shape) ==> b[id].shape.name == ""
  }

  // ---- Loading what was saved

  /** The members of the atoms with ids below n are live. */
  predicate WholeBelow(b: map<nat, Atom>, n: nat) {
    forall id :: id in b && id < n ==> forall m :: m in b[id].shape.out ==> m in b
  }

  /** The atoms with ids below n, with their numbers as printed. */
  ghost predicate Restored(b: map<nat, Atom>, n: nat, p: Printing, c: map<nat, Atom>) {
    && (forall i :: i in c <==> i in b && i < n)
    && (forall i :: i in c ==> c[i] == PrintedAtom(b[i], p))
  }

  /** What has been loaded after the records of the atoms with ids below n. */
  ghost predicate LoadedBelow(s: Store, n: nat, p: Printing, r: Store) {
    r.nextId == s.nextId && AgreesBelow(r, n + 1) && Restored(s.byId, n, p, r.byId)
  }

  lemma RestoredNode(id: nat, a: Atom, p: Printing, r: Store)
    requires IsNode(a.shape)
    ensures LoadRecord(r, RecordOf(id, a, p)) == Loaded(true, InsertNode(r, id, PrintedAtom(a, p)))
  {
    QuoteRoundTrip(" ", a.shape.name, " ");
  }

  lemma NewNodeKey(b: map<nat, Atom>, index: map<string, nat>, n: nat, p: Printing, c: map<nat, Atom>,
                   seen: map<string, nat>)
    requires NodesAgree(b, index) && NodesAgree(c, seen) && Restored(b, n, p, c) && n in b && IsNode(b[n].shape)
    ensures NodeKeyOf(b[n].shape) !in seen
  {
  }

  lemma NewLinkKey(b: map<nat, Atom>, index: map<string, nat>, n: nat, p: Printing, c: map<nat, Atom>,
                   seen: map<string, nat>)
    requires LinksAgree(b, index) && LinksAgree(c, seen) && Restored(b, n, p, c) && n in b && !IsNode(b[n].shape)
    ensures LinkKeyOf(b[n].shape) !in seen
  {
  }

  lemma RestoredMore(b: map<nat, Atom>, n: nat, p: Printing, c: map<nat, Atom>)
    requires Restored(b, n, p, c) && n in b
    ensures n !in c && Restored(b, n + 1, p, c[n := PrintedAtom(b[n], p)])
  {
  }

  lemma LoadNode(s: Store, n: nat, p: Printing, r: Store)
    requires Agrees(s) && n in s.byId && LoadedBelow(s, n, p, r) && IsNode(s.byId[n].shape)
    ensures LoadedBelow(s, n + 1, p, InsertNode(r, n, PrintedAtom(s.byId[n], p)))
  {
    var a := PrintedAtom(s.byId[n], p);
    assert a.shape.out == s.byId[n].shape.out && n !in r.byId;
    NewNodeKey(s.byId, s.nodeIndex, n, p, r.byId, r.nodeIndex);
    AgreesAt(r, n);
    InsertNodeAgrees(r, n, a);
    AgreesLater(InsertNode(r, n, a), n + 1, n + 2);
    RestoredMore(s.byId, n, p, r.byId);
  }

  lemma LoadLink(s: Store, n: nat, p: Printing, r: Store)
    requires Agrees(s) && n in s.byId && LoadedBelow(s, n, p, r) && !IsNode(s.byId[n].shape)
    ensures LoadedBelow(s, n + 1, p, InsertLink(r, n, PrintedAtom(s.byId[n], p)))
  {
    var a := PrintedAtom(s.byId[n], p);
    assert a.shape.out == s.byId[n].shape.out && n !in r.byId;
    NewLinkKey(s.byId, s.linkIndex, n, p, r.byId, r.linkIndex);
    AgreesAt(r, n);
    InsertLinkAgrees(r, n, a);
    AgreesLater(InsertLink(r, n, a), n + 1, n + 2);
    RestoredMore(s.byId, n, p, r.byId);
  }

  /** Loading the next atom of a saved store works exactly when its members are live. */
  ghost predicate Continues(s: Store, n: nat, p: Printing, l: Loaded) {
    && (l.ok <==> WholeBelow(s.byId, n))
    && (l.ok ==> LoadedBelow(s, n, p, l.store))
  }

  lemma RestoredLink(s: Store, n: nat, p: Printing, r: Store)
    requires IdsOk(s.byId, s.nextId) && Unnamed(s.byId) && n in s.byId && Restored(s.byId, n, p, r.byId)
    requires !IsNode(s.byId[n].shape)
    ensures var l, out := LoadRecord(r, RecordOf(n, s.byId[n], p)), s.byId[n].shape.out;
            && (l.ok <==> forall m :: m in out ==> m in s.byId)
            && (l.ok ==> l.store == InsertLink(r, n, PrintedAtom(s.byId[n], p)))
  {
    var out := s.byId[n].shape.out;
    assert forall m :: m in out ==> (m in r.byId <==> m in s.byId);
    assert (forall i :: 0 <= i < |out| ==> out[i] in r.byId) <==> (forall m :: m in out ==> m in r.byId);
  }

  lemma WholeMore(b: map<nat, Atom>, n: nat)
    requires n in b
    ensures WholeBelow(b, n + 1) <==> WholeBelow(b, n) && forall m :: m in b[n].shape.out ==> m in b
  {
  }

  lemma LoadAtom(s: Store, n: nat, p: Printing, r: Store)
    requires Agrees(s) && Unnamed(s.byId) && n in s.byId && LoadedBelow(s, n, p, r) && WholeBelow(s.byId, n)
    ensures Continues(s, n + 1, p, LoadRecord(r, RecordOf(n, s.byId[n], p)))
  {
    WholeMore(s.byId, n);
    if IsNode(s.byId[n].shape) {
      RestoredNode(n, s.byId[n], p, r);
      LoadNode(s, n, p, r);
    } else {
      RestoredLink(s, n, p, r);
      LoadLink(s, n, p, r);
    }
  }

  lemma AgreesAt(r: Store, n: nat)
    requires n > 0 && AgreesBelow(r, n + 1) && n !in r.byId
    ensures AgreesBelow(r, n)
  {
    forall k
      ensures IdsOfType(r.byId, n + 1, k) == IdsOfType(r.byId, n, k)
      ensures LinksTo(r.byId, n + 1, k) == LinksTo(r.byId, n, k) {}
  }

  lemma SaveMore(s: Store, n: nat, p: Printing)
    ensures SaveBelow(s, n + 1, p) == SaveBelow(s, n, p) + if n in s.byId then [RecordOf(n, s.byId[n], p)] else []
  {
  }

  /** What the records of the atoms with ids below n load as. */
  function Reloaded(s: Store, n: nat, p: Printing): Loaded {
    Load(SaveBelow(s, n, p))
  }

  lemma LoadBelow(s: Store, n: nat, p: Printing)
    requires Agrees(s) && Unnamed(s.byId) && n <= s.nextId
    ensures Continues(s, n, p, Reloaded(s, n, p))
  {
    LoadHead(s, p);
    for i := 0 to n
      invariant Continues(s, i, p, Reloaded(s, i, p))
    {
      LoadNext(s, i, p);
    }
  }

  lemma LoadNext(s: Store, n: nat, p: Printing)
    requires Agrees(s) && Unnamed(s.byId) && n < s.nextId && Continues(s, n, p, Reloaded(s, n, p))
    ensures Continues(s, n + 1, p, Reloaded(s, n + 1, p))
  {
    var rs := SaveBelow(s, n, p);
    SaveMore(s, n, p);
    if n in s.byId {
      var r := RecordOf(n, s.byId[n], p);
      LoadMore(rs, r);
      WholeMore(s.byId, n);
      if Load(rs).ok { LoadAtom(s, n, p, Load(rs).store); }
    } else {
      assert rs + [] == rs;
      LoadNothing(s, n, p, Load(rs));
    }
  }

  lemma LoadHead(s: Store, p: Printing)
    ensures Continues(s, 0, p, Reloaded(s, 0, p))
  {
    var rs := [NextIdRecord(s.nextId)];
    assert SaveBelow(s, 0, p) == rs && rs[..0] == [];
    assert Load(rs) == Loaded(true, EMPTY.(nextId := s.nextId));
    EmptyAgrees();
    SameShapesAgree(EMPTY, EMPTY.(nextId := s.nextId), 1);
  }

  lemma LoadNothing(s: Store, n: nat, p: Printing, l: Loaded)
    requires Continues(s, n, p, l) && n !in s.byId
    ensures Continues(s, n + 1, p, l)
  {
    if l.ok { AgreesLater(l.store, n + 1, n + 2); }
  }

  /** The indexes are determined by the atoms. */
  lemma IndexesAreDetermined(s: Store, r: Store, n: nat)
    requires AgreesBelow(s, n) && AgreesBelow(r, n) && s.byId == r.byId
    ensures s.nodeIndex == r.nodeIndex && s.linkIndex == r.linkIndex
    ensures s.typeIndex == r.typeIndex && s.incoming == r.incoming
  {
    assert forall k :: k in s.nodeIndex ==> k in r.nodeIndex && r.nodeIndex[k] == s.nodeIndex[k];
    assert forall k :: k in r.nodeIndex ==> k in s.nodeIndex;
    assert forall k :: k in s.linkIndex ==> k in r.linkIndex && r.linkIndex[k] == s.linkIndex[k];
    assert forall k :: k in r.linkIndex ==> k in s.linkIndex;
    SameLists(s.typeIndex, r.typeIndex);
    SameLists(s.incoming, r.incoming);
  }

  lemma SameLists(s: map<nat, seq<nat>>, r: map<nat, seq<nat>>)
    requires forall k :: At(s, k) == At(r, k)
    requires forall k :: (k in s ==> s[k] != []) && (k in r ==> r[k] != [])
    ensures s == r
  {
    forall k ensures k in s <==> k in r { assert At(s, k) == At(r, k); }
    forall k | k in s ensures s[k] == r[k] { assert At(s, k) == At(r, k); }
  }

  /**
   Loading what was saved: it succeeds exactly when no link has a removed or null member, and then gives the same
   store, the same ids and indexes included, with its numbers as printed.
   */
  lemma RoundTrip(s: Store, p: Printing)
    requires Agrees(s) && Unnamed(s.byId)
    ensures Load(Save(s, p)).ok <==> Whole(s.byId)
    ensures Whole(s.byId) ==> Load(Save(s, p)).store == Printed(s, p)
  {
    LoadBelow(s, s.nextId, p);
    SaveIs(s, s.nextId, p);
    if Whole(s.byId) {
      PrintedIsLoaded(s, p, Load(Save(s, p)).store);
    }
  }

  lemma PrintedAgrees(s: Store, p: Printing)
    requires Agrees(s) && Unnamed(s.byId)
    ensures AgreesBelow(Printed(s, p), s.nextId + 1)
  {
    var t := Printed(s, p);
    assert forall i :: i in s.byId ==> t.byId[i].shape == s.byId[i].shape;
    SameShapesAgree(s, t, s.nextId);
    AgreesLater(t, s.nextId, s.nextId + 1);
  }

  lemma PrintedIsLoaded(s: Store, p: Printing, r: Store)
    requires Agrees(s) && LoadedBelow(s, s.nextId, p, r) && Unnamed(s.byId)
    ensures r == Printed(s, p)
  {
    assert r.byId == Printed(s, p).byId by { assert IdsOk(s.byId, s.nextId); }
    PrintedAgrees(s, p);
    IndexesAreDetermined(r, Printed(s, p), s.nextId + 1);
  }

  lemma {:induction false} RunUnnamed(ops: seq<Op>)
    requires LegalRun(ops)
    ensures Unnamed(Run(ops).byId)
  {
    if ops != [] {
      RunUnnamed(ops[..|ops| - 1]);
    }
  }

  /** With exact printing, every store that a legal run leaves whole survives a save and a load unchanged. */
  lemma RunRoundTrip(ops: seq<Op>)
    requires LegalRun(ops) && Whole(Run(ops).byId)
    ensures Load(Save(Run(ops), x => x)) == Loaded(true, Run(ops))
  {
    RunAgrees(ops);
    RunUnnamed(ops);
    RoundTrip(Run(ops), x => x);
    ExactIsSame(Run(ops), x => x);
  }

  lemma ExactIsSame(s: Store, p: Printing)
    requires Unnamed(s.byId) && forall x :: p(x) == x
    ensures Printed(s, p) == s
  {
    assert Printed(s, p).byId == s.byId;
  }
}
