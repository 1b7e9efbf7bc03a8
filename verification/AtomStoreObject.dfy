/** The store as the program keeps it: six fields that each operation updates in place. */
module AtomStoreObject {
  import opened AtomKeys
  import opened S = AtomStore
  import opened AtomSnapshot

  lemma TakeMore<T>(v: seq<T>, i: nat)
    requires i < |v|
    ensures v[..i + 1] == v[..i] + [v[i]] && v[..i + 1][..i] == v[..i]
  {
  }

  /** Erases every occurrence of an id from a list. */
  method Erase(v: seq<nat>, x: nat) returns (r: seq<nat>)
    ensures r == Without(v, x)
  {
    r := [];
    for i := 0 to |v|
      invariant r == Without(v[..i], x)
    {
      TakeMore(v, i);
      if v[i] != x { r := r + [v[i]]; }
    }
    assert v[..|v|] == v;
  }

  class AtomStore {
    var nextId: nat
    var byId: map<nat, Atom>
    var nodeIndex: map<string, nat>
    var linkIndex: map<string, nat>
    var incoming: map<nat, seq<nat>>
    var typeIndex: map<nat, seq<nat>>

    function State(): Store
      reads this
    {
      Store(nextId, byId, nodeIndex, linkIndex, incoming, typeIndex)
    }

    constructor ()
      ensures State() == EMPTY
    {
      nextId, byId, nodeIndex, linkIndex, incoming, typeIndex := 1, map[], map[], map[], map[], map[];
    }

    method AddNode(t: AtomType, name: string) returns (id: nat)
      modifies this
      ensures (State(), id) == S.AddNode(old(State()), t, name)
    {
      var key := NodeKey(Code(t), name);
      if key in nodeIndex { return nodeIndex[key]; }
      id := nextId;
      nextId := nextId + 1;
      byId := byId[id := Atom(Shape(t, name, []), FRESH)];
      nodeIndex := nodeIndex[key := id];
      typeIndex := typeIndex[Code(t) := At(typeIndex, Code(t)) + [id]];
    }

    method AddLink(t: AtomType, out: seq<nat>) returns (id: nat)
      modifies this
      ensures (State(), id) == S.AddLink(old(State()), t, out)
    {
      var key := BuildLinkKey(Code(t), out);
      if key in linkIndex { return linkIndex[key]; }
      id := nextId;
      nextId := nextId + 1;
      byId := byId[id := Atom(Shape(t, "", out), FRESH)];
      linkIndex := linkIndex[key := id];
      typeIndex := typeIndex[Code(t) := At(typeIndex, Code(t)) + [id]];
      RegisterIncoming(id, out);
    }

    method RegisterIncoming(id: nat, out: seq<nat>)
      modifies this`incoming
      ensures incoming == Register(old(incoming), id, out)
    {
      for i := 0 to |out|
        invariant incoming == Register(old(incoming), id, out[..i])
      {
        TakeMore(out, i);
        if out[i] != 0 { incoming := incoming[out[i] := At(incoming, out[i]) + [id]]; }
      }
      assert out[..|out|] == out;
    }

    method UnregisterIncoming(id: nat, out: seq<nat>)
      modifies this`incoming
      ensures incoming == Unregister(old(incoming), id, out)
    {
      for i := 0 to |out|
        invariant incoming == Unregister(old(incoming), id, out[..i])
      {
        TakeMore(out, i);
        if out[i] != 0 && out[i] in incoming {
          var v := Erase(incoming[out[i]], id);
          incoming := if v == [] then incoming - {out[i]} else incoming[out[i] := v];
        }
      }
      assert out[..|out|] == out;
    }

    method GetNode(t: AtomType, name: string) returns (r: Found)
      ensures r == S.GetNode(State(), t, name)
    {
      var key := NodeKey(Code(t), name);
      r := if key in nodeIndex then Found(nodeIndex[key]) else Missing;
    }

    method GetLink(t: AtomType, out: seq<nat>) returns (r: Found)
      ensures r == S.GetLink(State(), t, out)
    {
      var key := BuildLinkKey(Code(t), out);
      r := if key in linkIndex then Found(linkIndex[key]) else Missing;
    }

    method GetByType(t: AtomType) returns (r: seq<nat>)
      ensures r == S.GetByType(State(), t)
    {
      r := if Code(t) in typeIndex then typeIndex[Code(t)] else [];
    }

    method GetIncoming(h: Handle) returns (r: seq<nat>)
      ensures r == S.GetIncoming(State(), h)
    {
      r := [];
      if h == Null || h.id !in incoming { return; }
      var v := incoming[h.id];
      for i := 0 to |v|
        invariant r == Live(State(), v[..i])
      {
        TakeMore(v, i);
        if v[i] in byId { r := r + [v[i]]; }
      }
      assert v[..|v|] == v;
    }

    method Remove(h: Handle)
      modifies this
      ensures State() == S.Remove(old(State()), h)
    {
      if h == Null { return; }
      var a := h.shape;
      if a.out != [] { UnregisterIncoming(h.id, a.out); }
      byId := byId - {h.id};
      if a.out == [] {
        nodeIndex := nodeIndex - {NodeKey(Code(a.kind), a.name)};
      } else {
        var key := BuildLinkKey(Code(a.kind), a.out);
        linkIndex := linkIndex - {key};
      }
      var c := Code(a.kind);
      if c in typeIndex {
        var v := Erase(typeIndex[c], h.id);
        typeIndex := if v == [] then typeIndex - {c} else typeIndex[c := v];
      }
    }

    method SetNumbers(h: Handle, nums: Numbers)
      modifies this`byId
      ensures State() == S.SetNumbers(old(State()), h, nums)
    {
      if h != Null && h.id in byId { byId := byId[h.id := byId[h.id].(nums := nums)]; }
    }

    method Clear()
      modifies this
      ensures State() == EMPTY
    {
      nextId, byId, nodeIndex, linkIndex, incoming, typeIndex := 1, map[], map[], map[], map[], map[];
    }

    /** A bound on the ids of the store. */
    method Bound() returns (end: nat)
      ensures forall id :: id in byId ==> id < end
    {
      end := 0;
      var rest := byId.Keys;
      while rest != {}
        invariant rest <= byId.Keys && forall id :: id in byId && id !in rest ==> id < end
        decreases |rest|
      {
        var x :| x in rest;
        if end <= x { end := x + 1; }
        rest := rest - {x};
      }
    }

    /** Writes the records in id order. */
    method SaveToFile(p: Printing) returns (rs: seq<Record>)
      ensures rs == Save(State(), p)
    {
      var end := Bound();
      SaveIs(State(), end, p);
      rs := [NextIdRecord(nextId)];
      for n := 0 to end
        invariant rs == SaveBelow(State(), n, p)
      {
        SaveMore(State(), n, p);
        if n in byId { rs := rs + [RecordOf(n, byId[n], p)]; }
      }
    }

    method AllKnown(out: seq<nat>) returns (known: bool)
      ensures known <==> forall i :: 0 <= i < |out| ==> out[i] in byId
    {
      for i := 0 to |out|
        invariant forall k :: 0 <= k < i ==> out[k] in byId
      {
        if out[i] !in byId { return false; }
      }
      known := true;
    }

    /** Replaces the contents record by record, up to a link with a member that is not there. */
    method LoadFromFile(rs: seq<Record>) returns (ok: bool)
      modifies this
      ensures Loaded(ok, State()) == Load(rs)
    {
      Clear();
      for i := 0 to |rs|
        invariant Load(rs[..i]) == Loaded(true, State())
      {
        TakeMore(rs, i);
        LoadMore(rs[..i], rs[i]);
        match rs[i] {
          case NextIdRecord(n) => nextId := n;
          case NodeRecord(id, kind, text, nums) =>
            var name, pos := ReadQuoted(text);
            byId := byId[id := Atom(Shape(kind, name, []), nums)];
            nodeIndex := nodeIndex[NodeKey(Code(kind), name) := id];
            typeIndex := typeIndex[Code(kind) := At(typeIndex, Code(kind)) + [id]];
          case LinkRecord(id, kind, out, nums) =>
            var known := AllKnown(out);
            if !known {
              FailureSticks(rs, i + 1);
              return false;
            }
            byId := byId[id := Atom(Shape(kind, "", out), nums)];
            var key := BuildLinkKey(Code(kind), out);
            linkIndex := linkIndex[key := id];
            typeIndex := typeIndex[Code(kind) := At(typeIndex, Code(kind)) + [id]];
            RegisterIncoming(id, out);
        }
      }
      assert rs[..|rs|] == rs;
      ok := true;
    }
  }
}
