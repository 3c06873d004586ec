/** The dense map behind the registry's `byRel` (codegen_registry.go, dense_map.go). */
module RegistryStore {
  import opened Prelude
  import opened RegistryIndex
  import D = DenseIndexes

  /** Path interning gives every path its own id. */
  ghost predicate Injective(id: string -> nat) {
    forall a, b {:trigger id(a), id(b)} :: id(a) == id(b) ==> a == b
  }

  /** What the registry sees of the map's value vector: slot 0 is there from the start. */
  function Visible(vals: seq<Info>): seq<Info> {
    if vals == [] then [Info("", 0, 0, None, false, 0, 0)] else vals
  }

  ghost predicate KeyedAt(id: string -> nat, keys: seq<nat>, vals: seq<Info>, i: nat)
    requires i < |keys| && |vals| == |keys| + 1
  {
    keys[i] == id(vals[i + 1].output)
  }

  /** Every record is stored under the id of its path. */
  ghost predicate Keyed(id: string -> nat, keys: seq<nat>, vals: seq<Info>) {
    |vals| == |keys| + 1 && forall i: nat {:trigger KeyedAt(id, keys, vals, i)} :: i < |keys| ==> KeyedAt(id, keys, vals, i)
  }

  /** The slots by path: what the index holds for the path's id. */
  ghost function SlotsOf(id: string -> nat, cells: seq<seq<nat>>, vals: seq<Info>): map<string, nat> {
    map s | 1 <= s < |vals| :: vals[s].output := D.SlotAt(cells, id(vals[s].output))
  }

  lemma {:induction false} SlotIsPosition(id: string -> nat, cells: seq<seq<nat>>, keys: seq<nat>, vals: seq<Info>, s: nat)
    requires D.Indexed(cells, keys) && Keyed(id, keys, vals) && 1 <= s < |vals|
    ensures D.SlotAt(cells, id(vals[s].output)) == s
  {
    var i: nat := s - 1;
    assert KeyedAt(id, keys, vals, i) && D.KeyAt(cells, keys, i);
  }

  /** A valid dense map keyed by path ids is what the registry assumes of `byRel`. */
  lemma {:induction false} StoreIsDense(id: string -> nat, cells: seq<seq<nat>>, keys: seq<nat>, vals: seq<Info>)
    requires D.Indexed(cells, keys) && Keyed(id, keys, vals)
    ensures Dense(SlotsOf(id, cells, vals), vals)
  {
    var slots := SlotsOf(id, cells, vals);
    forall s | 1 <= s < |vals|
      ensures vals[s].output in slots && slots[vals[s].output] == s
    {
      SlotIsPosition(id, cells, keys, vals, s);
    }
  }

  /** Looking a path up by its id is looking it up in the slots. */
  lemma {:induction false} LookupIsSlot(id: string -> nat, cells: seq<seq<nat>>, keys: seq<nat>, vals: seq<Info>, rel: string)
    requires Injective(id) && D.Indexed(cells, keys) && Keyed(id, keys, vals)
    ensures D.SlotAt(cells, id(rel)) == SlotOf(SlotsOf(id, cells, vals), rel)
  {
    StoreIsDense(id, cells, keys, vals);
    D.IndexedMeans(cells, keys, id(rel));
    var s := D.SlotAt(cells, id(rel));
    if s != 0 {
      var i: nat := s - 1;
      assert KeyedAt(id, keys, vals, i);
      assert vals[s].output == rel;
    }
  }

  /** The vector determines the slots. */
  lemma {:induction false} DenseUnique(a: map<string, nat>, b: map<string, nat>, vals: seq<Info>)
    requires Dense(a, vals) && Dense(b, vals)
    ensures a == b
  {
    forall r ensures r in a <==> r in b {}
    forall r | r in a ensures a[r] == b[r] {}
  }

  /** Slot 0 does not matter. */
  lemma {:induction false} DenseTail(slots: map<string, nat>, vals: seq<Info>, vals': seq<Info>)
    requires Dense(slots, vals) && |vals'| == |vals| && forall s :: 1 <= s < |vals| ==> vals'[s] == vals[s]
    ensures Dense(slots, vals')
  {
  }

  lemma {:induction false} KeyedPush(id: string -> nat, keys: seq<nat>, vals: seq<Info>, vals': seq<Info>, info: Info)
    requires Keyed(id, keys, vals) && |vals'| == |vals| + 1 && (forall s :: 1 <= s < |vals| ==> vals'[s] == vals[s]) && vals'[|vals|] == info
    ensures Keyed(id, keys + [id(info.output)], vals')
  {
    var keys' := keys + [id(info.output)];
    forall i: nat | i < |keys'| ensures KeyedAt(id, keys', vals', i) { if i < |keys| { assert KeyedAt(id, keys, vals, i); } }
  }

  lemma {:induction false} KeyedSet(id: string -> nat, keys: seq<nat>, vals: seq<Info>, vals': seq<Info>, at: nat, info: Info)
    requires Keyed(id, keys, vals) && at < |keys| && keys[at] == id(info.output) && |vals'| == |vals|
    requires forall s :: 1 <= s < |vals| ==> vals'[s] == if s == at + 1 then info else vals[s]
    ensures Keyed(id, keys, vals')
  {
    forall i: nat | i < |keys| ensures KeyedAt(id, keys, vals', i) { assert KeyedAt(id, keys, vals, i); }
  }

  /** The slots after a new path is put last. */
  lemma {:induction false} SlotsPush(id: string -> nat, cells: seq<seq<nat>>, keys: seq<nat>, vals: seq<Info>,
                                     cells': seq<seq<nat>>, vals': seq<Info>, info: Info)
    requires Injective(id) && D.Indexed(cells, keys) && Keyed(id, keys, vals) && id(info.output) !in keys
    requires |vals'| == |vals| + 1 && (forall s :: 1 <= s < |vals| ==> vals'[s] == vals[s]) && vals'[|vals|] == info
    requires D.Indexed(cells', keys + [id(info.output)])
    ensures info.output !in SlotsOf(id, cells, vals)
    ensures SlotsOf(id, cells', vals') == SlotsOf(id, cells, vals)[info.output := |vals|]
  {
    var slots := SlotsOf(id, cells, vals);
    StoreIsDense(id, cells, keys, vals);
    LookupIsSlot(id, cells, keys, vals, info.output);
    D.IndexedMeans(cells, keys, id(info.output));
    KeyedPush(id, keys, vals, vals', info);
    StoreIsDense(id, cells', keys + [id(info.output)], vals');
    DenseAppend(slots, vals, info);
    DenseTail(slots[info.output := |vals|], vals + [info], vals');
    DenseUnique(slots[info.output := |vals|], SlotsOf(id, cells', vals'), vals');
  }

  /** The slots after a known path is put again. */
  lemma {:induction false} SlotsSet(id: string -> nat, cells: seq<seq<nat>>, keys: seq<nat>, vals: seq<Info>, cells': seq<seq<nat>>,
                                    vals': seq<Info>, at: nat, info: Info)
    requires Injective(id) && D.Indexed(cells, keys) && D.Indexed(cells', keys) && Keyed(id, keys, vals)
    requires at < |keys| && keys[at] == id(info.output) && |vals'| == |vals|
    requires forall s :: 1 <= s < |vals| ==> vals'[s] == if s == at + 1 then info else vals[s]
    ensures info.output in SlotsOf(id, cells, vals) && SlotsOf(id, cells, vals)[info.output] == at + 1
    ensures SlotsOf(id, cells', vals') == SlotsOf(id, cells, vals)
  {
    var slots := SlotsOf(id, cells, vals);
    assert Dense(slots, vals) by { StoreIsDense(id, cells, keys, vals); }
    assert vals[at + 1].output == info.output by { assert KeyedAt(id, keys, vals, at); }
    assert Dense(SlotsOf(id, cells', vals'), vals') by {
      KeyedSet(id, keys, vals, vals', at, info);
      StoreIsDense(id, cells', keys, vals');
    }
    DenseSet(slots, vals, vals', at + 1, info);
    DenseUnique(slots, SlotsOf(id, cells', vals'), vals');
  }

  lemma {:induction false} DenseSet(slots: map<string, nat>, vals: seq<Info>, vals': seq<Info>, slot: nat, info: Info)
    requires Dense(slots, vals) && 1 <= slot < |vals| == |vals'| && vals[slot].output == info.output
    requires forall s :: 1 <= s < |vals| ==> vals'[s] == if s == slot then info else vals[s]
    ensures Dense(slots, vals')
  {
    DenseUpdate(slots, vals, slot, info);
    DenseTail(slots, vals[slot := info], vals');
  }

  class Store {
    const id: string -> nat
    const byRel: D.DenseMap<Info>

    ghost predicate Valid()
      reads this, byRel, byRel.idx, byRel.idx.zero, byRel.idx.Own()
    {
      Injective(id) && byRel.Valid() && Keyed(id, byRel.keys, Visible(byRel.vals))
    }

    ghost function Slots(): map<string, nat>
      requires Valid()
      reads this, byRel, byRel.idx, byRel.idx.zero, byRel.idx.Own()
    {
      SlotsOf(id, byRel.idx.cells, Visible(byRel.vals))
    }

    ghost function Vals(): seq<Info>
      reads this, byRel
    {
      Visible(byRel.vals)
    }

    constructor (id: string -> nat, zero: array<nat>)
      requires Injective(id) && D.Zeroed(zero)
      ensures Valid() && Slots() == map[] && |Vals()| == 1 && fresh(byRel) && fresh(byRel.idx)
    {
      this.id := id;
      byRel := new D.DenseMap(zero);
    }

    /** `byRel.get`. */
    method Get(rel: string) returns (r: Option<Info>)
      requires Valid()
      ensures Dense(Slots(), Vals())
      ensures r == if rel in Slots() then Some(Vals()[Slots()[rel]]) else None
    {
      StoreIsDense(id, byRel.idx.cells, byRel.keys, Visible(byRel.vals));
      LookupIsSlot(id, byRel.idx.cells, byRel.keys, Visible(byRel.vals), rel);
      D.IndexedMeans(byRel.idx.cells, byRel.keys, id(rel));
      var slot := byRel.idx.Get(id(rel));
      r := if slot != 0 then Some(byRel.vals[slot]) else None;
    }

    /** `byRel.put`: a new path gets the next slot, a known one keeps its slot; every other record stays. */
    method Put(info: Info)
      requires Valid()
      modifies byRel, byRel.idx, byRel.idx.Own()
      ensures Valid()
      ensures Slots() == if info.output in old(Slots()) then old(Slots()) else old(Slots())[info.output := old(|Vals()|)]
      ensures info.output in Slots() && |Vals()| == old(|Vals()|) + if info.output in old(Slots()) then 0 else 1
      ensures forall s :: 1 <= s < |Vals()| ==>
                if s == Slots()[info.output] then Vals()[s] == info else s < old(|Vals()|) && Vals()[s] == old(Vals())[s]
    {
      ghost var cells, keys, vals := byRel.idx.cells, byRel.keys, Visible(byRel.vals);
      ghost var before := byRel.Contents();
      assert forall s :: 1 <= s < |vals| ==> vals[s] == before[s - 1];
      var at := byRel.Put(id(info.output), info);
      ghost var after := byRel.Contents();
      ghost var vals' := Visible(byRel.vals);
      assert forall s :: 1 <= s < |vals'| ==> vals'[s] == after[s - 1];
      if id(info.output) in keys {
        SlotsSet(id, cells, keys, vals, byRel.idx.cells, vals', at, info);
        KeyedSet(id, keys, vals, vals', at, info);
      } else {
        SlotsPush(id, cells, keys, vals, byRel.idx.cells, vals', info);
        KeyedPush(id, keys, vals, vals', info);
      }
    }
  }
}
