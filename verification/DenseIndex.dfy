/** A paged index with one shared zero page, and the map built on it (dense_index.go, dense_map.go). */
module DenseIndexes {
  import opened Prelude

  const PAGE: nat := 1024

  /** What the pages hold for a key; 0 is nothing. */
  ghost function SlotAt(cells: seq<seq<nat>>, k: nat): nat {
    if k / PAGE < |cells| && k % PAGE < |cells[k / PAGE]| then cells[k / PAGE][k % PAGE] else 0
  }

  ghost predicate Full(cells: seq<seq<nat>>) {
    forall i :: 0 <= i < |cells| ==> |cells[i]| == PAGE
  }

  ghost const ZERO_PAGE: seq<nat> := seq(PAGE, _ => 0)

  /** Growing the table by zero pages changes what no key holds. */
  lemma {:induction false} GrowKeeps(cells: seq<seq<nat>>, n: nat, k: nat)
    ensures SlotAt(cells + seq(n, _ => ZERO_PAGE), k) == SlotAt(cells, k)
  {
    var more := cells + seq(n, _ => ZERO_PAGE);
    assert forall i :: |cells| <= i < |more| ==> more[i] == ZERO_PAGE;
  }

  ghost function WithCell(page: seq<nat>, j: nat, slot: nat): seq<nat>
    requires j < |page|
  {
    page[j := slot]
  }

  /** Writing one cell changes what one key holds. */
  lemma {:induction false} WriteOne(cells: seq<seq<nat>>, k: nat, slot: nat, j: nat)
    requires Full(cells) && k / PAGE < |cells|
    ensures var i := k / PAGE;
            SlotAt(cells[i := WithCell(cells[i], k % PAGE, slot)], j) == if j == k then slot else SlotAt(cells, j)
  {
  }

  /** The page that every index shares until it writes. */
  ghost predicate Zeroed(page: array<nat>)
    reads page
  {
    page.Length == PAGE && page[..] == ZERO_PAGE
  }

  ghost function PrivatePages(pages: seq<array<nat>>, zero: array<nat>): set<array<nat>> {
    set i | 0 <= i < |pages| && pages[i] != zero :: pages[i]
  }

  lemma {:induction false} PrivateGrow(pages: seq<array<nat>>, n: nat, zero: array<nat>)
    ensures PrivatePages(pages + seq(n, _ => zero), zero) == PrivatePages(pages, zero)
  {
    var more := pages + seq(n, _ => zero);
    assert forall i :: 0 <= i < |pages| ==> more[i] == pages[i];
    assert forall i :: |pages| <= i < |more| ==> more[i] == zero;
  }

  lemma {:induction false} PrivateReplace(pages: seq<array<nat>>, i: nat, p: array<nat>, zero: array<nat>)
    requires i < |pages| && pages[i] == zero && p != zero
    ensures PrivatePages(pages[i := p], zero) == PrivatePages(pages, zero) + {p}
  {
    var more := pages[i := p];
    assert more[i] == p;
    assert forall j :: 0 <= j < |pages| && j != i ==> more[j] == pages[j];
  }

  class DenseIndex {
    const zero: array<nat>
    var pages: seq<array<nat>>
    ghost var cells: seq<seq<nat>>

    /** The pages this index may write. */
    ghost function Own(): set<array<nat>>
      reads this
    {
      PrivatePages(pages, zero)
    }

    ghost predicate Valid()
      reads this, zero, Own()
    {
      && Zeroed(zero) && |cells| == |pages| && Full(cells)
      && (forall i {:trigger pages[i]} :: 0 <= i < |pages| ==> pages[i].Length == PAGE && pages[i][..] == cells[i])
      && (forall i, j :: 0 <= i < j < |pages| && pages[i] == pages[j] ==> pages[i] == zero)
    }

    constructor (zero: array<nat>)
      requires Zeroed(zero)
      ensures Valid() && this.zero == zero && pages == [] && Own() == {}
    {
      this.zero, pages, cells := zero, [], [];
    }

    /** `get`. */
    method Get(k: nat) returns (slot: nat)
      requires Valid()
      ensures slot == SlotAt(cells, k)
    {
      var page := k / PAGE;
      if page < |pages| {
        assert pages[page][..][k % PAGE] == pages[page][k % PAGE];
        return pages[page][k % PAGE];
      }
      slot := 0;
    }

    /** Grow the page table so that it reaches `page`: new entries are the shared zero page. */
    method Reach(page: nat)
      requires Valid()
      modifies this`pages, this`cells
      ensures Valid() && page < |pages| && Own() == old(Own()) && forall k: nat :: SlotAt(cells, k) == old(SlotAt(cells, k))
    {
      if page < |pages| {
        return;
      }
      ghost var was, n := cells, page + 1 - |pages|;
      PrivateGrow(pages, n, zero);
      pages := pages + seq(page + 1 - |pages|, _ => zero);
      cells := cells + seq(n, _ => ZERO_PAGE);
      forall k: nat ensures SlotAt(cells, k) == SlotAt(was, k) { GrowKeeps(was, n, k); }
      assert forall i :: |was| <= i < |pages| ==> pages[i] == zero && cells[i] == ZERO_PAGE;
    }

    /** The page for `i`, made private first if it is the shared one. */
    method OwnPage(i: nat) returns (p: array<nat>)
      requires Valid() && i < |pages|
      modifies this`pages
      ensures Valid() && |pages| == old(|pages|) && p == pages[i] && p != zero
      ensures Own() == old(Own()) + {p} && (p in old(Own()) || fresh(p))
    {
      p := pages[i];
      if p == zero {
        p := new nat[PAGE](_ => 0);
        assert p[..] == ZERO_PAGE;
        PrivateReplace(pages, i, p, zero);
        pages := pages[i := p];
      }
    }

    /** `put`: what the key holds changes and nothing else; the shared page is never written. */
    method Put(k: nat, slot: nat)
      requires Valid()
      modifies this, Own()
      ensures Valid() && fresh(Own() - old(Own()))
      ensures forall j: nat :: SlotAt(cells, j) == if j == k then slot else old(SlotAt(cells, j))
    {
      var i := k / PAGE;
      Reach(i);
      var p := OwnPage(i);
      ghost var was := cells;
      p[k % PAGE] := slot;
      cells := cells[i := WithCell(cells[i], k % PAGE, slot)];
      forall j: nat
        ensures SlotAt(cells, j) == if j == k then slot else SlotAt(was, j)
      {
        WriteOne(was, k, slot, j);
      }
    }

    /** `each`: every key with a slot, once, in increasing order. */
    method Each() returns (out: seq<(nat, nat)>)
      requires Valid()
      ensures Listed(cells, out, |cells| * PAGE)
    {
      out := [];
      for i := 0 to |pages|
        invariant Listed(cells, out, i * PAGE)
      {
        if pages[i] == zero {
          ListZeros(cells, out, i);
          continue;
        }
        out := EachOf(i, out);
      }
    }

    method EachOf(i: nat, done: seq<(nat, nat)>) returns (out: seq<(nat, nat)>)
      requires Valid() && i < |pages| && Listed(cells, done, i * PAGE)
      ensures Listed(cells, out, (i + 1) * PAGE)
    {
      out := done;
      var page := pages[i];
      for j := 0 to PAGE
        invariant Listed(cells, out, i * PAGE + j)
      {
        var slot := page[j];
        assert page[..][j] == slot;
        KeyParts(i, j);
        ListOne(cells, out, i * PAGE + j, slot);
        if slot != 0 {
          out := out + [(i * PAGE + j, slot)];
        }
      }
    }
  }

  ghost predicate ListedAt(cells: seq<seq<nat>>, out: seq<(nat, nat)>, k: nat) {
    SlotAt(cells, k) != 0 ==> (k, SlotAt(cells, k)) in out
  }

  /** `out` lists the keys below `n` that hold something, in increasing order. */
  ghost predicate Listed(cells: seq<seq<nat>>, out: seq<(nat, nat)>, n: nat) {
    && (forall i, j :: 0 <= i < j < |out| ==> out[i].0 < out[j].0)
    && (forall i :: 0 <= i < |out| ==> out[i].0 < n && out[i].1 == SlotAt(cells, out[i].0) != 0)
    && (forall k: nat {:trigger ListedAt(cells, out, k)} :: k < n ==> ListedAt(cells, out, k))
  }

  /** Listing the whole table misses no key. */
  lemma {:induction false} AllListed(cells: seq<seq<nat>>, out: seq<(nat, nat)>, k: nat, slot: nat)
    requires Full(cells) && Listed(cells, out, |cells| * PAGE) && slot != 0
    ensures (k, slot) in out <==> SlotAt(cells, k) == slot
  {
    if SlotAt(cells, k) == slot {
      assert k < |cells| * PAGE;
      assert ListedAt(cells, out, k);
    }
  }

  lemma {:induction false} ListZeros(cells: seq<seq<nat>>, out: seq<(nat, nat)>, i: nat)
    requires i < |cells| && cells[i] == ZERO_PAGE && Listed(cells, out, i * PAGE)
    ensures Listed(cells, out, (i + 1) * PAGE)
  {
    var n := (i + 1) * PAGE;
    forall k: nat | k < n
      ensures ListedAt(cells, out, k)
    {
      if k < i * PAGE { assert ListedAt(cells, out, k); } else { assert k / PAGE == i; }
    }
  }

  lemma {:induction false} KeyParts(i: nat, j: nat)
    requires j < PAGE
    ensures (i * PAGE + j) / PAGE == i && (i * PAGE + j) % PAGE == j
  {
  }

  lemma {:induction false} ListOne(cells: seq<seq<nat>>, out: seq<(nat, nat)>, k0: nat, slot: nat)
    requires SlotAt(cells, k0) == slot && Listed(cells, out, k0)
    ensures Listed(cells, if slot != 0 then out + [(k0, slot)] else out, k0 + 1)
  {
    var out' := if slot != 0 then out + [(k0, slot)] else out;
    var n := k0 + 1;
    forall k: nat | k < n
      ensures ListedAt(cells, out', k)
    {
      if k < k0 { assert ListedAt(cells, out, k); } else { assert slot != 0 ==> out'[|out|] == (k0, slot); }
    }
  }

  // ------------------------------------------------------------ the map

  ghost predicate KeyAt(cells: seq<seq<nat>>, keys: seq<nat>, i: nat)
    requires i < |keys|
  {
    SlotAt(cells, keys[i]) == i + 1
  }

  ghost predicate SlotKnown(cells: seq<seq<nat>>, keys: seq<nat>, k: nat) {
    SlotAt(cells, k) != 0 ==> SlotAt(cells, k) <= |keys| && keys[SlotAt(cells, k) - 1] == k
  }

  /** The index gives every key its position, counted from 1. */
  ghost predicate Indexed(cells: seq<seq<nat>>, keys: seq<nat>) {
    && (forall i: nat {:trigger KeyAt(cells, keys, i)} :: i < |keys| ==> KeyAt(cells, keys, i))
    && (forall k: nat {:trigger SlotKnown(cells, keys, k)} :: SlotKnown(cells, keys, k))
  }

  lemma {:induction false} IndexedMeans(cells: seq<seq<nat>>, keys: seq<nat>, k: nat)
    requires Indexed(cells, keys)
    ensures SlotAt(cells, k) == 0 <==> k !in keys
    ensures SlotAt(cells, k) != 0 ==> SlotAt(cells, k) <= |keys| && keys[SlotAt(cells, k) - 1] == k
  {
    assert SlotKnown(cells, keys, k);
    if k in keys {
      var i: nat :| i < |keys| && keys[i] == k;
      assert KeyAt(cells, keys, i);
    }
  }

  lemma {:induction false} IndexedPush(cells: seq<seq<nat>>, cells': seq<seq<nat>>, keys: seq<nat>, k: nat)
    requires Indexed(cells, keys) && SlotAt(cells, k) == 0
    requires forall j: nat :: SlotAt(cells', j) == if j == k then |keys| + 1 else SlotAt(cells, j)
    ensures Indexed(cells', keys + [k])
  {
    var keys' := keys + [k];
    forall i: nat | i < |keys'|
      ensures KeyAt(cells', keys', i)
    {
      assert i < |keys| ==> KeyAt(cells, keys, i);
    }
    forall j: nat
      ensures SlotKnown(cells', keys', j)
    {
      assert SlotKnown(cells, keys, j);
    }
  }

  class DenseMap<V(0)> {
    const idx: DenseIndex
    var vals: seq<V>
    /** The keys in the order they were first put. */
    ghost var keys: seq<nat>

    ghost predicate Valid()
      reads this, idx, idx.zero, idx.Own()
    {
      idx.Valid() && Indexed(idx.cells, keys) && |vals| == if keys == [] then 0 else |keys| + 1
    }

    /** The values in the order their keys were first put. */
    ghost function Contents(): (r: seq<V>)
      requires Valid()
      reads this, idx, idx.zero, idx.Own()
      ensures |r| == |keys|
    {
      if keys == [] then [] else vals[1..]
    }

    constructor (zero: array<nat>)
      requires Zeroed(zero)
      ensures Valid() && fresh(idx) && idx.zero == zero && idx.Own() == {} && keys == []
    {
      idx := new DenseIndex(zero);
      vals, keys := [], [];
    }

    /** `get`: the value at the key's position. */
    method Get(k: nat) returns (r: Option<V>)
      requires Valid()
      ensures r.None? <==> k !in keys
      ensures r.Some? ==> exists i :: 0 <= i < |keys| && keys[i] == k && Contents()[i] == r.value
    {
      IndexedMeans(idx.cells, keys, k);
      var slot := idx.Get(k);
      r := None;
      if slot != 0 {
        r := Some(vals[slot]);
        assert keys[slot - 1] == k && Contents()[slot - 1] == r.value;
      }
    }

    /** `put`: a known key keeps its place; a new one goes to the end. */
    method Put(k: nat, v: V) returns (ghost at: nat)
      requires Valid()
      modifies this, idx, idx.Own()
      ensures Valid() && fresh(idx.Own() - old(idx.Own()))
      ensures at == old(|keys|) <==> k !in old(keys)
      ensures if k in old(keys) then
                at < |keys| && keys == old(keys) && keys[at] == k && Contents() == old(Contents())[at := v]
              else keys == old(keys) + [k] && Contents() == old(Contents()) + [v]
    {
      IndexedMeans(idx.cells, keys, k);
      var slot := idx.Get(k);
      if slot != 0 {
        at := slot - 1;
        vals := vals[slot := v];
        return;
      }
      at := |keys|;
      if |vals| == 0 {
        var first: V := *;
        vals := [first];
      }
      ghost var cells := idx.cells;
      vals := vals + [v];
      idx.Put(k, |vals| - 1);
      IndexedPush(cells, idx.cells, keys, k);
      keys := keys + [k];
    }

    /** `values`. */
    method Values() returns (r: seq<V>)
      requires Valid()
      ensures r == Contents()
    {
      r := if |vals| == 0 then [] else vals[1..];
    }
  }
}
