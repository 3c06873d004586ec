/** Sets that are emptied by bumping a 16-bit epoch (de_duper.go, id_set.go). */
module EpochSets {
  import opened Prelude

  const EPOCHS: nat := 0x1_0000

  /** The first occurrence of each element, in order: what every `dedup` must return. */
  function FirstOccurrences(xs: seq<nat>): seq<nat> {
    if xs == [] then []
    else
      var init, last := xs[..|xs| - 1], xs[|xs| - 1];
      if last in init then FirstOccurrences(init) else FirstOccurrences(init) + [last]
  }

  lemma {:induction false} FirstOccurrencesStep(xs: seq<nat>, x: nat)
    ensures Elems(xs + [x]) == Elems(xs) + {x}
    ensures FirstOccurrences(xs + [x]) == if x in xs then FirstOccurrences(xs) else FirstOccurrences(xs) + [x]
  {
    assert (xs + [x])[..|xs|] == xs;
  }

  lemma {:induction false} DedupStep(out: seq<nat>, xs: seq<nat>, x: nat, r: seq<nat>, members: set<nat>)
    requires r == out + FirstOccurrences(xs) && members == Elems(xs)
    ensures Elems(xs + [x]) == members + {x}
    ensures out + FirstOccurrences(xs + [x]) == if x in members then r else r + [x]
  {
    FirstOccurrencesStep(xs, x);
  }

  /** The same elements, none twice. */
  lemma {:induction false} FirstOccurrencesMembers(xs: seq<nat>)
    ensures forall x :: x in FirstOccurrences(xs) <==> x in xs
    ensures forall i, j :: 0 <= i < j < |FirstOccurrences(xs)| ==> FirstOccurrences(xs)[i] != FirstOccurrences(xs)[j]
  {
    if xs != [] {
      var init, last := xs[..|xs| - 1], xs[|xs| - 1];
      assert xs == init + [last];
      FirstOccurrencesMembers(init);
      var ys := FirstOccurrences(init);
      assert forall i :: 0 <= i < |ys| ==> ys[i] in ys;
    }
  }

  /** Position `k` is where its element first occurs. */
  ghost predicate FirstAt(xs: seq<nat>, k: nat) {
    k < |xs| && xs[k] !in xs[..k]
  }

  lemma {:induction false} FirstAtStays(xs: seq<nat>, x: nat, k: nat)
    requires FirstAt(xs, k)
    ensures FirstAt(xs + [x], k)
  {
    assert (xs + [x])[..k] == xs[..k];
  }

  /** Where each kept element comes from: its first position, and those positions increase. */
  lemma {:induction false} FirstOccurrencesPositions(xs: seq<nat>) returns (at: seq<nat>)
    ensures |at| == |FirstOccurrences(xs)|
    ensures forall i :: 0 <= i < |at| ==> FirstAt(xs, at[i]) && xs[at[i]] == FirstOccurrences(xs)[i]
    ensures forall i, j :: 0 <= i < j < |at| ==> at[i] < at[j]
  {
    at := [];
    if xs != [] {
      var init, last := xs[..|xs| - 1], xs[|xs| - 1];
      assert xs == init + [last];
      at := FirstOccurrencesPositions(init);
      forall i | 0 <= i < |at| ensures FirstAt(xs, at[i]) { FirstAtStays(init, last, at[i]); }
      if last !in init {
        assert FirstAt(xs, |init|);
        at := at + [|init|];
      }
    }
  }

  function Flatten(lists: seq<seq<nat>>): seq<nat> {
    if lists == [] then [] else Flatten(lists[..|lists| - 1]) + lists[|lists| - 1]
  }

  /** `gen` and `epoch` hold exactly `members`, and no stamp lies in the future. */
  ghost predicate Stamped(gen: seq<nat>, epoch: nat, members: set<nat>) {
    && 1 <= epoch < EPOCHS
    && (forall i :: 0 <= i < |gen| ==> gen[i] <= epoch && (gen[i] == epoch <==> i in members))
    && (forall x :: x in members ==> x < |gen|)
  }

  /** The common part of `DeDuper` and `IdSet`. */
  class EpochSet {
    var gen: seq<nat>
    var epoch: nat
    /** The ids added since the last reset. */
    ghost var members: set<nat>

    /** Holds from the first reset on. */
    ghost predicate Valid()
      reads this
    {
      Stamped(gen, epoch, members)
    }

    constructor ()
      ensures gen == [] && epoch == 0 && members == {}
    {
      gen, epoch, members := [], 0, {};
    }

    /** `reset`: empties the set in one step; on wrap-around every stamp is cleared first. */
    method Reset(bound: nat)
      requires Valid() || (gen == [] && epoch == 0)
      modifies this
      ensures Valid() && members == {} && |gen| >= bound && |gen| >= old(|gen|)
    {
      members := {};
      if bound > |gen| {
        gen := seq(bound + bound / 4, _ => 0);
        epoch := 1;
        return;
      }
      epoch := (epoch + 1) % EPOCHS;
      if epoch == 0 {
        gen := seq(|gen|, _ => 0);
        epoch := 1;
      }
    }

    /** `add`: true exactly for an id not added since the last reset, whatever epochs came before. */
    method Add(id: nat) returns (isNew: bool)
      requires Valid()
      modifies this
      ensures Valid() && members == old(members) + {id} && isNew == (id !in old(members))
      ensures epoch == old(epoch) && |gen| >= old(|gen|)
    {
      if id >= |gen| {
        gen := gen + seq(id + 1 - |gen|, _ => 0);
      }
      isNew := gen[id] != epoch;
      if isNew {
        gen := gen[id := epoch];
      }
      members := members + {id};
    }

    /** `addStable`: `add` for an id known to be in range. */
    method AddStable(id: nat) returns (isNew: bool)
      requires Valid() && id < |gen|
      modifies this`gen, this`members
      ensures Valid() && members == old(members) + {id} && isNew == (id !in old(members)) && |gen| == old(|gen|)
    {
      isNew := gen[id] != epoch;
      if isNew {
        gen := gen[id := epoch];
      }
      members := members + {id};
    }

    /** `has`; an id out of range is no member. */
    method Has(id: nat) returns (r: bool)
      requires Valid()
      ensures r == (id in members)
    {
      r := id < |gen| && gen[id] == epoch;
    }

    /** `dedup` and `dedupInto`: append the first occurrences over all the lists to `out`. */
    method DedupInto(out: seq<nat>, lists: seq<seq<nat>>, bound: nat) returns (r: seq<nat>)
      requires Valid() || (gen == [] && epoch == 0)
      requires forall i, j :: 0 <= i < |lists| && 0 <= j < |lists[i]| ==> lists[i][j] < bound
      modifies this
      ensures Valid() && r == out + FirstOccurrences(Flatten(lists))
    {
      Reset(bound);
      r := out;
      for i := 0 to |lists|
        invariant Valid() && |gen| >= bound
        invariant members == Elems(Flatten(lists[..i]))
        invariant r == out + FirstOccurrences(Flatten(lists[..i]))
      {
        ghost var before := Flatten(lists[..i]);
        r := DedupOne(r, lists[i], out, before);
        assert lists[..i + 1][..i] == lists[..i];
      }
      assert lists[..|lists|] == lists;
    }

    /** The inner loop: one list on top of what was appended before. */
    method DedupOne(r0: seq<nat>, list: seq<nat>, ghost out: seq<nat>, ghost before: seq<nat>) returns (r: seq<nat>)
      requires Valid() && members == Elems(before) && r0 == out + FirstOccurrences(before)
      requires forall j :: 0 <= j < |list| ==> list[j] < |gen|
      modifies this`gen, this`members
      ensures Valid() && |gen| == old(|gen|)
      ensures members == Elems(before + list) && r == out + FirstOccurrences(before + list)
    {
      r := r0;
      ghost var done := before;
      for j := 0 to |list|
        invariant Valid() && |gen| == old(|gen|)
        invariant done == before + list[..j]
        invariant members == Elems(done) && r == out + FirstOccurrences(done)
      {
        DedupStep(out, done, list[j], r, members);
        done := done + [list[j]];
        var isNew := AddStable(list[j]);
        if isNew {
          r := r + [list[j]];
        }
      }
      assert done == before + list;
    }

    /** `dedupInPlaceWith`: compact the array over its own storage. */
    method DedupInPlace(xs: array<nat>, bound: nat) returns (n: nat)
      requires Valid() || (gen == [] && epoch == 0)
      requires forall j :: 0 <= j < xs.Length ==> xs[j] < bound
      modifies this, xs
      ensures Valid() && n <= xs.Length && xs[..n] == FirstOccurrences(old(xs[..]))
    {
      Reset(bound);
      n := 0;
      ghost var all, done := xs[..], [];
      for j := 0 to xs.Length
        invariant Valid() && |gen| >= bound && n <= j
        invariant done == all[..j] && forall i :: j <= i < xs.Length ==> xs[i] == all[i]
        invariant members == Elems(done) && xs[..n] == FirstOccurrences(done)
      {
        n := KeepInPlace(xs, n, j, done);
        done := done + [all[j]];
      }
      assert done == all;
    }

    /** One round: element `j` moves down to `n` if it is new. */
    method KeepInPlace(xs: array<nat>, n: nat, j: nat, ghost done: seq<nat>) returns (m: nat)
      requires Valid() && n <= j < xs.Length && xs[j] < |gen| && members == Elems(done) && xs[..n] == FirstOccurrences(done)
      modifies this`gen, this`members, xs
      ensures Valid() && |gen| == old(|gen|) && m <= j + 1 && forall i :: j < i < xs.Length ==> xs[i] == old(xs[i])
      ensures members == Elems(done + [old(xs[j])]) && xs[..m] == FirstOccurrences(done + [old(xs[j])])
    {
      var x := xs[j];
      FirstOccurrencesStep(done, x);
      ghost var kept := xs[..n];
      var isNew := AddStable(x);
      m := n;
      if isNew {
        xs[n] := x;
        m := n + 1;
        assert xs[..m] == kept + [x];
      }
    }
  }
}
