/** Closure buckets: epoch-stamped splicing and canonical interning (bucket_cache.go, closure.go). */
module BucketCache {
  import opened Prelude
  import opened EpochSets

  const SOURCE_BUCKETS: nat := 8
  const CLOSURE_BUCKETS: nat := 9
  const EPOCH_WRAP: nat := 0x1_0000_0000

  /** `closureBucketIndex`: build files in bucket 0, source files spread over the others. */
  function BucketIndex(v: nat): (r: nat)
    ensures r < CLOSURE_BUCKETS
  {
    if IsBuild(v) then 0 else 1 + (v / 2) % SOURCE_BUCKETS
  }

  /** Build files share one bucket; two source files share one exactly when their numbers differ by a multiple of 8. */
  lemma {:induction false} BucketsSpread(v: nat, w: nat)
    ensures v % 2 == 1 <==> BucketIndex(v) == 0
    ensures BucketIndex(2 * v) == BucketIndex(2 * w) <==> v % 8 == w % 8
  {
    assert 2 * v / 2 == v && 2 * w / 2 == w;
  }

  /** A stored bucket: the epoch word in front of it, and its elements. */
  datatype Bucket = Bucket(epoch: nat, elems: seq<nat>)

  /** Non-empty, duplicate-free, and all of one bucket index. */
  ghost predicate WellFormed(elems: seq<nat>) {
    && elems != [] && Distinct(elems)
    && (forall i :: 0 <= i < |elems| ==> BucketIndex(elems[i]) == BucketIndex(elems[0]))
  }

  // ------------------------------------------------------------ what splicing means

  /** The first occurrences of everything spliced, minus `self`, that belong to bucket `r`. */
  ghost function Kept(spliced: seq<nat>, self: nat, r: nat): seq<nat> {
    if spliced == [] then []
    else
      var init, v := spliced[..|spliced| - 1], spliced[|spliced| - 1];
      if v in init || v == self || BucketIndex(v) != r then Kept(init, self, r) else Kept(init, self, r) + [v]
  }

  lemma {:induction false} KeptStep(spliced: seq<nat>, self: nat, r: nat, v: nat)
    ensures Kept(spliced + [v], self, r) ==
            if v in spliced || v == self || BucketIndex(v) != r then Kept(spliced, self, r) else Kept(spliced, self, r) + [v]
  {
    assert (spliced + [v])[..|spliced|] == spliced;
  }

  lemma {:induction false} KeptMembers(spliced: seq<nat>, self: nat, r: nat, v: nat)
    ensures v in Kept(spliced, self, r) <==> v in spliced && v != self && BucketIndex(v) == r
  {
    if spliced != [] {
      var init := spliced[..|spliced| - 1];
      assert spliced == init + [spliced[|spliced| - 1]];
      KeptMembers(init, self, r, v);
    }
  }

  lemma {:induction false} KeptDistinct(spliced: seq<nat>, self: nat, r: nat)
    ensures Distinct(Kept(spliced, self, r))
  {
    if spliced != [] {
      var init, v := spliced[..|spliced| - 1], spliced[|spliced| - 1];
      KeptDistinct(init, self, r);
      KeptMembers(init, self, r, v);
      var ks := Kept(init, self, r);
      assert forall i :: 0 <= i < |ks| ==> ks[i] in ks;
    }
  }

  /** `Kept` is the de-duplication of the bucket's share of the spliced sequence. */
  lemma {:induction false} KeptIsDedup(spliced: seq<nat>, self: nat, r: nat)
    ensures Kept(spliced, self, r) == FirstOccurrences(Share(spliced, self, r))
  {
    if spliced != [] {
      var init, v := spliced[..|spliced| - 1], spliced[|spliced| - 1];
      KeptIsDedup(init, self, r);
      ShareMembers(init, self, r, v);
      if v != self && BucketIndex(v) == r {
        FirstOccurrencesStep(Share(init, self, r), v);
      }
    }
  }

  /** Everything spliced into bucket `r`, minus `self`, repeats included. */
  ghost function Share(spliced: seq<nat>, self: nat, r: nat): seq<nat> {
    if spliced == [] then []
    else
      var init, v := spliced[..|spliced| - 1], spliced[|spliced| - 1];
      if v == self || BucketIndex(v) != r then Share(init, self, r) else Share(init, self, r) + [v]
  }

  lemma {:induction false} ShareMembers(spliced: seq<nat>, self: nat, r: nat, v: nat)
    ensures v in Share(spliced, self, r) <==> v in spliced && v != self && BucketIndex(v) == r
  {
    if spliced != [] {
      var init := spliced[..|spliced| - 1];
      assert spliced == init + [spliced[|spliced| - 1]];
      ShareMembers(init, self, r, v);
    }
  }

  /** Splicing elements that are all there already changes no bucket. */
  lemma {:induction false} KeptSkips(spliced: seq<nat>, self: nat, r: nat, xs: seq<nat>)
    requires forall i :: 0 <= i < |xs| ==> xs[i] in spliced
    ensures Kept(spliced + xs, self, r) == Kept(spliced, self, r)
    decreases |xs|
  {
    if xs == [] {
      assert spliced + xs == spliced;
    } else {
      var init, v := xs[..|xs| - 1], xs[|xs| - 1];
      KeptSkips(spliced, self, r, init);
      assert spliced + xs == spliced + init + [v];
      KeptStep(spliced + init, self, r, v);
    }
  }

  lemma {:induction false} DistinctInit(xs: seq<nat>)
    requires Distinct(xs) && xs != []
    ensures Distinct(xs[..|xs| - 1]) && xs[|xs| - 1] !in xs[..|xs| - 1]
  {
  }

  lemma {:induction false} KeptNew(spliced: seq<nat>, self: nat, r: nat, kept: seq<nat>, v: nat)
    requires Kept(spliced, self, r) == kept && v !in spliced && v != self
    ensures Kept(spliced + [v], self, r) == if BucketIndex(v) == r then kept + [v] else kept
  {
    KeptStep(spliced, self, r, v);
  }

  lemma {:induction false} TakeLast(a: seq<nat>, xs: seq<nat>)
    requires xs != []
    ensures a + xs == (a + xs[..|xs| - 1]) + [xs[|xs| - 1]]
  {
    assert xs == xs[..|xs| - 1] + [xs[|xs| - 1]];
  }

  /** One more new element behind `init`. */
  lemma {:induction false} KeptAppendsOne(spliced: seq<nat>, init: seq<nat>, self: nat, r: nat, v: nat, kept: seq<nat>)
    requires Kept(spliced + init, self, r) == kept && v !in spliced && v !in init && v != self
    ensures Kept((spliced + init) + [v], self, r) == if BucketIndex(v) == r then kept + [v] else kept
  {
    assert v !in spliced + init;
    KeptNew(spliced + init, self, r, kept, v);
  }

  /** What is new to the scratch buckets and belongs to bucket `own`. */
  ghost predicate NewTo(spliced: seq<nat>, self: nat, own: nat, v: nat) {
    v !in spliced && v != self && BucketIndex(v) == own
  }

  /** Splicing a duplicate-free bucket none of whose elements is there yet appends it whole to its bucket. */
  lemma {:induction false} KeptAppends(spliced: seq<nat>, self: nat, r: nat, xs: seq<nat>, own: nat)
    requires Distinct(xs) && forall i :: 0 <= i < |xs| ==> NewTo(spliced, self, own, xs[i])
    ensures Kept(spliced + xs, self, r) == if r == own then Kept(spliced, self, r) + xs else Kept(spliced, self, r)
    decreases |xs|
  {
    if xs == [] {
      assert spliced + xs == spliced;
    } else {
      var init, v := xs[..|xs| - 1], xs[|xs| - 1];
      DistinctInit(xs);
      KeptAppends(spliced, self, r, init, own);
      assert NewTo(spliced, self, own, v);
      KeptAppendsOne(spliced, init, self, r, v, Kept(spliced + init, self, r));
      TakeLast(spliced, xs);
      TakeLast(Kept(spliced, self, r), xs);
    }
  }

  ghost predicate RowAt(scratch: seq<seq<nat>>, spliced: seq<nat>, self: nat, r: int)
    requires 0 <= r < |scratch|
  {
    scratch[r] == Kept(spliced, self, r)
  }

  /** The scratch lists and the seen set say what has been spliced since the reset. */
  ghost predicate Spliced(scratch: seq<seq<nat>>, members: set<nat>, spliced: seq<nat>, self: nat) {
    && |scratch| == CLOSURE_BUCKETS
    && members == Elems(spliced) + {self}
    && (forall r {:trigger RowAt(scratch, spliced, self, r)} :: 0 <= r < CLOSURE_BUCKETS ==> RowAt(scratch, spliced, self, r))
  }

  /** The case that lets the fast path skip every check: an empty scratch bucket that is not self's. */
  lemma {:induction false} EmptyBucketUnseen(scratch: seq<seq<nat>>, members: set<nat>, spliced: seq<nat>, self: nat, v: nat)
    requires Spliced(scratch, members, spliced, self)
    requires scratch[BucketIndex(v)] == [] && BucketIndex(v) != BucketIndex(self)
    ensures v !in members && v !in spliced
  {
    assert RowAt(scratch, spliced, self, BucketIndex(v));
    KeptMembers(spliced, self, BucketIndex(v), v);
  }

  /** One more element spliced, with or without an append, as `spliceOne` decides. */
  lemma {:induction false} SplicedOne(scratch: seq<seq<nat>>, members: set<nat>, spliced: seq<nat>, self: nat, v: nat)
    requires Spliced(scratch, members, spliced, self)
    ensures var r := BucketIndex(v);
            Spliced(if v in members then scratch else scratch[r := scratch[r] + [v]], members + {v}, spliced + [v], self)
  {
    FirstOccurrencesStep(spliced, v);
    forall r | 0 <= r < CLOSURE_BUCKETS
      ensures Kept(spliced + [v], self, r) ==
              if v in members || r != BucketIndex(v) then scratch[r] else scratch[r] + [v]
    {
      assert RowAt(scratch, spliced, self, r);
      KeptStep(spliced, self, r, v);
    }
  }

  lemma {:induction false} ElemsConcat(a: seq<nat>, b: seq<nat>)
    ensures Elems(a + b) == Elems(a) + Elems(b)
  {
  }

  lemma {:induction false} SplicedFast(scratch: seq<seq<nat>>, members: set<nat>, spliced: seq<nat>, self: nat, xs: seq<nat>)
    requires Spliced(scratch, members, spliced, self) && WellFormed(xs)
    requires scratch[BucketIndex(xs[0])] == [] && BucketIndex(xs[0]) != BucketIndex(self)
    ensures Spliced(scratch[BucketIndex(xs[0]) := xs], members + Elems(xs), spliced + xs, self)
  {
    var own := BucketIndex(xs[0]);
    forall i | 0 <= i < |xs|
      ensures NewTo(spliced, self, own, xs[i])
    {
      EmptyBucketUnseen(scratch, members, spliced, self, xs[i]);
    }
    ElemsConcat(spliced, xs);
    forall r | 0 <= r < CLOSURE_BUCKETS
      ensures Kept(spliced + xs, self, r) == if r == own then xs else scratch[r]
    {
      assert RowAt(scratch, spliced, self, r);
      KeptAppends(spliced, self, r, xs, own);
    }
  }

  lemma {:induction false} SplicedSkip(scratch: seq<seq<nat>>, members: set<nat>, spliced: seq<nat>, self: nat, xs: seq<nat>)
    requires Spliced(scratch, members, spliced, self) && forall i :: 0 <= i < |xs| ==> xs[i] in spliced
    ensures Spliced(scratch, members, spliced + xs, self)
  {
    ElemsConcat(spliced, xs);
    forall r | 0 <= r < CLOSURE_BUCKETS
      ensures Kept(spliced + xs, self, r) == scratch[r]
    {
      assert RowAt(scratch, spliced, self, r);
      KeptSkips(spliced, self, r, xs);
    }
  }

  lemma {:induction false} SplicedNothing(self: nat)
    ensures Spliced(seq(CLOSURE_BUCKETS, _ => []), {self}, [], self)
  {
  }

  /** Whatever was spliced, each non-empty scratch bucket is fit to be stored. */
  lemma {:induction false} ScratchIsWellFormed(scratch: seq<seq<nat>>, members: set<nat>, spliced: seq<nat>, self: nat, r: nat)
    requires Spliced(scratch, members, spliced, self) && r < CLOSURE_BUCKETS && scratch[r] != []
    ensures WellFormed(scratch[r]) && self !in scratch[r]
    ensures forall i :: 0 <= i < |scratch[r]| ==> BucketIndex(scratch[r][i]) == r && scratch[r][i] in spliced
  {
    assert RowAt(scratch, spliced, self, r);
    KeptDistinct(spliced, self, r);
    forall i | 0 <= i < |scratch[r]|
      ensures BucketIndex(scratch[r][i]) == r && scratch[r][i] in spliced
    {
      assert scratch[r][i] in scratch[r];
      KeptMembers(spliced, self, r, scratch[r][i]);
    }
    KeptMembers(spliced, self, r, self);
  }

  // ------------------------------------------------------------ interning

  datatype BucketVal = BucketVal(verify: nat, span: nat)

  /** `bucketCells`: a hash index over a growing vector of cells. */
  datatype Cells = Cells(idx: map<nat, nat>, vals: seq<BucketVal>)

  ghost predicate CellsOk(c: Cells) {
    forall k :: k in c.idx ==> c.idx[k] < |c.vals|
  }

  function Cell(c: Cells, k: nat): Option<BucketVal>
    requires CellsOk(c)
  {
    if k in c.idx then Some(c.vals[c.idx[k]]) else None
  }

  function WithCell(c: Cells, k: nat, v: BucketVal): Cells {
    Cells(c.idx[k := |c.vals|], c.vals + [v])
  }

  /** The hash pairs interned so far, one pool slot each. */
  datatype Table = Table(primary: Cells, overflow: Cells, keys: seq<(nat, nat)>)

  /** Slot `i` is found through its pair: in the primary table, or past another primary entry in the overflow table. */
  ghost predicate FoundAt(t: Table, i: int)
    requires CellsOk(t.primary) && CellsOk(t.overflow) && 0 <= i < |t.keys|
  {
    Lookup(t, t.keys[i]) == Some(i)
  }

  /** What `internBucket` finds for a pair, before it stores anything. */
  function Lookup(t: Table, key: (nat, nat)): Option<nat>
    requires CellsOk(t.primary) && CellsOk(t.overflow)
  {
    match Cell(t.primary, key.0)
    case None => None
    case Some(cell) =>
      if cell.verify == key.1 then Some(cell.span)
      else
        match Cell(t.overflow, key.1)
        case None => None
        case Some(cell2) => if cell2.verify == key.0 then Some(cell2.span) else None
  }

  /** The pair that `internBucket` throws on: both its cells are taken by other pairs. */
  predicate Collides(t: Table, key: (nat, nat))
    requires CellsOk(t.primary) && CellsOk(t.overflow)
  {
    var c1, c2 := Cell(t.primary, key.0), Cell(t.overflow, key.1);
    c1.Some? && c1.value.verify != key.1 && c2.Some? && c2.value.verify != key.0
  }

  ghost predicate PrimaryAt(t: Table, k: nat)
    requires k in t.primary.idx && t.primary.idx[k] < |t.primary.vals|
  {
    var v := t.primary.vals[t.primary.idx[k]];
    v.span < |t.keys| && t.keys[v.span] == (k, v.verify)
  }

  ghost predicate OverflowAt(t: Table, k: nat)
    requires k in t.overflow.idx && t.overflow.idx[k] < |t.overflow.vals|
  {
    var v := t.overflow.vals[t.overflow.idx[k]];
    v.span < |t.keys| && t.keys[v.span] == (v.verify, k)
  }

  /** Some cell of either table points at slot `i`. */
  ghost predicate Pointed(t: Table, i: int) {
    || (exists j :: 0 <= j < |t.primary.vals| && t.primary.vals[j].span == i)
    || (exists j :: 0 <= j < |t.overflow.vals| && t.overflow.vals[j].span == i)
  }

  ghost predicate TableOk(t: Table) {
    && CellsOk(t.primary) && CellsOk(t.overflow)
    && (forall k {:trigger PrimaryAt(t, k)} :: k in t.primary.idx ==> PrimaryAt(t, k))
    && (forall k {:trigger OverflowAt(t, k)} :: k in t.overflow.idx ==> OverflowAt(t, k))
    && (forall i {:trigger FoundAt(t, i)} :: 0 <= i < |t.keys| ==> FoundAt(t, i))
    && (forall i {:trigger Pointed(t, i)} :: 0 <= i < |t.keys| ==> Pointed(t, i))
    && (forall j :: 0 <= j < |t.primary.vals| ==> t.primary.vals[j].span < |t.keys|)
    && (forall j :: 0 <= j < |t.overflow.vals| ==> t.overflow.vals[j].span < |t.keys|)
  }

  /** The table after storing a new slot for `key`. */
  function WithKey(t: Table, key: (nat, nat)): Table {
    var slot := |t.keys|;
    if key.0 in t.primary.idx then
      t.(overflow := WithCell(t.overflow, key.1, BucketVal(key.0, slot)), keys := t.keys + [key])
    else
      t.(primary := WithCell(t.primary, key.0, BucketVal(key.1, slot)), keys := t.keys + [key])
  }

  /** A found slot is the pair's own slot: distinct pairs never share one. */
  lemma {:induction false} LookupIsOwn(t: Table, key: (nat, nat))
    requires TableOk(t) && Lookup(t, key).Some?
    ensures Lookup(t, key).value < |t.keys| && t.keys[Lookup(t, key).value] == key
  {
    assert PrimaryAt(t, key.0);
    if Cell(t.primary, key.0).value.verify != key.1 { assert OverflowAt(t, key.1); }
  }

  lemma {:induction false} LookupStays(t: Table, key: (nat, nat), other: (nat, nat))
    requires TableOk(t) && Lookup(t, key).None? && !Collides(t, key) && Lookup(t, other).Some?
    requires CellsOk(WithKey(t, key).primary) && CellsOk(WithKey(t, key).overflow)
    ensures Lookup(WithKey(t, key), other) == Lookup(t, other)
  {
  }

  lemma {:induction false} CellsStayOk(t: Table, key: (nat, nat))
    requires TableOk(t)
    ensures CellsOk(WithKey(t, key).primary) && CellsOk(WithKey(t, key).overflow)
  {
  }

  lemma {:induction false} WithKeyPointed(t: Table, key: (nat, nat), i: int)
    requires TableOk(t) && 0 <= i <= |t.keys|
    ensures Pointed(WithKey(t, key), i)
  {
    var u := WithKey(t, key);
    if i < |t.keys| {
      assert Pointed(t, i);
      if j :| 0 <= j < |t.primary.vals| && t.primary.vals[j].span == i {
        assert u.primary.vals[j].span == i;
      } else {
        var j :| 0 <= j < |t.overflow.vals| && t.overflow.vals[j].span == i;
        assert u.overflow.vals[j].span == i;
      }
    } else if key.0 in t.primary.idx {
      assert u.overflow.vals[|t.overflow.vals|].span == i;
    } else {
      assert u.primary.vals[|t.primary.vals|].span == i;
    }
  }

  /** A new pair gets the next slot; every pair already there keeps its own, for ever. */
  lemma {:induction false} WithKeyOk(t: Table, key: (nat, nat))
    requires TableOk(t) && Lookup(t, key).None? && !Collides(t, key)
    ensures TableOk(WithKey(t, key)) && Lookup(WithKey(t, key), key) == Some(|t.keys|)
  {
    var u := WithKey(t, key);
    CellsStayOk(t, key);
    forall k | k in u.primary.idx
      ensures PrimaryAt(u, k)
    {
      if k in t.primary.idx { assert PrimaryAt(t, k); }
    }
    forall k | k in u.overflow.idx
      ensures OverflowAt(u, k)
    {
      if k in t.overflow.idx { assert OverflowAt(t, k); }
    }
    forall i | 0 <= i < |u.keys|
      ensures FoundAt(u, i) && Pointed(u, i)
    {
      WithKeyPointed(t, key, i);
      if i < |t.keys| {
        assert FoundAt(t, i);
        LookupStays(t, key, t.keys[i]);
      }
    }
  }

  /** Every pair found before is found at the same slot. */
  ghost predicate Keeps(t: Table, u: Table)
    requires CellsOk(t.primary) && CellsOk(t.overflow) && CellsOk(u.primary) && CellsOk(u.overflow)
  {
    forall key: (nat, nat) {:trigger Lookup(u, key)} :: Lookup(t, key).Some? ==> Lookup(u, key) == Lookup(t, key)
  }

  lemma {:induction false} WithKeyKeeps(t: Table, key: (nat, nat))
    requires TableOk(t) && Lookup(t, key).None? && !Collides(t, key) && TableOk(WithKey(t, key))
    ensures Keeps(t, WithKey(t, key))
  {
    forall other: (nat, nat) | Lookup(t, other).Some?
      ensures Lookup(WithKey(t, key), other) == Lookup(t, other)
    {
      LookupStays(t, key, other);
    }
  }

  lemma {:induction false} KeepsTrans(t: Table, u: Table, w: Table)
    requires TableOk(t) && TableOk(u) && TableOk(w) && Keeps(t, u) && Keeps(u, w)
    ensures Keeps(t, w)
  {
    forall key: (nat, nat) | Lookup(t, key).Some?
      ensures Lookup(w, key) == Lookup(t, key)
    {
      assert Lookup(u, key) == Lookup(t, key);
    }
  }

  /** A whole run of interned pairs; `None` when some pair collides. */
  ghost function InternRun(t: Table, run: seq<(nat, nat)>): Option<Table>
    requires TableOk(t)
    decreases |run|
  {
    if run == [] then Some(t)
    else if Lookup(t, run[0]).Some? then InternRun(t, run[1..])
    else if Collides(t, run[0]) then None
    else WithKeyOk(t, run[0]); InternRun(WithKey(t, run[0]), run[1..])
  }

  /** Over a run, a pair found once is found at the same slot for ever, and every pair of the run gets a slot of its own. */
  lemma {:induction false} RunIsCanonical(t: Table, run: seq<(nat, nat)>, key: (nat, nat))
    requires TableOk(t) && InternRun(t, run).Some?
    ensures TableOk(InternRun(t, run).value)
    ensures Lookup(t, key).Some? ==> Lookup(InternRun(t, run).value, key) == Lookup(t, key)
    ensures key in run ==> Lookup(InternRun(t, run).value, key).Some?
    decreases |run|
  {
    if run != [] {
      if Lookup(t, run[0]).Some? {
        RunIsCanonical(t, run[1..], key);
      } else {
        WithKeyOk(t, run[0]);
        RunIsCanonical(WithKey(t, run[0]), run[1..], key);
        if Lookup(t, key).Some? { LookupStays(t, run[0], key); }
      }
    }
  }

  /** Two pairs share a slot exactly when they are the same pair. */
  lemma {:induction false} SlotsAreDistinct(t: Table, a: (nat, nat), b: (nat, nat))
    requires TableOk(t) && Lookup(t, a).Some? && Lookup(t, b).Some?
    ensures Lookup(t, a) == Lookup(t, b) <==> a == b
  {
    LookupIsOwn(t, a);
    LookupIsOwn(t, b);
  }

  /** Where the current epoch's visits are recorded: no stamp lies in the future, and the current one marks `visited`. */
  ghost predicate StampedAt(pool: seq<Bucket>, epoch: nat, visited: set<nat>, i: int)
    requires 0 <= i < |pool|
  {
    pool[i].epoch <= epoch && (pool[i].epoch == epoch <==> i in visited)
  }

  ghost predicate Epochs(pool: seq<Bucket>, epoch: nat, visited: set<nat>) {
    && 1 <= epoch < EPOCH_WRAP
    && (forall i {:trigger StampedAt(pool, epoch, visited, i)} :: 0 <= i < |pool| ==> StampedAt(pool, epoch, visited, i))
    && (forall i :: i in visited ==> i < |pool|)
  }

  /** The pool holds one well-formed bucket per interned pair, hashing to that pair. */
  ghost predicate PoolAt(hash: seq<nat> -> (nat, nat), pool: seq<Bucket>, keys: seq<(nat, nat)>, i: int)
    requires |pool| == |keys| && 0 <= i < |pool|
  {
    WellFormed(pool[i].elems) && hash(pool[i].elems) == keys[i]
  }

  ghost predicate PoolOk(hash: seq<nat> -> (nat, nat), pool: seq<Bucket>, keys: seq<(nat, nat)>) {
    && |pool| == |keys|
    && (forall i {:trigger PoolAt(hash, pool, keys, i)} :: 0 <= i < |pool| ==> PoolAt(hash, pool, keys, i))
  }

  /** Changing epochs only. */
  ghost predicate SameElems(a: seq<Bucket>, b: seq<Bucket>) {
    |a| == |b| && forall i :: 0 <= i < |a| ==> a[i].elems == b[i].elems
  }

  lemma {:induction false} SameElemsKeepPool(hash: seq<nat> -> (nat, nat), a: seq<Bucket>, b: seq<Bucket>, keys: seq<(nat, nat)>)
    requires PoolOk(hash, a, keys) && SameElems(a, b)
    ensures PoolOk(hash, b, keys)
  {
    forall i | 0 <= i < |b| ensures PoolAt(hash, b, keys, i) { assert PoolAt(hash, a, keys, i); }
  }

  /** Every visited bucket's elements have been spliced. */
  ghost predicate VisitedSpliced(pool: seq<Bucket>, visited: set<nat>, spliced: seq<nat>) {
    forall i, k :: i in visited && 0 <= i < |pool| && 0 <= k < |pool[i].elems| ==> pool[i].elems[k] in spliced
  }

  class Cache {
    const hash: seq<nat> -> (nat, nat)
    var pool: seq<Bucket>
    var table: Table
    var scratch: seq<seq<nat>>
    var bucketEpoch: nat
    var selfBucket: nat
    /** Since the last reset: whose closure is being built, what was spliced, which buckets were visited. */
    ghost var self: nat
    ghost var spliced: seq<nat>
    ghost var visited: set<nat>

    /** The part that outlives a reset. */
    ghost predicate Stored()
      reads this
    {
      TableOk(table) && PoolOk(hash, pool, table.keys) && Epochs(pool, bucketEpoch, visited)
    }

    /** The part about the closure under construction. */
    ghost predicate Building(seen: EpochSet)
      reads this, seen
    {
      && seen.Valid() && selfBucket == BucketIndex(self)
      && Spliced(scratch, seen.members, spliced, self)
      && VisitedSpliced(pool, visited, spliced)
    }

    constructor (hash: seq<nat> -> (nat, nat))
      ensures Stored() && this.hash == hash && pool == []
    {
      this.hash := hash;
      pool, table := [], Table(Cells(map[], []), Cells(map[], []), []);
      scratch, bucketEpoch, selfBucket := seq(CLOSURE_BUCKETS, _ => []), 1, 0;
      self, spliced, visited := 0, [], {};
    }

    /** `internBucket`: `None` is the thrown hash-pair collision. */
    method InternBucket(elems: seq<nat>) returns (r: Option<nat>)
      requires Stored() && WellFormed(elems)
      modifies this`pool, this`table
      ensures Stored() && old(pool) <= pool
      ensures r == (if Lookup(old(table), hash(elems)).Some? then Lookup(old(table), hash(elems))
                    else if Collides(old(table), hash(elems)) then None else Some(old(|pool|)))
      ensures r.Some? ==> r.value < |pool| && hash(pool[r.value].elems) == hash(elems) && Lookup(table, hash(elems)) == r
      ensures Lookup(old(table), hash(elems)).Some? || r.None? ==> pool == old(pool) && table == old(table)
      ensures r == Some(old(|pool|)) ==>
                pool == old(pool) + [Bucket(0, elems)] && table == WithKey(old(table), hash(elems))
      ensures Keeps(old(table), table)
    {
      var key := hash(elems);
      var found := Lookup(table, key);
      if found.Some? {
        LookupIsOwn(table, key);
        assert PoolAt(hash, pool, table.keys, found.value);
        return found;
      }
      if Collides(table, key) {
        return None;
      }
      WithKeyOk(table, key);
      WithKeyKeeps(table, key);
      StoreKeeps(hash, pool, table.keys, bucketEpoch, visited, elems);
      r := Some(|pool|);
      pool := pool + [Bucket(0, elems)];
      table := WithKey(table, key);
    }

    /** `clearBucketEpochs`: both tables together reach every bucket. */
    method ClearBucketEpochs()
      requires TableOk(table) && |pool| == |table.keys|
      modifies this`pool
      ensures SameElems(old(pool), pool) && forall i :: 0 <= i < |pool| ==> pool[i].epoch == 0
    {
      for j := 0 to |table.primary.vals|
        invariant SameElems(old(pool), pool)
        invariant forall k :: 0 <= k < j ==> pool[table.primary.vals[k].span].epoch == 0
      {
        var i := table.primary.vals[j].span;
        pool := pool[i := pool[i].(epoch := 0)];
      }
      for j := 0 to |table.overflow.vals|
        invariant SameElems(old(pool), pool)
        invariant forall k :: 0 <= k < |table.primary.vals| ==> pool[table.primary.vals[k].span].epoch == 0
        invariant forall k :: 0 <= k < j ==> pool[table.overflow.vals[k].span].epoch == 0
      {
        var i := table.overflow.vals[j].span;
        pool := pool[i := pool[i].(epoch := 0)];
      }
      forall i | 0 <= i < |pool| ensures pool[i].epoch == 0 { assert Pointed(table, i); }
    }

    /** `resetScratch`, with `self` just marked in an otherwise empty seen set. */
    method ResetScratch(self: nat, seen: EpochSet)
      requires Stored() && seen.Valid() && seen.members == {self}
      modifies this
      ensures Stored() && Building(seen) && spliced == [] && this.self == self
      ensures SameElems(old(pool), pool) && table == old(table)
    {
      ghost var p0 := pool;
      scratch := seq(CLOSURE_BUCKETS, _ => []);
      selfBucket := BucketIndex(self);
      bucketEpoch := (bucketEpoch + 1) % EPOCH_WRAP;
      if bucketEpoch == 0 {
        ClearBucketEpochs();
        bucketEpoch := 1;
      }
      this.self, spliced, visited := self, [], {};
      SplicedNothing(self);
      SameElemsKeepPool(hash, p0, pool, table.keys);
      NextEpoch(p0, pool, old(bucketEpoch), bucketEpoch, old(visited));
    }

    /** `spliceOne`. */
    method SpliceOne(seen: EpochSet, v: nat)
      requires Stored() && Building(seen) && v < |seen.gen|
      modifies this`scratch, this`spliced, seen`gen, seen`members
      ensures Stored() && Building(seen) && spliced == old(spliced) + [v] && |seen.gen| == old(|seen.gen|)
    {
      SplicedOne(scratch, seen.members, spliced, self, v);
      var isNew := seen.AddStable(v);
      spliced := spliced + [v];
      if isNew {
        var r := BucketIndex(v);
        scratch := scratch[r := scratch[r] + [v]];
      }
    }

    /** The checked loop of `spliceBucketSlow`, on a local copy of the bucket's scratch list. */
    method CheckedAppend(seen: EpochSet, bucket: seq<nat>, list: seq<nat>, ghost rows: seq<seq<nat>>, ghost before: seq<nat>,
                         ghost self: nat) returns (dst: seq<nat>)
      requires seen.Valid() && Spliced(rows, seen.members, before, self) && WellFormed(bucket)
      requires rows[BucketIndex(bucket[0])] == list && forall k :: 0 <= k < |bucket| ==> bucket[k] < |seen.gen|
      modifies seen`gen, seen`members
      ensures seen.Valid() && |seen.gen| == old(|seen.gen|)
      ensures Spliced(rows[BucketIndex(bucket[0]) := dst], seen.members, before + bucket, self)
    {
      dst := list;
      ghost var r := BucketIndex(bucket[0]);
      ghost var done, now := before, rows;
      for k := 0 to |bucket|
        invariant seen.Valid() && |seen.gen| == old(|seen.gen|)
        invariant done == before + bucket[..k] && now == rows[r := dst]
        invariant Spliced(now, seen.members, done, self)
      {
        var v := bucket[k];
        SplicedOne(now, seen.members, done, self, v);
        done := done + [v];
        var isNew := seen.AddStable(v);
        if isNew {
          dst := dst + [v];
          now := now[r := dst];
        }
      }
      assert done == before + bucket;
    }

    /** `spliceBucketSlow`. */
    method SpliceBucketSlow(seen: EpochSet, bucket: seq<nat>)
      requires seen.Valid() && Spliced(scratch, seen.members, spliced, self) && WellFormed(bucket)
      requires forall k :: 0 <= k < |bucket| ==> bucket[k] < |seen.gen|
      modifies this`scratch, this`spliced, seen`gen, seen`members
      ensures seen.Valid() && Spliced(scratch, seen.members, spliced, self)
      ensures spliced == old(spliced) + bucket && |seen.gen| == old(|seen.gen|)
    {
      var r := BucketIndex(bucket[0]);
      var dst := CheckedAppend(seen, bucket, scratch[r], scratch, spliced, self);
      scratch := scratch[r := dst];
      spliced := spliced + bucket;
    }

    /** The unchecked fill of `storeBuckets`: a list already free of repeats and of self needs no seen set. */
    method FillScratch(self: nat, rest: seq<nat>)
      requires Distinct(rest) && self !in rest && scratch == seq(CLOSURE_BUCKETS, _ => [])
      modifies this`scratch
      ensures Spliced(scratch, Elems(rest) + {self}, rest, self)
    {
      for k := 0 to |rest|
        invariant |scratch| == CLOSURE_BUCKETS
        invariant forall r :: 0 <= r < CLOSURE_BUCKETS ==> scratch[r] == Kept(rest[..k], self, r)
      {
        var v := rest[k];
        assert v !in rest[..k] && rest[..k + 1] == rest[..k] + [v];
        forall r | 0 <= r < CLOSURE_BUCKETS
          ensures Kept(rest[..k + 1], self, r) == if BucketIndex(v) == r then scratch[r] + [v] else scratch[r]
        {
          KeptNew(rest[..k], self, r, scratch[r], v);
        }
        scratch := scratch[BucketIndex(v) := scratch[BucketIndex(v)] + [v]];
      }
      assert rest[..|rest|] == rest;
    }

    /** `storeScratch`: intern every non-empty scratch bucket, in bucket order. */
    method StoreScratch() returns (r: Option<seq<nat>>)
      requires Stored() && |scratch| == CLOSURE_BUCKETS
      requires forall b :: 0 <= b < CLOSURE_BUCKETS && scratch[b] != [] ==> WellFormed(scratch[b])
      modifies this`pool, this`table
      ensures Stored() && old(pool) <= pool
      ensures r.Some? ==> StandsFor(hash, pool, r.value, scratch, Rows(scratch, CLOSURE_BUCKETS))
      ensures r.None? ==> exists b :: 0 <= b < CLOSURE_BUCKETS && scratch[b] != [] && Collides(table, hash(scratch[b]))
    {
      var list: seq<nat> := [];
      for b := 0 to CLOSURE_BUCKETS
        invariant Stored() && old(pool) <= pool
        invariant StandsFor(hash, pool, list, scratch, Rows(scratch, b))
      {
        if scratch[b] != [] {
          ghost var p := pool;
          var i := InternBucket(scratch[b]);
          if i.None? {
            assert Collides(table, hash(scratch[b]));
            return None;
          }
          assert forall k :: 0 <= k < |list| ==> pool[list[k]] == p[list[k]];
          list := list + [i.value];
        }
      }
      r := Some(list);
    }

    /** The unchecked loop that marks a whole bucket as seen. */
    method MarkAll(seen: EpochSet, bucket: seq<nat>)
      requires seen.Valid() && forall k :: 0 <= k < |bucket| ==> bucket[k] < |seen.gen|
      modifies seen`gen, seen`members
      ensures seen.Valid() && seen.members == old(seen.members) + Elems(bucket) && |seen.gen| == old(|seen.gen|)
    {
      for k := 0 to |bucket|
        invariant seen.Valid() && |seen.gen| == old(|seen.gen|)
        invariant seen.members == old(seen.members) + Elems(bucket[..k])
      {
        var _ := seen.AddStable(bucket[k]);
        assert bucket[..k + 1] == bucket[..k] + [bucket[k]];
        FirstOccurrencesStep(bucket[..k], bucket[k]);
      }
      assert bucket[..|bucket|] == bucket;
    }

    /**
     * `spliceBucket`: skipping a bucket visited in this epoch, and copying a
     * whole bucket unchecked into an empty scratch bucket that is not self's,
     * both do what the checked loop would.
     */
    method SpliceBucket(seen: EpochSet, i: nat)
      requires Stored() && Building(seen) && i < |pool|
      requires forall k :: 0 <= k < |pool[i].elems| ==> pool[i].elems[k] < |seen.gen|
      modifies this`pool, this`scratch, this`spliced, this`visited, seen`gen, seen`members
      ensures Stored() && Building(seen) && spliced == old(spliced) + old(pool[i]).elems
      ensures SameElems(old(pool), pool) && |seen.gen| == old(|seen.gen|)
    {
      var bucket := pool[i].elems;
      assert StampedAt(pool, bucketEpoch, visited, i) && PoolAt(hash, pool, table.keys, i);
      if pool[i].epoch == bucketEpoch {
        SplicedSkip(scratch, seen.members, spliced, self, bucket);
        spliced := spliced + bucket;
        return;
      }
      VisitKeeps(hash, pool, table.keys, bucketEpoch, visited, i);
      pool := pool[i := pool[i].(epoch := bucketEpoch)];
      ghost var was := visited;
      var r := BucketIndex(bucket[0]);
      if scratch[r] == [] && r != selfBucket {
        SplicedFast(scratch, seen.members, spliced, self, bucket);
        MarkAll(seen, bucket);
        assert scratch[r] + bucket == bucket;
        scratch := scratch[r := scratch[r] + bucket];
        spliced := spliced + bucket;
        visited := visited + {i};
        return;
      }
      SpliceBucketSlow(seen, bucket);
      visited := visited + {i};
    }
  }

  /** The non-empty scratch buckets below `n`, in order. */
  ghost function Rows(scratch: seq<seq<nat>>, n: nat): seq<nat>
    requires n <= |scratch|
  {
    if n == 0 then [] else Rows(scratch, n - 1) + (if scratch[n - 1] == [] then [] else [n - 1])
  }

  lemma {:induction false} RowsMembers(scratch: seq<seq<nat>>, n: nat, r: nat)
    requires n <= |scratch|
    ensures r in Rows(scratch, n) <==> r < n && scratch[r] != []
  {
    if n > 0 { RowsMembers(scratch, n - 1, r); }
  }

  /** Each stored bucket carries the hash of the scratch bucket it stands for. */
  ghost predicate StandsFor(hash: seq<nat> -> (nat, nat), pool: seq<Bucket>, list: seq<nat>, scratch: seq<seq<nat>>, rows: seq<nat>) {
    && |list| == |rows|
    && (forall k :: 0 <= k < |list| ==>
          list[k] < |pool| && rows[k] < |scratch| && hash(pool[list[k]].elems) == hash(scratch[rows[k]]))
  }

  /** No two different buckets that matter here have the same hash pair. */
  ghost predicate Collisionless(hash: seq<nat> -> (nat, nat), pool: seq<Bucket>, scratch: seq<seq<nat>>) {
    forall i, r :: 0 <= i < |pool| && 0 <= r < |scratch| && hash(pool[i].elems) == hash(scratch[r]) ==>
      multiset(pool[i].elems) == multiset(scratch[r])
  }

  /** The files a stored closure lists besides its own. */
  ghost predicate Lists(pool: seq<Bucket>, list: seq<nat>, v: nat) {
    exists k :: 0 <= k < |list| && list[k] < |pool| && v in pool[list[k]].elems
  }

  /** A stored closure lists exactly what was spliced, apart from self. */
  lemma {:induction false} StoredClosureIsExact(hash: seq<nat> -> (nat, nat), pool: seq<Bucket>, list: seq<nat>, scratch: seq<seq<nat>>,
                                                members: set<nat>, spliced: seq<nat>, self: nat, v: nat)
    requires Spliced(scratch, members, spliced, self) && StandsFor(hash, pool, list, scratch, Rows(scratch, CLOSURE_BUCKETS))
    requires Collisionless(hash, pool, scratch)
    ensures Lists(pool, list, v) <==> v in spliced && v != self
  {
    var rows := Rows(scratch, CLOSURE_BUCKETS);
    if Lists(pool, list, v) {
      var k :| 0 <= k < |list| && list[k] < |pool| && v in pool[list[k]].elems;
      assert v in multiset(pool[list[k]].elems) && v in multiset(scratch[rows[k]]);
      assert rows[k] in rows;
      RowsMembers(scratch, CLOSURE_BUCKETS, rows[k]);
      assert RowAt(scratch, spliced, self, rows[k]);
      KeptMembers(spliced, self, rows[k], v);
    }
    if v in spliced && v != self {
      var r := BucketIndex(v);
      assert RowAt(scratch, spliced, self, r);
      KeptMembers(spliced, self, r, v);
      RowsMembers(scratch, CLOSURE_BUCKETS, r);
      var k :| 0 <= k < |rows| && rows[k] == r;
      assert v in multiset(scratch[r]) && v in multiset(pool[list[k]].elems);
    }
  }

  // ------------------------------------------------------------ what a closure lists

  /** The elements of the first `n` buckets of a list, in order. */
  ghost function Listing(pool: seq<Bucket>, list: seq<nat>, n: nat): seq<nat>
    requires n <= |list|
  {
    if n == 0 then []
    else Listing(pool, list, n - 1) + if list[n - 1] < |pool| then pool[list[n - 1]].elems else []
  }

  /** `each` and `collect`: the file itself, if it is one, then its buckets. */
  ghost function Denoted(pool: seq<Bucket>, self: nat, list: seq<nat>): seq<nat> {
    (if self != 0 then [self] else []) + Listing(pool, list, |list|)
  }

  lemma {:induction false} ListingMembers(pool: seq<Bucket>, list: seq<nat>, n: nat, v: nat)
    requires n <= |list|
    ensures v in Listing(pool, list, n) <==> exists k :: 0 <= k < n && list[k] < |pool| && v in pool[list[k]].elems
  {
    if n > 0 { ListingMembers(pool, list, n - 1, v); }
  }

  lemma {:induction false} RowsIncrease(scratch: seq<seq<nat>>, n: nat, i: nat, j: nat)
    requires n <= |scratch| && i < j < |Rows(scratch, n)|
    ensures Rows(scratch, n)[i] < Rows(scratch, n)[j]
  {
    var init := Rows(scratch, n - 1);
    if j < |init| {
      RowsIncrease(scratch, n - 1, i, j);
    } else {
      assert init[i] in init;
      RowsMembers(scratch, n - 1, init[i]);
    }
  }

  /** Every element of a stored bucket belongs to the row the bucket stands for. */
  lemma {:induction false} ElementRow(hash: seq<nat> -> (nat, nat), pool: seq<Bucket>, list: seq<nat>, scratch: seq<seq<nat>>,
                                      members: set<nat>, spliced: seq<nat>, self: nat, k: nat, v: nat)
    requires Spliced(scratch, members, spliced, self) && StandsFor(hash, pool, list, scratch, Rows(scratch, CLOSURE_BUCKETS))
    requires Collisionless(hash, pool, scratch) && k < |list| && v in pool[list[k]].elems
    ensures BucketIndex(v) == Rows(scratch, CLOSURE_BUCKETS)[k] && v != self
  {
    var r := Rows(scratch, CLOSURE_BUCKETS)[k];
    assert v in multiset(pool[list[k]].elems) && v in multiset(scratch[r]);
    assert r in Rows(scratch, CLOSURE_BUCKETS);
    RowsMembers(scratch, CLOSURE_BUCKETS, r);
    assert RowAt(scratch, spliced, self, r);
    KeptMembers(spliced, self, r, v);
  }

  lemma {:induction false} DistinctConcat(a: seq<nat>, b: seq<nat>)
    requires Distinct(a) && Distinct(b) && forall i :: 0 <= i < |b| ==> b[i] !in a
    ensures Distinct(a + b)
  {
  }

  ghost predicate FitAt(pool: seq<Bucket>, i: nat)
    requires i < |pool|
  {
    WellFormed(pool[i].elems)
  }

  ghost predicate AllFit(pool: seq<Bucket>) {
    forall i: nat {:trigger FitAt(pool, i)} :: i < |pool| ==> FitAt(pool, i)
  }

  /** No element of bucket `n` is listed by the buckets before it. */
  lemma {:induction false} NotListedBefore(hash: seq<nat> -> (nat, nat), pool: seq<Bucket>, list: seq<nat>, scratch: seq<seq<nat>>,
                                           members: set<nat>, spliced: seq<nat>, self: nat, n: nat, v: nat)
    requires Spliced(scratch, members, spliced, self) && StandsFor(hash, pool, list, scratch, Rows(scratch, CLOSURE_BUCKETS))
    requires Collisionless(hash, pool, scratch) && n < |list| && v in pool[list[n]].elems
    ensures v !in Listing(pool, list, n)
  {
    ListingMembers(pool, list, n, v);
    ElementRow(hash, pool, list, scratch, members, spliced, self, n, v);
    forall k | 0 <= k < n && list[k] < |pool| && v in pool[list[k]].elems
      ensures false
    {
      ElementRow(hash, pool, list, scratch, members, spliced, self, k, v);
      RowsIncrease(scratch, CLOSURE_BUCKETS, k, n);
    }
  }

  /** Bucket `n` of the list is in the pool and shares nothing with the buckets before it. */
  ghost predicate ApartAt(pool: seq<Bucket>, list: seq<nat>, n: nat)
    requires n < |list|
  {
    list[n] < |pool| && forall v :: v in pool[list[n]].elems ==> v !in Listing(pool, list, n)
  }

  lemma {:induction false} ListingDistinct(pool: seq<Bucket>, list: seq<nat>, n: nat)
    requires AllFit(pool) && n <= |list| && forall k: nat {:trigger ApartAt(pool, list, k)} :: k < |list| ==> ApartAt(pool, list, k)
    ensures Distinct(Listing(pool, list, n))
  {
    if n > 0 {
      var k: nat := n - 1;
      ListingDistinct(pool, list, k);
      assert ApartAt(pool, list, k);
      assert FitAt(pool, list[k]);
      DistinctConcat(Listing(pool, list, k), pool[list[k]].elems);
    }
  }

  /** A stored closure lists its own file and everything spliced, each exactly once. */
  lemma {:induction false} ClosureListsOnce(hash: seq<nat> -> (nat, nat), pool: seq<Bucket>, list: seq<nat>, scratch: seq<seq<nat>>,
                                            members: set<nat>, spliced: seq<nat>, self: nat, v: nat)
    requires Spliced(scratch, members, spliced, self) && StandsFor(hash, pool, list, scratch, Rows(scratch, CLOSURE_BUCKETS))
    requires Collisionless(hash, pool, scratch) && AllFit(pool)
    ensures Distinct(Denoted(pool, self, list))
    ensures v in Denoted(pool, self, list) <==> (v == self && self != 0) || (v in spliced && v != self)
  {
    var all := Listing(pool, list, |list|);
    forall n: nat | n < |list|
      ensures ApartAt(pool, list, n)
    {
      forall x | x in pool[list[n]].elems
        ensures x !in Listing(pool, list, n)
      {
        NotListedBefore(hash, pool, list, scratch, members, spliced, self, n, x);
      }
    }
    ListingDistinct(pool, list, |list|);
    ListingMembers(pool, list, |list|, v);
    ListingMembers(pool, list, |list|, self);
    StoredClosureIsExact(hash, pool, list, scratch, members, spliced, self, v);
    StoredClosureIsExact(hash, pool, list, scratch, members, spliced, self, self);
    assert forall i :: 0 <= i < |all| ==> all[i] in all;
    assert Distinct([self]) && Distinct<nat>([]);
    DistinctConcat(if self != 0 then [self] else [], all);
  }

  /** `Closure.len`. */
  method ClosureLen(pool: seq<Bucket>, self: nat, list: seq<nat>) returns (n: nat)
    requires forall k :: 0 <= k < |list| ==> list[k] < |pool|
    ensures n == |Denoted(pool, self, list)|
  {
    n := if self != 0 then 1 else 0;
    ghost var own := n;
    for k := 0 to |list|
      invariant n == own + |Listing(pool, list, k)|
    {
      n := n + |pool[list[k]].elems|;
    }
  }

  lemma {:induction false} StoreKeeps(hash: seq<nat> -> (nat, nat), pool: seq<Bucket>, keys: seq<(nat, nat)>, epoch: nat,
                                      visited: set<nat>, elems: seq<nat>)
    requires PoolOk(hash, pool, keys) && Epochs(pool, epoch, visited) && WellFormed(elems)
    ensures PoolOk(hash, pool + [Bucket(0, elems)], keys + [hash(elems)])
    ensures Epochs(pool + [Bucket(0, elems)], epoch, visited)
  {
    var pool', keys' := pool + [Bucket(0, elems)], keys + [hash(elems)];
    forall i | 0 <= i < |pool'|
      ensures PoolAt(hash, pool', keys', i) && StampedAt(pool', epoch, visited, i)
    {
      if i < |pool| { assert PoolAt(hash, pool, keys, i) && StampedAt(pool, epoch, visited, i); }
    }
  }

  lemma {:induction false} VisitKeeps(hash: seq<nat> -> (nat, nat), pool: seq<Bucket>, keys: seq<(nat, nat)>, epoch: nat,
                                      visited: set<nat>, i: nat)
    requires PoolOk(hash, pool, keys) && Epochs(pool, epoch, visited) && i < |pool|
    ensures var pool' := pool[i := pool[i].(epoch := epoch)];
            PoolOk(hash, pool', keys) && Epochs(pool', epoch, visited + {i}) && SameElems(pool, pool')
  {
    var pool' := pool[i := pool[i].(epoch := epoch)];
    forall j | 0 <= j < |pool'|
      ensures PoolAt(hash, pool', keys, j) && StampedAt(pool', epoch, visited + {i}, j)
    {
      assert PoolAt(hash, pool, keys, j) && StampedAt(pool, epoch, visited, j);
    }
  }

  /** A new epoch no stamp carries yet: the next number, or 1 after clearing every stamp. */
  lemma {:induction false} NextEpoch(before: seq<Bucket>, after: seq<Bucket>, epoch: nat, epoch': nat, visited: set<nat>)
    requires Epochs(before, epoch, visited) && SameElems(before, after)
    requires if epoch + 1 < EPOCH_WRAP then epoch' == epoch + 1 && after == before
             else epoch' == 1 && forall i :: 0 <= i < |after| ==> after[i].epoch == 0
    ensures Epochs(after, epoch', {})
  {
    forall i | 0 <= i < |after|
      ensures StampedAt(after, epoch', {}, i)
    {
      assert StampedAt(before, epoch, visited, i);
    }
  }
}
