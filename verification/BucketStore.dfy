/** Interned buckets in the bump allocator: each slot's span reads back its bucket for ever (bucket_cache.go, bump_allocator.go). */
module BucketStore {
  import opened Prelude
  import opened BucketCache
  import B = BumpAllocator

  /** `storeBucket`'s block: the epoch word, then the elements. */
  function Block(elems: seq<nat>): seq<nat> {
    [0] + elems
  }

  ghost predicate SpanAt(pool: seq<Bucket>, spans: seq<B.BumpSpan>, issued: seq<B.BumpSpan>, stored: seq<seq<nat>>, i: nat)
    requires |pool| == |spans| == |issued| == |stored| && i < |pool|
  {
    spans[i] == issued[i] && stored[i] == Block(pool[i].elems)
  }

  /** Slot by slot, the spans are those issued for the pool's buckets. */
  ghost predicate Backed(pool: seq<Bucket>, spans: seq<B.BumpSpan>, issued: seq<B.BumpSpan>, stored: seq<seq<nat>>) {
    && |pool| == |spans| == |issued| == |stored|
    && forall i: nat {:trigger SpanAt(pool, spans, issued, stored, i)} :: i < |pool| ==> SpanAt(pool, spans, issued, stored, i)
  }

  lemma {:induction false} BackedPush(pool: seq<Bucket>, spans: seq<B.BumpSpan>, issued: seq<B.BumpSpan>, stored: seq<seq<nat>>,
                                      elems: seq<nat>, span: B.BumpSpan)
    requires Backed(pool, spans, issued, stored)
    ensures Backed(pool + [Bucket(0, elems)], spans + [span], issued + [span], stored + [Block(elems)])
  {
    var pool', spans', issued', stored' := pool + [Bucket(0, elems)], spans + [span], issued + [span], stored + [Block(elems)];
    forall i: nat | i < |pool'|
      ensures SpanAt(pool', spans', issued', stored', i)
    {
      if i < |pool| { assert SpanAt(pool, spans, issued, stored, i); }
    }
  }

  /** Splices and resets change epoch words only, and leave every span in place. */
  lemma {:induction false} EpochsKeepBacked(pool: seq<Bucket>, pool': seq<Bucket>, spans: seq<B.BumpSpan>, issued: seq<B.BumpSpan>, stored: seq<seq<nat>>)
    requires Backed(pool, spans, issued, stored) && SameElems(pool, pool')
    ensures Backed(pool', spans, issued, stored)
  {
    forall i: nat | i < |pool'| ensures SpanAt(pool', spans, issued, stored, i) { assert SpanAt(pool, spans, issued, stored, i); }
  }

  /** Distinct hash pairs have spans that do not overlap. */
  lemma {:induction false} PairsAreApart(t: Table, pool: seq<Bucket>, spans: seq<B.BumpSpan>, chunks: seq<seq<nat>>, used: nat,
                                         issued: seq<B.BumpSpan>, stored: seq<seq<nat>>, a: (nat, nat), b: (nat, nat))
    requires TableOk(t) && |t.keys| == |pool| && Backed(pool, spans, issued, stored) && B.Issued(chunks, used, issued, stored)
    requires Lookup(t, a).Some? && Lookup(t, b).Some? && a != b
    ensures Lookup(t, a).value < |spans| && Lookup(t, b).value < |spans|
    ensures B.Apart(spans[Lookup(t, a).value], spans[Lookup(t, b).value])
  {
    LookupIsOwn(t, a);
    LookupIsOwn(t, b);
    var i, j := Lookup(t, a).value, Lookup(t, b).value;
    assert SpanAt(pool, spans, issued, stored, i) && SpanAt(pool, spans, issued, stored, j);
    if i < j { B.SpansAreApart(chunks, used, issued, stored, i, j); } else { B.SpansAreApart(chunks, used, issued, stored, j, i); }
  }

  class Store {
    const cache: Cache
    const bump: B.IndexedBump<nat>
    /** The span of each slot. */
    var spans: seq<B.BumpSpan>

    ghost predicate Valid()
      reads this, cache, bump
    {
      cache.Stored() && bump.Valid() && Backed(cache.pool, spans, bump.issued, bump.stored)
    }

    constructor (hash: seq<nat> -> (nat, nat), limit: nat)
      ensures Valid() && fresh(cache) && fresh(bump) && cache.hash == hash && spans == []
    {
      cache := new Cache(hash);
      bump := new B.IndexedBump(limit, 0);
      spans := [];
    }

    /** `internBucket` with `storeBucket`: the span of the bucket's hash pair, new or old; `None` is the thrown collision. */
    method Intern(elems: seq<nat>) returns (r: Option<B.BumpSpan>)
      requires Valid() && WellFormed(elems)
      modifies this, cache`pool, cache`table, bump
      ensures Valid() && old(spans) <= spans && old(cache.pool) <= cache.pool && Keeps(old(cache.table), cache.table)
      ensures r.None? <==> Lookup(old(cache.table), cache.hash(elems)).None? && Collides(old(cache.table), cache.hash(elems))
      ensures r.Some? ==>
                var slot := Lookup(cache.table, cache.hash(elems));
                && slot.Some? && slot.value < |spans| && r.value == spans[slot.value]
                && (Lookup(old(cache.table), cache.hash(elems)).None? ==>
                      cache.pool[slot.value] == Bucket(0, elems) && bump.stored[slot.value] == [cache.pool[slot.value].epoch] + elems)
    {
      var slot := cache.InternBucket(elems);
      if slot.None? {
        return None;
      }
      if slot.value == |spans| {
        var span := bump.Store(Block(elems));
        BackedPush(old(cache.pool), spans, old(bump.issued), old(bump.stored), elems, span);
        spans := spans + [span];
      }
      r := Some(spans[slot.value]);
    }

    /** Reading the span of a pair gives, behind the epoch word, the bucket interned for it. */
    method Read(key: (nat, nat)) returns (r: seq<nat>)
      requires Valid() && Lookup(cache.table, key).Some?
      ensures WellFormed(r) && cache.hash(r) == key
      ensures Lookup(cache.table, key).value < |cache.pool| && r == cache.pool[Lookup(cache.table, key).value].elems
    {
      LookupIsOwn(cache.table, key);
      var slot := Lookup(cache.table, key).value;
      assert SpanAt(cache.pool, spans, bump.issued, bump.stored, slot);
      assert PoolAt(cache.hash, cache.pool, cache.table.keys, slot);
      var block := bump.Read(spans[slot], slot);
      r := block[1..];
    }
  }

  /**
   * The joint theorem: whatever is interned after a bucket, its pair keeps its span,
   * the span still reads back what was interned first for the pair (the bucket
   * itself if its pair was new), and no other pair's span overlaps it.
   */
  method ReadsBackForever(store: Store, elems: seq<nat>, later: seq<seq<nat>>, other: (nat, nat))
      returns (first: Option<B.BumpSpan>, now: Option<B.BumpSpan>, r: seq<nat>)
    requires store.Valid() && WellFormed(elems) && forall i :: 0 <= i < |later| ==> WellFormed(later[i])
    modifies store, store.cache`pool, store.cache`table, store.bump
    ensures store.Valid() && (first.Some? ==> now == first && WellFormed(r) && store.cache.hash(r) == store.cache.hash(elems))
    ensures first.Some? && Lookup(old(store.cache.table), store.cache.hash(elems)).None? ==> r == elems
    ensures Lookup(old(store.cache.table), store.cache.hash(elems)).Some? ==>
              var slot := Lookup(old(store.cache.table), store.cache.hash(elems)).value;
              first.Some? && slot < old(|store.cache.pool|) && r == old(store.cache.pool)[slot].elems
    ensures first.Some? && Lookup(store.cache.table, other).Some? && other != store.cache.hash(elems) ==>
              var slot := Lookup(store.cache.table, other).value;
              slot < |store.spans| && B.Apart(first.value, store.spans[slot])
  {
    r := [];
    first := store.Intern(elems);
    if first.None? {
      return None, None, [];
    }
    ghost var t, spans, pool := store.cache.table, store.spans, store.cache.pool;
    for i := 0 to |later|
      invariant store.Valid() && spans <= store.spans && pool <= store.cache.pool && Keeps(t, store.cache.table)
    {
      ghost var u := store.cache.table;
      var _ := store.Intern(later[i]);
      KeepsTrans(t, u, store.cache.table);
    }
    ghost var key := store.cache.hash(elems);
    assert Lookup(store.cache.table, key) == Lookup(t, key);
    var slot := Lookup(store.cache.table, store.cache.hash(elems));
    now := Some(store.spans[slot.value]);
    r := store.Read(store.cache.hash(elems));
    if Lookup(store.cache.table, other).Some? && other != key {
      PairsAreApart(store.cache.table, store.cache.pool, store.spans, store.bump.chunks, store.bump.used,
                    store.bump.issued, store.bump.stored, key, other);
    }
  }
}
