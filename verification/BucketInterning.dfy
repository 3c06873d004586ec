/** Interning with the bucket hash: equal multisets are one bucket (bucket_cache.go, bucket_hash.go). */
module BucketInterning {
  import opened Prelude
  import opened BucketCache
  import BucketHash

  type Word = BucketHash.Word

  /** The words that stand for the elements; `word` is the conversion of an id. */
  function Words(word: nat -> Word, elems: seq<nat>): seq<Word> {
    seq(|elems|, i requires 0 <= i < |elems| => word(elems[i]))
  }

  lemma {:induction false} WordsRemoved(word: nat -> Word, b: seq<nat>, i: nat)
    requires i < |b|
    ensures Words(word, b[..i] + b[i + 1..]) == Words(word, b)[..i] + Words(word, b)[i + 1..]
  {
  }

  lemma {:induction false} RemoveOne(xs: seq<Word>, i: nat)
    requires i < |xs|
    ensures multiset(xs) == multiset(xs[..i] + xs[i + 1..]) + multiset{xs[i]}
  {
    assert xs == xs[..i] + [xs[i]] + xs[i + 1..];
  }

  lemma {:induction false} WordsPermute(word: nat -> Word, a: seq<nat>, b: seq<nat>)
    requires multiset(a) == multiset(b)
    ensures multiset(Words(word, a)) == multiset(Words(word, b))
    decreases |a|
  {
    if a == [] {
      assert |multiset(b)| == 0;
    } else {
      var i := BucketHash.FindLast(a, b);
      var k: nat := |a| - 1;
      assert a[..k] + a[k + 1..] == a[..k];
      WordsPermute(word, a[..k], b[..i] + b[i + 1..]);
      WordsRemoved(word, a, k);
      WordsRemoved(word, b, i);
      RemoveOne(Words(word, a), k);
      RemoveOne(Words(word, b), i);
    }
  }

  /** `bucketHash` with any mixer and any mixed count. */
  function PairHash(word: nat -> Word, mix: Word -> Word, count: nat -> Word): seq<nat> -> (nat, nat) {
    elems =>
      var h := BucketHash.Hash(BucketHash.WordOps(mix), count, Words(word, elems));
      (h.0, h.1)
  }

  lemma {:induction false} PairHashPermutes(word: nat -> Word, mix: Word -> Word, count: nat -> Word, a: seq<nat>, b: seq<nat>)
    requires multiset(a) == multiset(b)
    ensures PairHash(word, mix, count)(a) == PairHash(word, mix, count)(b)
  {
    WordsPermute(word, a, b);
    BucketHash.WordLaws(mix);
    BucketHash.HashIsPermutationInvariant(BucketHash.WordOps(mix), count, Words(word, a), Words(word, b));
  }

  /**
   * Buckets that differ in one element, which the mixer keeps apart, have different
   * pairs, unless a zero and a one meet in both hashes.
   */
  lemma {:induction false} PairTellsApart(word: nat -> Word, mix: Word -> Word, count: nat -> Word,
                                          left: seq<nat>, x: nat, y: nat, right: seq<nat>)
    requires mix(word(x)) != mix(word(y))
    ensures var o, a, b := BucketHash.WordOps(mix), Words(word, left + [x] + right), Words(word, left + [y] + right);
            PairHash(word, mix, count)(left + [x] + right) != PairHash(word, mix, count)(left + [y] + right)
            || ({BucketHash.Raw(o, count, a).0, BucketHash.Raw(o, count, b).0} == {0, 1}
                && {BucketHash.Raw(o, count, a).1, BucketHash.Raw(o, count, b).1} == {0, 1})
  {
    assert Words(word, left + [x] + right) == Words(word, left) + [word(x)] + Words(word, right);
    assert Words(word, left + [y] + right) == Words(word, left) + [word(y)] + Words(word, right);
    BucketHash.WordLaws(mix);
    BucketHash.WordsCancel(mix);
    BucketHash.OneChangeShows(BucketHash.WordOps(mix), count, Words(word, left), word(x), word(y), Words(word, right));
  }

  /** `n` more buckets interned; false if one of them collides. */
  method InternAll(cache: Cache, buckets: seq<seq<nat>>) returns (ok: bool)
    requires cache.Stored() && forall i :: 0 <= i < |buckets| ==> WellFormed(buckets[i])
    modifies cache`pool, cache`table
    ensures cache.Stored() && Keeps(old(cache.table), cache.table)
  {
    for i := 0 to |buckets|
      invariant cache.Stored() && Keeps(old(cache.table), cache.table)
    {
      ghost var before := cache.table;
      var r := cache.InternBucket(buckets[i]);
      KeepsTrans(old(cache.table), before, cache.table);
      if r.None? {
        return false;
      }
    }
    ok := true;
  }

  /**
   * Interning is canonical: whatever is interned in between, two orders of the same
   * elements get the same slot.
   */
  method SameBucketForever(cache: Cache, word: nat -> Word, mix: Word -> Word, count: nat -> Word,
                           a: seq<nat>, between: seq<seq<nat>>, b: seq<nat>) returns (first: Option<nat>, second: Option<nat>)
    requires cache.Stored() && cache.hash == PairHash(word, mix, count)
    requires WellFormed(a) && WellFormed(b) && multiset(a) == multiset(b)
    requires forall i :: 0 <= i < |between| ==> WellFormed(between[i])
    modifies cache`pool, cache`table
    ensures cache.Stored() && (first.Some? ==> second == first)
  {
    PairHashPermutes(word, mix, count, a, b);
    first := cache.InternBucket(a);
    var ok := InternAll(cache, between);
    second := cache.InternBucket(b);
  }
}
