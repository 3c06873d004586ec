/** Hashing a bucket (bucket_hash.go, bucket_hash_amd64.go, bucket_hash_other.go). */
module BucketHash {
  import opened Prelude

  /**
   * The operations on 64-bit words: wrapping addition, exclusive or and the
   * mixer. Only the laws below are used of the first two, nothing of the third.
   */
  datatype Ops<!W> = Ops(zero: W, one: W, add: (W, W) -> W, xor: (W, W) -> W, mix: W -> W)

  ghost predicate Unit<W>(zero: W, op: (W, W) -> W, a: W) {
    op(zero, a) == a && op(a, zero) == a
  }

  ghost predicate Commutes<W>(op: (W, W) -> W, a: W, b: W) {
    op(a, b) == op(b, a)
  }

  ghost predicate Associates<W>(op: (W, W) -> W, a: W, b: W, c: W) {
    op(op(a, b), c) == op(a, op(b, c))
  }

  ghost predicate Monoid<W(!new)>(zero: W, op: (W, W) -> W) {
    && (forall a {:trigger Unit(zero, op, a)} :: Unit(zero, op, a))
    && (forall a, b {:trigger Commutes(op, a, b)} :: Commutes(op, a, b))
    && (forall a, b, c {:trigger Associates(op, a, b, c)} :: Associates(op, a, b, c))
  }

  ghost predicate Laws<W(!new)>(o: Ops<W>) {
    Monoid(o.zero, o.add) && Monoid(o.zero, o.xor) && o.zero != o.one
  }

  // ------------------------------------------------------------ machine words

  type Word = x: nat | x < 0x1_0000_0000_0000_0000

  /** Wrapping addition. */
  function WordAdd(a: Word, b: Word): Word {
    (a + b) % WORD
  }

  lemma {:induction false} AddAssociates(a: Word, b: Word, c: Word)
    ensures Associates(WordAdd, a, b, c)
  {
    assert ((a + b) % WORD + c) % WORD == (a + b + c) % WORD;
    assert (a + (b + c) % WORD) % WORD == (a + b + c) % WORD;
  }

  lemma {:induction false} AddMonoid()
    ensures Monoid(0, WordAdd)
  {
    forall a ensures Unit(0, WordAdd, a) {}
    forall a, b ensures Commutes(WordAdd, a, b) {}
    forall a, b, c ensures Associates(WordAdd, a, b, c) { AddAssociates(a, b, c); }
  }

  /** The `k` low bits of a number, lowest first, and back. */
  function ToBits(a: nat, k: nat): (r: seq<bool>)
    ensures |r| == k
    decreases k
  {
    if k == 0 then [] else [a % 2 == 1] + ToBits(a / 2, k - 1)
  }

  function FromBits(bits: seq<bool>): nat {
    if bits == [] then 0 else (if bits[0] then 1 else 0) + 2 * FromBits(bits[1..])
  }

  lemma {:induction false} FromToBits(a: nat, k: nat)
    requires a < Pow2(k)
    ensures FromBits(ToBits(a, k)) == a
    decreases k
  {
    if k > 0 { FromToBits(a / 2, k - 1); }
  }

  lemma {:induction false} ToFromBits(bits: seq<bool>)
    ensures FromBits(bits) < Pow2(|bits|) && ToBits(FromBits(bits), |bits|) == bits
    decreases |bits|
  {
    if bits != [] {
      ToFromBits(bits[1..]);
      assert bits == [bits[0]] + bits[1..];
    }
  }

  function XorBits(a: seq<bool>, b: seq<bool>): (r: seq<bool>)
    requires |a| == |b|
    ensures |r| == |a|
  {
    seq(|a|, i requires 0 <= i < |a| => a[i] != b[i])
  }

  lemma {:induction false} XorBitsLaws(a: seq<bool>, b: seq<bool>, c: seq<bool>)
    requires |a| == |b| == |c|
    ensures XorBits(a, b) == XorBits(b, a)
    ensures XorBits(XorBits(a, b), c) == XorBits(a, XorBits(b, c))
  {
  }

  lemma {:induction false} ZeroBits(a: seq<bool>)
    ensures XorBits(ToBits(0, |a|), a) == a
    decreases |a|
  {
    ZeroBitsFalse(|a|);
  }

  lemma {:induction false} ZeroBitsFalse(k: nat)
    ensures forall i :: 0 <= i < k ==> !ToBits(0, k)[i]
    decreases k
  {
    if k > 0 { ZeroBitsFalse(k - 1); }
  }

  /** Exclusive or, bit by bit. */
  function WordXor(a: Word, b: Word): Word {
    var bits := XorBits(ToBits(a, BITS), ToBits(b, BITS));
    WordBits();
    ToFromBits(bits);
    FromBits(bits)
  }

  lemma {:induction false} XorMeans(a: Word, b: Word)
    ensures ToBits(WordXor(a, b), BITS) == XorBits(ToBits(a, BITS), ToBits(b, BITS))
  {
    ToFromBits(XorBits(ToBits(a, BITS), ToBits(b, BITS)));
  }

  /** Words with the same bits are the same word. */
  lemma {:induction false} SameBits(a: Word, b: Word)
    requires ToBits(a, BITS) == ToBits(b, BITS)
    ensures a == b
  {
    WordBits();
    FromToBits(a, BITS);
    FromToBits(b, BITS);
  }

  lemma {:induction false} XorUnit(a: Word)
    ensures Unit(0, WordXor, a)
  {
    XorMeans(0, a);
    XorMeans(a, 0);
    ZeroBits(ToBits(a, BITS));
    XorBitsLaws(ToBits(a, BITS), ToBits(0, BITS), ToBits(0, BITS));
    SameBits(WordXor(0, a), a);
    SameBits(WordXor(a, 0), a);
  }

  lemma {:induction false} XorCommutes(a: Word, b: Word)
    ensures Commutes(WordXor, a, b)
  {
    XorMeans(a, b);
    XorMeans(b, a);
    XorBitsLaws(ToBits(a, BITS), ToBits(b, BITS), ToBits(b, BITS));
    SameBits(WordXor(a, b), WordXor(b, a));
  }

  lemma {:induction false} XorAssociates(a: Word, b: Word, c: Word)
    ensures Associates(WordXor, a, b, c)
  {
    var ab, bc := WordXor(a, b), WordXor(b, c);
    XorMeans(a, b);
    XorMeans(b, c);
    XorMeans(ab, c);
    XorMeans(a, bc);
    XorBitsLaws(ToBits(a, BITS), ToBits(b, BITS), ToBits(c, BITS));
    SameBits(WordXor(ab, c), WordXor(a, bc));
  }

  lemma {:induction false} XorMonoid()
    ensures Monoid(0, WordXor)
  {
    forall a: Word ensures Unit(0, WordXor, a) { XorUnit(a); }
    forall a: Word, b: Word ensures Commutes(WordXor, a, b) { XorCommutes(a, b); }
    forall a: Word, b: Word, c: Word ensures Associates(WordXor, a, b, c) { XorAssociates(a, b, c); }
  }

  /** The operations on machine words, with any mixer. */
  function WordOps(mix: Word -> Word): Ops<Word> {
    Ops(0, 1, WordAdd, WordXor, mix)
  }

  /** Machine words obey the laws. */
  lemma {:induction false} WordLaws(mix: Word -> Word)
    ensures Laws(WordOps(mix))
  {
    AddMonoid();
    XorMonoid();
  }

  /** The two accumulators. */
  datatype Fold<W> = Fold(sum: W, xr: W)

  function Plus<W>(o: Ops<W>, a: Fold<W>, b: Fold<W>): Fold<W> {
    Fold(o.add(a.sum, b.sum), o.xor(a.xr, b.xr))
  }

  function One<W>(o: Ops<W>, v: W): Fold<W> {
    Fold(o.mix(v), o.mix(v))
  }

  lemma {:induction false} PlusLaws<W(!new)>(o: Ops<W>, a: Fold<W>, b: Fold<W>, c: Fold<W>)
    requires Laws(o)
    ensures Plus(o, a, Fold(o.zero, o.zero)) == a
    ensures Plus(o, a, b) == Plus(o, b, a)
    ensures Plus(o, Plus(o, a, b), c) == Plus(o, a, Plus(o, b, c))
  {
    assert Unit(o.zero, o.add, a.sum) && Unit(o.zero, o.xor, a.xr);
    assert Commutes(o.add, a.sum, b.sum) && Commutes(o.xor, a.xr, b.xr);
    assert Associates(o.add, a.sum, b.sum, c.sum) && Associates(o.xor, a.xr, b.xr, c.xr);
  }

  /** The plain fold of the portable build. */
  function Plain<W>(o: Ops<W>, elems: seq<W>): Fold<W> {
    if elems == [] then Fold(o.zero, o.zero) else Plus(o, Plain(o, elems[..|elems| - 1]), One(o, elems[|elems| - 1]))
  }

  lemma {:induction false} PlainConcat<W(!new)>(o: Ops<W>, a: seq<W>, b: seq<W>)
    requires Laws(o)
    ensures Plain(o, a + b) == Plus(o, Plain(o, a), Plain(o, b))
    decreases |b|
  {
    if b == [] {
      assert a + b == a;
      PlusLaws(o, Plain(o, a), Plain(o, a), Plain(o, a));
    } else {
      var init := b[..|b| - 1];
      assert (a + b)[..|a + b| - 1] == a + init;
      PlainConcat(o, a, init);
      PlusLaws(o, Plain(o, a), Plain(o, init), One(o, b[|b| - 1]));
    }
  }

  /** Moving one element to the end. */
  lemma {:induction false} PlainMoveLast<W(!new)>(o: Ops<W>, left: seq<W>, x: W, right: seq<W>)
    requires Laws(o)
    ensures Plain(o, left + [x] + right) == Plus(o, Plain(o, left + right), One(o, x))
  {
    PlainConcat(o, left + [x], right);
    PlainConcat(o, left, right);
    assert (left + [x])[..|left|] == left;
    Swap(o, Plain(o, left), One(o, x), Plain(o, right));
  }

  lemma {:induction false} Swap<W(!new)>(o: Ops<W>, a: Fold<W>, b: Fold<W>, c: Fold<W>)
    requires Laws(o)
    ensures Plus(o, Plus(o, a, b), c) == Plus(o, Plus(o, a, c), b)
  {
    PlusLaws(o, a, b, c);
    PlusLaws(o, b, c, a);
    PlusLaws(o, a, c, b);
  }

  /** The order of a bucket does not show in its fold. */
  lemma {:induction false} PlainIsPermutationInvariant<W(!new)>(o: Ops<W>, a: seq<W>, b: seq<W>)
    requires Laws(o) && multiset(a) == multiset(b)
    ensures Plain(o, a) == Plain(o, b)
    decreases |a|
  {
    if a == [] {
      assert |multiset(b)| == 0;
    } else {
      var init, last := a[..|a| - 1], a[|a| - 1];
      var i := FindLast(a, b);
      var left, right := b[..i], b[i + 1..];
      assert b == left + [last] + right;
      PlainIsPermutationInvariant(o, init, left + right);
      PlainMoveLast(o, left, last, right);
    }
  }

  /** Where the last element of `a` is in its permutation `b`. */
  lemma {:induction false} FindLast<W>(a: seq<W>, b: seq<W>) returns (i: nat)
    requires a != [] && multiset(a) == multiset(b)
    ensures i < |b| && b[i] == a[|a| - 1]
    ensures multiset(a[..|a| - 1]) == multiset(b[..i] + b[i + 1..])
  {
    var init, last := a[..|a| - 1], a[|a| - 1];
    assert a == init + [last];
    assert last in multiset(b);
    i :| 0 <= i < |b| && b[i] == last;
    assert b == b[..i] + [last] + b[i + 1..];
    assert multiset(init) == multiset(a) - multiset{last};
    assert multiset(b[..i] + b[i + 1..]) == multiset(b) - multiset{last};
  }

  /** Which vector unit the process found. */
  datatype Simd = NoSimd | Avx2 | Avx512

  /** The length of the vector block: `len &^ 7` or `len &^ 3`, for at least 16 elements. */
  function BlockLength(n: nat, simd: Simd): (k: nat)
    ensures k <= n
  {
    if n < 16 || simd == NoSimd then 0 else if simd == Avx512 then n - n % 8 else n - n % 4
  }

  /**
   * `bucketHashPlatform` on amd64: a vector block, then two lanes, then the odd
   * element. The vector blocks are taken at their contract, the plain fold of the block.
   */
  method Platform<W(!new)>(o: Ops<W>, elems0: seq<W>, simd: Simd) returns (sum: W, xr: W)
    requires Laws(o)
    ensures Fold(sum, xr) == Plain(o, elems0)
  {
    var k := BlockLength(|elems0|, simd);
    var block := Plain(o, elems0[..k]);
    PlusLaws(o, block, block, block);
    sum, xr := TwoLanes(o, elems0, elems0[k..], block, k);
  }

  /** The unrolled loop over what the vector block left, then the odd element after it. */
  method TwoLanes<W(!new)>(o: Ops<W>, ghost all: seq<W>, rest: seq<W>, block: Fold<W>, ghost start: nat) returns (sum: W, xr: W)
    requires Laws(o) && Lanes(o, all, start, block, Fold(o.zero, o.zero)) && rest == all[start..]
    ensures Fold(sum, xr) == Plain(o, all)
  {
    sum, xr := block.sum, block.xr;
    var elems := rest;
    ghost var n: nat := start;
    var sum1, xor1 := o.zero, o.zero;
    while |elems| >= 2
      invariant n <= |all| && elems == all[n..]
      invariant Lanes(o, all, n, Fold(sum, xr), Fold(sum1, xor1))
    {
      var z0, z1 := o.mix(elems[0]), o.mix(elems[1]);
      LanesStep(o, all, n, Fold(sum, xr), Fold(sum1, xor1));
      sum, sum1 := o.add(sum, z0), o.add(sum1, z1);
      xr, xor1 := o.xor(xr, z0), o.xor(xor1, z1);
      elems := elems[2..];
      n := n + 2;
    }
    sum, xr := OddElement(o, all, elems, Fold(sum, xr), Fold(sum1, xor1), n);
    sum, xr := o.add(sum, sum1), o.xor(xr, xor1);
  }

  /** What is left after the pairs goes to the first lane. */
  method OddElement<W(!new)>(o: Ops<W>, ghost all: seq<W>, elems: seq<W>, a: Fold<W>, ghost b: Fold<W>, ghost n: nat)
      returns (sum: W, xr: W)
    requires Laws(o) && Lanes(o, all, n, a, b) && elems == all[n..]
    ensures Plus(o, Fold(sum, xr), b) == Plain(o, all)
  {
    sum, xr := a.sum, a.xr;
    for i := 0 to |elems|
      invariant Lanes(o, all, n + i, Fold(sum, xr), b)
    {
      var z := o.mix(elems[i]);
      LaneStep(o, all, n + i, Fold(sum, xr), b);
      sum := o.add(sum, z);
      xr := o.xor(xr, z);
    }
    assert all[..n + |elems|] == all;
  }

  /** The two lanes together have folded the first `n` elements. */
  ghost predicate Lanes<W>(o: Ops<W>, elems: seq<W>, n: nat, a: Fold<W>, b: Fold<W>) {
    n <= |elems| && Plus(o, a, b) == Plain(o, elems[..n])
  }

  lemma {:induction false} LaneStep<W(!new)>(o: Ops<W>, elems: seq<W>, n: nat, a: Fold<W>, b: Fold<W>)
    requires Laws(o) && n < |elems| && Lanes(o, elems, n, a, b)
    ensures Lanes(o, elems, n + 1, Plus(o, a, One(o, elems[n])), b)
  {
    assert elems[..n + 1][..n] == elems[..n];
    Swap(o, a, One(o, elems[n]), b);
  }

  lemma {:induction false} LanesStep<W(!new)>(o: Ops<W>, elems: seq<W>, n: nat, a: Fold<W>, b: Fold<W>)
    requires Laws(o) && n + 1 < |elems| && Lanes(o, elems, n, a, b)
    ensures Lanes(o, elems, n + 2, Plus(o, a, One(o, elems[n])), Plus(o, b, One(o, elems[n + 1])))
  {
    LaneStep(o, elems, n, a, b);
    var ax, bz := Plus(o, a, One(o, elems[n])), Plus(o, b, One(o, elems[n + 1]));
    PlusLaws(o, ax, b, b);
    LaneStep(o, elems, n + 1, b, ax);
    PlusLaws(o, bz, ax, ax);
  }

  /** The fold mixed with the count. */
  function Raw<W>(o: Ops<W>, count: nat -> W, elems: seq<W>): (W, W) {
    var f, c := Plain(o, elems), count(|elems|);
    (o.add(f.sum, c), o.xor(f.xr, c))
  }

  /** `bucketHash`: a zero becomes one. */
  function Hash<W(==)>(o: Ops<W>, count: nat -> W, elems: seq<W>): (W, W) {
    var h := Raw(o, count, elems);
    (if h.0 == o.zero then o.one else h.0, if h.1 == o.zero then o.one else h.1)
  }

  /** Equal multisets hash alike, and never to the zero an empty table cell holds. */
  lemma {:induction false} HashIsPermutationInvariant<W(!new)>(o: Ops<W>, count: nat -> W, a: seq<W>, b: seq<W>)
    requires Laws(o) && multiset(a) == multiset(b)
    ensures Hash(o, count, a) == Hash(o, count, b)
    ensures Hash(o, count, a).0 != o.zero && Hash(o, count, a).1 != o.zero
  {
    assert |a| == |multiset(a)| == |multiset(b)| == |b|;
    PlainIsPermutationInvariant(o, a, b);
  }

  // ------------------------------------------------------------ what the hash tells apart

  ghost predicate Cancels<W>(op: (W, W) -> W, a: W, b: W, c: W) {
    op(a, c) == op(b, c) ==> a == b
  }

  ghost predicate Cancellative<W(!new)>(op: (W, W) -> W) {
    forall a, b, c {:trigger Cancels(op, a, b, c)} :: Cancels(op, a, b, c)
  }

  lemma {:induction false} AddCancels(a: Word, b: Word, c: Word)
    ensures Cancels(WordAdd, a, b, c)
  {
    if WordAdd(a, c) == WordAdd(b, c) {
      assert (a + c) % WORD == if a + c < WORD then a + c else a + c - WORD;
      assert (b + c) % WORD == if b + c < WORD then b + c else b + c - WORD;
    }
  }

  lemma {:induction false} XorBitsCancel(x: seq<bool>, y: seq<bool>, z: seq<bool>)
    requires |x| == |y| == |z| && XorBits(x, z) == XorBits(y, z)
    ensures x == y
  {
    forall i | 0 <= i < |x| ensures x[i] == y[i] { assert XorBits(x, z)[i] == XorBits(y, z)[i]; }
  }

  lemma {:induction false} XorCancels(a: Word, b: Word, c: Word)
    ensures Cancels(WordXor, a, b, c)
  {
    if WordXor(a, c) == WordXor(b, c) {
      var x, y, z := ToBits(a, BITS), ToBits(b, BITS), ToBits(c, BITS);
      XorMeans(a, c);
      XorMeans(b, c);
      XorBitsCancel(x, y, z);
      SameBits(a, b);
    }
  }

  /** Adding, or exclusive or with, the same word undoes nothing and hides nothing. */
  lemma {:induction false} WordsCancel(mix: Word -> Word)
    ensures Cancellative(WordOps(mix).add) && Cancellative(WordOps(mix).xor)
  {
    forall a: Word, b: Word, c: Word ensures Cancels(WordAdd, a, b, c) { AddCancels(a, b, c); }
    forall a: Word, b: Word, c: Word ensures Cancels(WordXor, a, b, c) { XorCancels(a, b, c); }
  }

  /**
   * With a mixer that keeps words apart, changing one element of a bucket changes both
   * hashes, unless the zero rule makes a one of a zero in both.
   */
  lemma {:induction false} OneChangeShows<W(!new)>(o: Ops<W>, count: nat -> W, left: seq<W>, x: W, y: W, right: seq<W>)
    requires Laws(o) && Cancellative(o.add) && Cancellative(o.xor) && o.mix(x) != o.mix(y)
    ensures Raw(o, count, left + [x] + right).0 != Raw(o, count, left + [y] + right).0
    ensures Raw(o, count, left + [x] + right).1 != Raw(o, count, left + [y] + right).1
    ensures Hash(o, count, left + [x] + right) == Hash(o, count, left + [y] + right) ==>
              var a, b := Raw(o, count, left + [x] + right), Raw(o, count, left + [y] + right);
              {a.0, b.0} == {o.zero, o.one} && {a.1, b.1} == {o.zero, o.one}
  {
    PlainMoveLast(o, left, x, right);
    PlainMoveLast(o, left, y, right);
    var rest := Plain(o, left + right);
    var f, g, c := Plain(o, left + [x] + right), Plain(o, left + [y] + right), count(|left| + 1 + |right|);
    assert Commutes(o.add, rest.sum, o.mix(x)) && Commutes(o.add, rest.sum, o.mix(y)) && Cancels(o.add, o.mix(x), o.mix(y), rest.sum);
    assert Commutes(o.xor, rest.xr, o.mix(x)) && Commutes(o.xor, rest.xr, o.mix(y)) && Cancels(o.xor, o.mix(x), o.mix(y), rest.xr);
    assert Cancels(o.add, f.sum, g.sum, c) && Cancels(o.xor, f.xr, g.xr, c);
  }

  /** And so do the counts: buckets with the same fold and different mixed counts differ in both. */
  lemma {:induction false} CountShows<W(!new)>(o: Ops<W>, count: nat -> W, a: seq<W>, b: seq<W>)
    requires Laws(o) && Cancellative(o.add) && Cancellative(o.xor)
    requires Plain(o, a) == Plain(o, b) && count(|a|) != count(|b|)
    ensures Raw(o, count, a).0 != Raw(o, count, b).0 && Raw(o, count, a).1 != Raw(o, count, b).1
  {
    var f, c, d := Plain(o, a), count(|a|), count(|b|);
    assert Commutes(o.add, f.sum, c) && Commutes(o.add, f.sum, d) && Cancels(o.add, c, d, f.sum);
    assert Commutes(o.xor, f.xr, c) && Commutes(o.xor, f.xr, d) && Cancels(o.xor, c, d, f.xr);
  }
}
