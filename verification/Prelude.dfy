/** What several of the models need: optional results, sets of sequence elements, powers of two, kinds of files. */
module Prelude {
  datatype Option<T> = None | Some(value: T)

  ghost predicate Distinct<T>(xs: seq<T>) {
    forall i, j :: 0 <= i < j < |xs| ==> xs[i] != xs[j]
  }

  function Elems<T(==)>(xs: seq<T>): set<T> {
    set x | x in xs
  }

  /** The number of 64-bit words. */
  const WORD: nat := 0x1_0000_0000_0000_0000
  const BITS: nat := 64

  function Pow2(n: nat): nat {
    if n == 0 then 1 else 2 * Pow2(n - 1)
  }

  lemma {:induction false} PowSum(a: nat, b: nat)
    ensures Pow2(a + b) == Pow2(a) * Pow2(b)
  {
    if a > 0 {
      PowSum(a - 1, b);
      Doubled(Pow2(a - 1), Pow2(b));
    }
  }

  lemma {:induction false} Doubled(x: nat, y: nat)
    ensures 2 * (x * y) == (2 * x) * y
  {
  }

  lemma {:induction false} WordBits()
    ensures Pow2(BITS) == WORD
  {
    assert Pow2(8) == 256;
    PowSum(8, 8);
    assert Pow2(16) == 0x1_0000;
    PowSum(16, 16);
    assert Pow2(32) == 0x1_0000_0000;
    PowSum(32, 32);
  }

  /** File ids are odd for build files and even for source files. */
  predicate IsBuild(file: nat) {
    file % 2 == 1
  }

  /** `a` and `b` agree up to `k`, where `a` ends or has the smaller character. */
  ghost predicate SmallerAt(a: string, b: string, k: nat) {
    k <= |a| && k < |b| && a[..k] == b[..k] && (k < |a| ==> a[k] < b[k])
  }

  /** `a` comes before `b` in the order of strings. */
  ghost predicate Lexically(a: string, b: string) {
    exists k: nat :: SmallerAt(a, b, k)
  }

  /** Strings that differ in front are ordered by that. */
  lemma {:induction false} LexicallyHead(a: string, b: string)
    requires a == "" || b == "" || a[0] != b[0]
    ensures Lexically(a, b) <==> b != "" && (a == "" || a[0] < b[0])
  {
    if b != "" && (a == "" || a[0] < b[0]) { assert SmallerAt(a, b, 0); }
    forall k: nat
      ensures SmallerAt(a, b, k) ==> k == 0
    {
      if 0 < k <= |a| && k < |b| { assert a[..k][0] == a[0] && b[..k][0] == b[0]; }
    }
  }

  /** A common first character does not matter. */
  lemma {:induction false} LexicallyTail(a: string, b: string)
    requires a != "" && b != "" && a[0] == b[0]
    ensures Lexically(a, b) <==> Lexically(a[1..], b[1..])
  {
    if Lexically(a[1..], b[1..]) {
      var k: nat :| SmallerAt(a[1..], b[1..], k);
      assert a[..k + 1] == [a[0]] + a[1..][..k] && b[..k + 1] == [b[0]] + b[1..][..k];
      assert SmallerAt(a, b, k + 1);
    }
    if Lexically(a, b) {
      var k: nat :| SmallerAt(a, b, k);
      assert a[1..][..k - 1] == a[..k][1..] && b[1..][..k - 1] == b[..k][1..];
      assert SmallerAt(a[1..], b[1..], k - 1);
    }
  }
}
