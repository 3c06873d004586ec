/** The indexed bump allocator (bump_allocator.go): spans never overlap and read back what was stored. */
module BumpAllocator {
  const INITIAL: nat := 128

  datatype BumpSpan = BumpSpan(chunk: nat, start: nat, length: nat)

  ghost predicate InChunks<T>(chunks: seq<seq<T>>, s: BumpSpan) {
    s.chunk < |chunks| && s.start + s.length <= |chunks[s.chunk]|
  }

  function Slice<T>(chunks: seq<seq<T>>, s: BumpSpan): seq<T>
    requires InChunks(chunks, s)
  {
    chunks[s.chunk][s.start..s.start + s.length]
  }

  ghost predicate Apart(s: BumpSpan, t: BumpSpan) {
    s.chunk != t.chunk || s.start + s.length <= t.start || t.start + t.length <= s.start
  }

  /** `issued[i]` holds `stored[i]`, apart from every other span, and behind the allocation point. */
  ghost predicate IssuedAt<T>(chunks: seq<seq<T>>, used: nat, issued: seq<BumpSpan>, stored: seq<seq<T>>, i: int)
    requires |issued| == |stored| && 0 <= i < |issued|
  {
    && InChunks(chunks, issued[i])
    && Slice(chunks, issued[i]) == stored[i]
    && (issued[i].chunk == |chunks| - 1 ==> issued[i].start + issued[i].length <= used)
    && (forall j :: i < j < |issued| ==> Apart(issued[i], issued[j]))
  }

  ghost predicate Issued<T>(chunks: seq<seq<T>>, used: nat, issued: seq<BumpSpan>, stored: seq<seq<T>>) {
    && |issued| == |stored|
    && (chunks == [] ==> used == 0) && (chunks != [] ==> used <= |chunks[|chunks| - 1]|)
    && (forall i {:trigger IssuedAt(chunks, used, issued, stored, i)} ::
          0 <= i < |issued| ==> IssuedAt(chunks, used, issued, stored, i))
  }

  /** Opening a new chunk disturbs nothing. */
  lemma {:induction false} NewChunkKeeps<T>(chunks: seq<seq<T>>, used: nat, issued: seq<BumpSpan>, stored: seq<seq<T>>, chunk: seq<T>)
    requires Issued(chunks, used, issued, stored)
    ensures Issued(chunks + [chunk], 0, issued, stored)
  {
    forall i | 0 <= i < |issued|
      ensures IssuedAt(chunks + [chunk], 0, issued, stored, i)
    {
      assert IssuedAt(chunks, used, issued, stored, i);
    }
  }

  /** The last chunk with `elems` written at `used`. */
  function Written<T>(chunks: seq<seq<T>>, used: nat, elems: seq<T>): seq<seq<T>>
    requires chunks != [] && used + |elems| <= |chunks[|chunks| - 1]|
  {
    var last := chunks[|chunks| - 1];
    chunks[|chunks| - 1 := last[..used] + elems + last[used + |elems|..]]
  }

  /** Writing past the allocation point and committing it issues one more span and disturbs no other. */
  lemma {:induction false} CommitKeeps<T>(chunks: seq<seq<T>>, used: nat, issued: seq<BumpSpan>, stored: seq<seq<T>>, elems: seq<T>)
    requires Issued(chunks, used, issued, stored) && chunks != [] && used + |elems| <= |chunks[|chunks| - 1]|
    ensures Issued(Written(chunks, used, elems), used + |elems|,
                   issued + [BumpSpan(|chunks| - 1, used, |elems|)], stored + [elems])
  {
    var span := BumpSpan(|chunks| - 1, used, |elems|);
    var chunks', used' := Written(chunks, used, elems), used + |elems|;
    var issued', stored' := issued + [span], stored + [elems];
    forall i | 0 <= i < |issued'|
      ensures IssuedAt(chunks', used', issued', stored', i)
    {
      if i < |issued| {
        assert IssuedAt(chunks, used, issued, stored, i);
        assert Slice(chunks', issued[i]) == Slice(chunks, issued[i]);
      } else {
        assert Slice(chunks', span) == elems;
      }
    }
  }

  class IndexedBump<T> {
    /** All chunks ever made; `used` counts the committed cells of the last one. */
    var chunks: seq<seq<T>>
    var used: nat
    var next: nat
    const limit: nat
    const zero: T
    ghost var issued: seq<BumpSpan>
    ghost var stored: seq<seq<T>>

    ghost predicate Valid()
      reads this
    {
      Issued(chunks, used, issued, stored)
    }

    constructor (limit: nat, zero: T)
      ensures Valid() && issued == [] && stored == []
    {
      this.limit, this.zero := limit, zero;
      chunks, used, next := [], 0, INITIAL;
      issued, stored := [], [];
    }

    /** How many cells the current chunk still has. */
    function Room(): nat
      requires Valid()
      reads this
    {
      if chunks == [] then 0 else |chunks[|chunks| - 1]| - used
    }

    /** `alloc`: make room for `n` cells, in a new chunk when the current one is too short. */
    method Alloc(n: nat)
      requires Valid()
      modifies this`chunks, this`used, this`next
      ensures Valid() && Room() >= n && (n > 0 ==> chunks != [])
      ensures old(Room()) >= n ==> chunks == old(chunks) && used == old(used) && next == old(next)
      ensures old(Room()) < n ==>
                && |chunks| == old(|chunks|) + 1 && chunks[..|chunks| - 1] == old(chunks) && used == 0
                && |chunks[|chunks| - 1]| >= n && (n <= old(next) <= limit ==> |chunks[|chunks| - 1]| == old(next))
                && (n <= limit < old(next) ==> |chunks[|chunks| - 1]| == limit) && next == 2 * |chunks[|chunks| - 1]|
    {
      if Room() < n {
        var size := next;
        if size > limit { size := limit; }
        if size < n { size := n; }
        next := size * 2;
        NewChunkKeeps(chunks, used, issued, stored, seq(size, _ => zero));
        chunks := chunks + [seq(size, _ => zero)];
        used := 0;
      }
    }

    /** Allocate, copy in and `commitSpan`. */
    method Store(elems: seq<T>) returns (span: BumpSpan)
      requires Valid() && elems != []
      modifies this
      ensures Valid() && issued == old(issued) + [span] && stored == old(stored) + [elems]
    {
      Alloc(|elems|);
      span := BumpSpan(|chunks| - 1, used, |elems|);
      CommitKeeps(chunks, used, issued, stored, elems);
      chunks := Written(chunks, used, elems);
      used := used + |elems|;
      issued, stored := issued + [span], stored + [elems];
    }

    /** `slice`: every span ever issued still reads what was stored in it. */
    method Read(span: BumpSpan, ghost i: nat) returns (r: seq<T>)
      requires Valid() && i < |issued| && issued[i] == span
      ensures r == stored[i]
    {
      assert IssuedAt(chunks, used, issued, stored, i);
      r := Slice(chunks, span);
    }
  }

  /** Distinct stores get distinct spans, none overlapping another. */
  lemma {:induction false} SpansAreApart<T>(chunks: seq<seq<T>>, used: nat, issued: seq<BumpSpan>, stored: seq<seq<T>>, i: nat, j: nat)
    requires Issued(chunks, used, issued, stored) && i < j < |issued| && stored[i] != []
    ensures Apart(issued[i], issued[j]) && issued[i] != issued[j]
  {
    assert IssuedAt(chunks, used, issued, stored, i);
  }
}
