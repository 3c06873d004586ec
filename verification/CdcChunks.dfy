/** Content-defined chunking with a gear rolling hash (cas_analyze.go, `cdcChunks`). */
module CdcChunks {
  import opened Prelude

  const WINDOW: nat := 64

  function MinSize(avg: nat): nat {
    if avg / 4 < 64 then 64 else avg / 4
  }

  function MaxSize(avg: nat): nat {
    8 * avg
  }

  /** The longest chunk there can be: a size cut is only looked for once the minimum is reached. */
  function Longest(avg: nat): nat {
    if MaxSize(avg) < MinSize(avg) then MinSize(avg) else MaxSize(avg)
  }

  function Roll(h: nat, g: nat): nat {
    (2 * h + g) % WORD
  }

  /** The rolling hash over the bytes of a chunk. */
  function Hash(gear: nat -> nat, xs: seq<nat>): nat {
    if xs == [] then 0 else Roll(Hash(gear, xs[..|xs| - 1]), gear(xs[|xs| - 1]))
  }

  /** A chunk holding `xs` so far is ended here. */
  predicate CutAt(gear: nat -> nat, avg: nat, xs: seq<nat>)
    requires avg > 0
  {
    |xs| >= MinSize(avg) && (Hash(gear, xs) % avg == 0 || |xs| >= MaxSize(avg))
  }

  /** The length of the first chunk of `data`, known to be at least `n`. */
  ghost function ChunkEnd(gear: nat -> nat, avg: nat, data: seq<nat>, n: nat): (r: nat)
    requires avg > 0 && n <= |data|
    ensures n <= r <= |data|
    ensures r < |data| ==> CutAt(gear, avg, data[..r])
    ensures forall m :: n <= m < r ==> !CutAt(gear, avg, data[..m])
    decreases |data| - n
  {
    if n == |data| || CutAt(gear, avg, data[..n]) then n else ChunkEnd(gear, avg, data, n + 1)
  }

  ghost function Chunks(gear: nat -> nat, avg: nat, data: seq<nat>): seq<seq<nat>>
    requires avg > 0
    decreases |data|
  {
    if data == [] then []
    else
      var n := ChunkEnd(gear, avg, data, 1);
      [data[..n]] + Chunks(gear, avg, data[n..])
  }

  ghost function Flat(chunks: seq<seq<nat>>): seq<nat> {
    if chunks == [] then [] else chunks[0] + Flat(chunks[1..])
  }

  /** Non-empty, and no shorter start of the chunk would have been cut. */
  ghost predicate Uncut(gear: nat -> nat, avg: nat, xs: seq<nat>)
    requires avg > 0
  {
    xs != [] && forall m :: 1 <= m < |xs| ==> !CutAt(gear, avg, xs[..m])
  }

  /** What a chunking must be, said of the chunks alone. */
  ghost predicate ChunkOk(gear: nat -> nat, avg: nat, chunks: seq<seq<nat>>, k: nat)
    requires avg > 0 && k < |chunks|
  {
    Uncut(gear, avg, chunks[k]) && (k + 1 < |chunks| ==> CutAt(gear, avg, chunks[k]))
  }

  ghost predicate IsChunking(gear: nat -> nat, avg: nat, chunks: seq<seq<nat>>, data: seq<nat>)
    requires avg > 0
  {
    Flat(chunks) == data && forall k: nat {:trigger ChunkOk(gear, avg, chunks, k)} :: k < |chunks| ==> ChunkOk(gear, avg, chunks, k)
  }

  lemma {:induction false} ChunkingCons(gear: nat -> nat, avg: nat, c: seq<nat>, rest: seq<seq<nat>>, tail: seq<nat>)
    requires avg > 0 && IsChunking(gear, avg, rest, tail) && Uncut(gear, avg, c) && (rest != [] ==> CutAt(gear, avg, c))
    ensures IsChunking(gear, avg, [c] + rest, c + tail)
  {
    var all := [c] + rest;
    assert all[1..] == rest;
    forall k: nat | k < |all|
      ensures ChunkOk(gear, avg, all, k)
    {
      if k > 0 {
        var j: nat := k - 1;
        assert ChunkOk(gear, avg, rest, j);
      }
    }
  }

  /** Nothing is lost, and every cut is where the rule wants one. */
  lemma {:induction false} ChunksIsChunking(gear: nat -> nat, avg: nat, data: seq<nat>)
    requires avg > 0
    ensures IsChunking(gear, avg, Chunks(gear, avg, data), data)
    decreases |data|
  {
    if data != [] {
      var n := ChunkEnd(gear, avg, data, 1);
      ChunksIsChunking(gear, avg, data[n..]);
      assert forall m :: 1 <= m < n ==> data[..n][..m] == data[..m];
      ChunkingCons(gear, avg, data[..n], Chunks(gear, avg, data[n..]), data[n..]);
      assert data == data[..n] + data[n..];
    }
  }

  lemma {:induction false} FirstChunk(gear: nat -> nat, avg: nat, data: seq<nat>, n: nat)
    requires avg > 0 && 1 <= n <= |data| && Uncut(gear, avg, data[..n])
    requires n < |data| ==> CutAt(gear, avg, data[..n])
    ensures Chunks(gear, avg, data) == [data[..n]] + Chunks(gear, avg, data[n..])
  {
    var r := ChunkEnd(gear, avg, data, 1);
    forall m | 1 <= m < n
      ensures !CutAt(gear, avg, data[..m])
    {
      assert data[..n][..m] == data[..m];
    }
    assert r >= n;
  }

  /** And there is only one such chunking. */
  lemma {:induction false} ChunkingIsUnique(gear: nat -> nat, avg: nat, chunks: seq<seq<nat>>, data: seq<nat>)
    requires avg > 0 && IsChunking(gear, avg, chunks, data)
    ensures chunks == Chunks(gear, avg, data)
    decreases |chunks|
  {
    if chunks != [] {
      var rest, n := chunks[1..], |chunks[0]|;
      assert ChunkOk(gear, avg, chunks, 0);
      assert data[..n] == chunks[0] && data[n..] == Flat(rest);
      forall k: nat | k < |rest|
        ensures ChunkOk(gear, avg, rest, k)
      {
        var j := k + 1;
        assert ChunkOk(gear, avg, chunks, j);
      }
      ChunkingIsUnique(gear, avg, rest, Flat(rest));
      FirstChunk(gear, avg, data, n);
      assert chunks == [chunks[0]] + rest;
    }
  }

  /** Sizes: every chunk but the last reaches the minimum, none is longer than `Longest`, and one that was not cut is shorter. */
  lemma {:induction false} ChunkSizes(gear: nat -> nat, avg: nat, data: seq<nat>, k: nat)
    requires avg > 0 && k < |Chunks(gear, avg, data)|
    ensures var c := Chunks(gear, avg, data)[k];
            && 1 <= |c| <= Longest(avg)
            && (k + 1 < |Chunks(gear, avg, data)| ==> MinSize(avg) <= |c|)
            && (!CutAt(gear, avg, c) ==> k + 1 == |Chunks(gear, avg, data)| && |c| < Longest(avg))
  {
    ChunksIsChunking(gear, avg, data);
    var cs := Chunks(gear, avg, data);
    assert ChunkOk(gear, avg, cs, k);
    assert |cs[k]| > Longest(avg) ==> CutAt(gear, avg, cs[k][..Longest(avg)]);
  }

  ghost predicate WithinBounds(gear: nat -> nat, avg: nat, data: seq<nat>)
    requires avg > 0
  {
    forall k :: 0 <= k < |Chunks(gear, avg, data)| - 1 ==>
      MinSize(avg) <= |Chunks(gear, avg, data)[k]| <= MaxSize(avg)
  }

  lemma {:induction false} FlatOne(chunks: seq<seq<nat>>)
    ensures |chunks| == 1 ==> Flat(chunks) == chunks[0]
    ensures chunks == [] ==> Flat(chunks) == []
  {
    if |chunks| == 1 { assert Flat(chunks[1..]) == []; }
  }

  lemma {:induction false} ShortChunks(gear: nat -> nat, avg: nat, data: seq<nat>)
    requires 0 < avg < 8 && |data| > 64
    ensures !WithinBounds(gear, avg, data)
  {
    var cs := Chunks(gear, avg, data);
    ChunksIsChunking(gear, avg, data);
    ChunkSizes(gear, avg, data, 0);
    FlatOne(cs);
    assert |cs| > 1 && |cs[0]| > MaxSize(avg);
  }

  /** The documented size bounds hold for every input exactly when the average is at least 8. */
  lemma {:induction false} BoundsHoldIff(gear: nat -> nat, avg: nat)
    requires avg > 0
    ensures (forall data :: WithinBounds(gear, avg, data)) <==> avg >= 8
  {
    if avg >= 8 {
      forall data
        ensures WithinBounds(gear, avg, data)
      {
        forall k | 0 <= k < |Chunks(gear, avg, data)| - 1
          ensures MinSize(avg) <= |Chunks(gear, avg, data)[k]| <= MaxSize(avg)
        {
          ChunkSizes(gear, avg, data, k);
        }
      }
    } else {
      var data := seq(65, _ => 0);
      ShortChunks(gear, avg, data);
    }
  }

  /** The first `k` chunks are the start of the data, and the others are the chunks of what remains. */
  ghost predicate ResumesAt(gear: nat -> nat, avg: nat, chunks: seq<seq<nat>>, data: seq<nat>, k: nat)
    requires avg > 0 && k <= |chunks|
  {
    var done := Flat(chunks[..k]);
    done <= data && chunks[k..] == Chunks(gear, avg, data[|done|..])
  }

  lemma {:induction false} ConsSlices(c: seq<nat>, rest: seq<seq<nat>>, k: nat)
    requires k <= |rest|
    ensures ([c] + rest)[..k + 1] == [c] + rest[..k] && ([c] + rest)[k + 1..] == rest[k..]
  {
  }

  lemma {:induction false} FlatCons(c: seq<nat>, rest: seq<seq<nat>>)
    ensures Flat([c] + rest) == c + Flat(rest)
  {
    assert ([c] + rest)[1..] == rest;
  }

  lemma {:induction false} DropPrefix(c: seq<nat>, tail: seq<nat>, done: seq<nat>)
    requires done <= tail
    ensures c + done <= c + tail && (c + tail)[|c + done|..] == tail[|done|..]
  {
  }

  lemma {:induction false} ResumeCons(gear: nat -> nat, avg: nat, c: seq<nat>, rest: seq<seq<nat>>, tail: seq<nat>, k: nat)
    requires avg > 0 && k <= |rest| && ResumesAt(gear, avg, rest, tail, k)
    ensures ResumesAt(gear, avg, [c] + rest, c + tail, k + 1)
  {
    ConsSlices(c, rest, k);
    FlatCons(c, rest[..k]);
    DropPrefix(c, tail, Flat(rest[..k]));
  }

  /** From any cut on, the chunks are those of the remaining bytes alone. */
  lemma {:induction false} Resynchronises(gear: nat -> nat, avg: nat, data: seq<nat>, k: nat)
    requires avg > 0 && k <= |Chunks(gear, avg, data)|
    ensures ResumesAt(gear, avg, Chunks(gear, avg, data), data, k)
    decreases k
  {
    if k == 0 {
      assert data[0..] == data;
    } else {
      var n := ChunkEnd(gear, avg, data, 1);
      Resynchronises(gear, avg, data[n..], k - 1);
      ResumeCons(gear, avg, data[..n], Chunks(gear, avg, data[n..]), data[n..], k - 1);
      assert data == data[..n] + data[n..];
    }
  }

  /** Two inputs that end alike, with a cut in both where the common end starts, are chunked alike from there on. */
  lemma {:induction false} SharedEnd(gear: nat -> nat, avg: nat, x: seq<nat>, y: seq<nat>, end: seq<nat>, i: nat, j: nat)
    requires avg > 0 && i <= |Chunks(gear, avg, x + end)| && j <= |Chunks(gear, avg, y + end)|
    requires |Flat(Chunks(gear, avg, x + end)[..i])| == |x| && |Flat(Chunks(gear, avg, y + end)[..j])| == |y|
    ensures Chunks(gear, avg, x + end)[i..] == Chunks(gear, avg, y + end)[j..] == Chunks(gear, avg, end)
  {
    Resynchronises(gear, avg, x + end, i);
    Resynchronises(gear, avg, y + end, j);
    assert (x + end)[|x|..] == end && (y + end)[|y|..] == end;
  }

  // ------------------------------------------------------------ the hash window

  /** The hash before the machine word cuts it off. */
  ghost function Raw(gear: nat -> nat, xs: seq<nat>): nat {
    if xs == [] then 0 else 2 * Raw(gear, xs[..|xs| - 1]) + gear(xs[|xs| - 1])
  }

  lemma {:induction false} ModStep(a: nat, g: nat)
    ensures (2 * (a % WORD) + g) % WORD == (2 * a + g) % WORD
  {
    var q := a / WORD;
    assert 2 * a + g == (2 * (a % WORD) + g) + WORD * (2 * q);
    AddMultiple(2 * (a % WORD) + g, 2 * q);
  }

  lemma {:induction false} AddMultiple(a: nat, k: nat)
    ensures (a + WORD * k) % WORD == a % WORD
    decreases k
  {
    if k > 0 {
      AddMultiple(a, k - 1);
      assert a + WORD * k == (a + WORD * (k - 1)) + WORD;
    }
  }

  lemma {:induction false} HashIsRaw(gear: nat -> nat, xs: seq<nat>)
    ensures Hash(gear, xs) == Raw(gear, xs) % WORD
  {
    if xs != [] {
      HashIsRaw(gear, xs[..|xs| - 1]);
      ModStep(Raw(gear, xs[..|xs| - 1]), gear(xs[|xs| - 1]));
    }
  }

  lemma {:induction false} RawConcat(gear: nat -> nat, xs: seq<nat>, ys: seq<nat>)
    ensures Raw(gear, xs + ys) == Pow2(|ys|) * Raw(gear, xs) + Raw(gear, ys)
    decreases |ys|
  {
    if ys == [] {
      assert xs + ys == xs;
    } else {
      var init := ys[..|ys| - 1];
      RawConcat(gear, xs, init);
      assert (xs + ys)[..|xs + ys| - 1] == xs + init;
      assert 2 * (Pow2(|init|) * Raw(gear, xs)) == Pow2(|ys|) * Raw(gear, xs);
    }
  }

  lemma {:induction false} PowSplit(n: nat)
    requires n >= WINDOW
    ensures Pow2(n) == WORD * Pow2(n - WINDOW)
  {
    if n == WINDOW {
      WordBits();
    } else {
      PowSplit(n - 1);
    }
  }

  lemma {:induction false} WholeWords(a: nat, p: nat, r: nat)
    requires a == WORD * p
    ensures a * r == WORD * (p * r)
  {
  }

  /** Only the last 64 bytes of a chunk matter to its hash. */
  lemma {:induction false} HashWindow(gear: nat -> nat, xs: seq<nat>, ys: seq<nat>)
    requires |ys| >= WINDOW
    ensures Hash(gear, xs + ys) == Hash(gear, ys)
  {
    HashIsRaw(gear, xs + ys);
    HashIsRaw(gear, ys);
    RawConcat(gear, xs, ys);
    PowSplit(|ys|);
    WholeWords(Pow2(|ys|), Pow2(|ys| - WINDOW), Raw(gear, xs));
    AddMultiple(Raw(gear, ys), Pow2(|ys| - WINDOW) * Raw(gear, xs));
  }

  /** So away from the maximum size, where a chunk ends is a matter of its last 64 bytes, wherever it began. */
  lemma {:induction false} CutIsLocal(gear: nat -> nat, avg: nat, xs: seq<nat>, ys: seq<nat>, window: seq<nat>)
    requires avg > 0 && |window| == WINDOW
    requires MinSize(avg) <= |xs| + WINDOW < MaxSize(avg) && MinSize(avg) <= |ys| + WINDOW < MaxSize(avg)
    ensures CutAt(gear, avg, xs + window) <==> CutAt(gear, avg, ys + window)
  {
    HashWindow(gear, xs, window);
    HashWindow(gear, ys, window);
  }

  // ------------------------------------------------------------ the last chunk

  /** The data ends where a chunk ends, so nothing that follows would be joined to it. */
  ghost predicate EndsAtCut(gear: nat -> nat, avg: nat, data: seq<nat>)
    requires avg > 0
  {
    data == [] || (Chunks(gear, avg, data) != [] && CutAt(gear, avg, Chunks(gear, avg, data)[|Chunks(gear, avg, data)| - 1]))
  }

  /** No byte of `tail` ends a chunk by its hash before the size does. */
  ghost predicate HashNeverCuts(gear: nat -> nat, avg: nat, tail: seq<nat>)
    requires avg > 0
  {
    forall m :: MinSize(avg) <= m < |tail| ==> Hash(gear, tail[..m]) % avg != 0
  }

  lemma {:induction false} FlatLast(chunks: seq<seq<nat>>)
    requires chunks != []
    ensures Flat(chunks) == Flat(chunks[..|chunks| - 1]) + chunks[|chunks| - 1]
    decreases |chunks|
  {
    if |chunks| > 1 {
      FlatLast(chunks[1..]);
      assert chunks[1..][..|chunks| - 2] == chunks[..|chunks| - 1][1..];
    } else {
      FlatOne(chunks);
    }
  }

  /** All chunks but the last are the chunks of the data before it, which ends at a cut. */
  lemma {:induction false} BeforeLast(gear: nat -> nat, avg: nat, chunks: seq<seq<nat>>, data: seq<nat>)
    requires avg > 0 && IsChunking(gear, avg, chunks, data) && chunks != []
    ensures var init := chunks[..|chunks| - 1];
            Chunks(gear, avg, Flat(init)) == init && EndsAtCut(gear, avg, Flat(init))
  {
    var init := chunks[..|chunks| - 1];
    forall k: nat | k < |init|
      ensures ChunkOk(gear, avg, init, k) && CutAt(gear, avg, init[k])
    {
      assert ChunkOk(gear, avg, chunks, k);
    }
    ChunkingIsUnique(gear, avg, init, Flat(init));
    FlatOne(init);
  }

  /** A tail put behind data that ends at a cut is chunked on its own. */
  lemma {:induction false} AppendChunk(gear: nat -> nat, avg: nat, data: seq<nat>, tail: seq<nat>)
    requires avg > 0 && EndsAtCut(gear, avg, data) && Uncut(gear, avg, tail)
    ensures Chunks(gear, avg, data + tail) == Chunks(gear, avg, data) + [tail]
  {
    var init := Chunks(gear, avg, data);
    var all := init + [tail];
    ChunksIsChunking(gear, avg, data);
    assert all[..|init|] == init;
    FlatLast(all);
    forall k: nat | k < |all|
      ensures ChunkOk(gear, avg, all, k)
    {
      if k < |init| { assert ChunkOk(gear, avg, init, k); }
    }
    ChunkingIsUnique(gear, avg, all, data + tail);
  }

  lemma {:induction false} UncutIsHash(gear: nat -> nat, avg: nat, tail: seq<nat>)
    requires avg >= 8 && |tail| == MaxSize(avg)
    ensures Uncut(gear, avg, tail) <==> HashNeverCuts(gear, avg, tail)
  {
    if Uncut(gear, avg, tail) {
      forall m | MinSize(avg) <= m < |tail|
        ensures Hash(gear, tail[..m]) % avg != 0
      {
        assert !CutAt(gear, avg, tail[..m]);
      }
    }
  }

  /** The data before its last `MaxSize` bytes ends at a cut, and no hash cuts those bytes earlier. */
  ghost predicate LongTail(gear: nat -> nat, avg: nat, data: seq<nat>)
    requires avg > 0
  {
    var n := |data| - MaxSize(avg);
    n >= 0 && EndsAtCut(gear, avg, data[..n]) && HashNeverCuts(gear, avg, data[n..])
  }

  lemma {:induction false} LongestNeedsTail(gear: nat -> nat, avg: nat, chunks: seq<seq<nat>>, data: seq<nat>)
    requires avg >= 8 && IsChunking(gear, avg, chunks, data) && chunks != [] && |chunks[|chunks| - 1]| == MaxSize(avg)
    ensures LongTail(gear, avg, data)
  {
    var k: nat := |chunks| - 1;
    var init, last := chunks[..k], chunks[k];
    FlatLast(chunks);
    BeforeLast(gear, avg, chunks, data);
    assert ChunkOk(gear, avg, chunks, k);
    UncutIsHash(gear, avg, last);
    assert data[..|data| - MaxSize(avg)] == Flat(init) && data[|data| - MaxSize(avg)..] == last;
  }

  lemma {:induction false} TailGivesLongest(gear: nat -> nat, avg: nat, data: seq<nat>)
    requires avg >= 8 && LongTail(gear, avg, data)
    ensures var n := |data| - MaxSize(avg); Chunks(gear, avg, data) == Chunks(gear, avg, data[..n]) + [data[n..]]
  {
    var n := |data| - MaxSize(avg);
    UncutIsHash(gear, avg, data[n..]);
    AppendChunk(gear, avg, data[..n], data[n..]);
    assert data == data[..n] + data[n..];
  }

  /** Exactly when the last chunk has the maximum size; for all other data it is shorter. */
  lemma {:induction false} LastIsLongestIff(gear: nat -> nat, avg: nat, data: seq<nat>)
    requires avg >= 8 && data != []
    ensures var cs := Chunks(gear, avg, data);
            cs != [] && (|cs[|cs| - 1]| == MaxSize(avg) <==> LongTail(gear, avg, data))
  {
    var cs := Chunks(gear, avg, data);
    ChunksIsChunking(gear, avg, data);
    if |cs[|cs| - 1]| == MaxSize(avg) { LongestNeedsTail(gear, avg, cs, data); }
    if LongTail(gear, avg, data) { TailGivesLongest(gear, avg, data); }
  }

  /** `n` times the same byte. */
  function Same(b: nat, n: nat): (r: seq<nat>)
    ensures |r| == n && forall i :: 0 <= i < n ==> r[i] == b
  {
    seq(n, _ => b)
  }

  lemma {:induction false} RawSame(gear: nat -> nat, b: nat, n: nat)
    ensures Pow2(n) >= 1 && Raw(gear, Same(b, n)) == gear(b) * (Pow2(n) - 1)
  {
    if n > 0 {
      RawSame(gear, b, n - 1);
      assert Same(b, n)[..n - 1] == Same(b, n - 1);
      assert 2 * (gear(b) * (Pow2(n - 1) - 1)) + gear(b) == gear(b) * (2 * Pow2(n - 1) - 1);
    }
  }

  lemma {:induction false} Complement(g: nat)
    requires g < WORD
    ensures g * (WORD - 1) % WORD == (WORD - g) % WORD
  {
    if g > 0 {
      assert g * (WORD - 1) == (WORD - g) + WORD * (g - 1);
      AddMultiple(WORD - g, g - 1);
    }
  }

  /** A long enough run of one byte has a hash that depends on the byte alone. */
  lemma {:induction false} HashSame(gear: nat -> nat, b: nat, n: nat)
    requires n >= WINDOW && gear(b) < WORD
    ensures Hash(gear, Same(b, n)) == (WORD - gear(b)) % WORD
  {
    assert Same(b, n) == Same(b, n - WINDOW) + Same(b, WINDOW);
    HashWindow(gear, Same(b, n - WINDOW), Same(b, WINDOW));
    HashIsRaw(gear, Same(b, WINDOW));
    RawSame(gear, b, WINDOW);
    PowSplit(WINDOW);
    Complement(gear(b));
  }

  /** A file of `MaxSize` equal bytes is one chunk exactly when the hash of that byte is no multiple of the average. */
  lemma {:induction false} RunOfOneByte(gear: nat -> nat, avg: nat, b: nat)
    requires avg >= 9 && gear(b) < WORD
    ensures var data := Same(b, MaxSize(avg));
            Chunks(gear, avg, data) == [data] <==> (WORD - gear(b)) % WORD % avg != 0
  {
    var data := Same(b, MaxSize(avg));
    OneChunkIff(gear, avg, data);
    forall m | MinSize(avg) <= m < |data|
      ensures Hash(gear, data[..m]) == (WORD - gear(b)) % WORD
    {
      assert data[..m] == Same(b, m);
      HashSame(gear, b, m);
    }
    assert Hash(gear, data[..MinSize(avg)]) == (WORD - gear(b)) % WORD;
  }

  /** A longer run of a byte whose hash is a multiple of the average is cut at the minimum: a quarter of it, but 64 bytes at least. */
  lemma {:induction false} RunIsCutShort(gear: nat -> nat, avg: nat, b: nat, n: nat)
    requires avg > 0 && gear(b) < WORD && (WORD - gear(b)) % WORD % avg == 0
    requires n >= (if avg < 256 then 64 else avg / 4)
    ensures var least: nat := if avg < 256 then 64 else avg / 4;
            Chunks(gear, avg, Same(b, n)) == [Same(b, least)] + Chunks(gear, avg, Same(b, n - least))
  {
    var data, least := Same(b, n), MinSize(avg);
    HashSame(gear, b, least);
    assert data[..least] == Same(b, least) && data[least..] == Same(b, n - least);
    FirstChunk(gear, avg, data, least);
  }

  /** At the default average of 8 KiB every chunk but the last has 2 to 64 KiB. */
  lemma {:induction false} DefaultSizes(gear: nat -> nat, data: seq<nat>, k: nat)
    requires k + 1 < |Chunks(gear, 8192, data)|
    ensures 2048 <= |Chunks(gear, 8192, data)[k]| <= 65536
  {
    ChunkSizes(gear, 8192, data, k);
  }

  /** Data of the maximum size is one chunk exactly when no hash cuts it. */
  lemma {:induction false} OneChunkIff(gear: nat -> nat, avg: nat, data: seq<nat>)
    requires avg >= 8 && |data| == MaxSize(avg)
    ensures Chunks(gear, avg, data) == [data] <==> HashNeverCuts(gear, avg, data)
  {
    assert data[..0] == [] && data[0..] == data;
    if HashNeverCuts(gear, avg, data) {
      TailGivesLongest(gear, avg, data);
      assert [] + [data] == [data];
    }
    if Chunks(gear, avg, data) == [data] {
      ChunksIsChunking(gear, avg, data);
      LongestNeedsTail(gear, avg, [data], data);
    }
  }

  // ------------------------------------------------------------ the program's own table

  /** The counter behind entry `i` of `gearTable`. */
  function GearSeed(i: nat): bv64 {
    if i == 0 then 0x2545_F491_4F6C_DD1D + 0x9E37_79B9_7F4A_7C15 else GearSeed(i - 1) + 0x9E37_79B9_7F4A_7C15
  }

  function GearMix(x: bv64): bv64 {
    var y := (x ^ (x >> 30)) * 0xBF58_476D_1CE4_E5B9;
    var z := (y ^ (y >> 27)) * 0x94D0_49BB_1331_11EB;
    z ^ (z >> 31)
  }

  /** `gearTable`. */
  function GearTable(i: nat): nat {
    GearMix(GearSeed(i)) as nat
  }

  /** The first entries of the table. */
  lemma {:induction false} GearEntries()
    ensures GearTable(0) == 0xC0E1_6B16_3A85_A4DC && GearTable(1) == 0x890A_CD8D_D443_C47C
  {
    assert GearSeed(0) == 0xC37D_6E4A_CEB7_5932;
    assert GearMix(0xC37D_6E4A_CEB7_5932) == 0xC0E1_6B16_3A85_A4DC;
    assert GearSeed(1) == 0x61B4_E804_4E01_D547;
    assert GearMix(0x61B4_E804_4E01_D547) == 0x890A_CD8D_D443_C47C;
  }

  /** A real file: 64 KiB of zero bytes, at the default average, is a single chunk of the maximum size. */
  lemma {:induction false} ZeroFileIsOneChunk()
    ensures MaxSize(8192) == 65536
    ensures Chunks(GearTable, 8192, Same(0, 65536)) == [Same(0, 65536)]
  {
    GearEntries();
    Residue(GearTable(0));
    RunOfOneByte(GearTable, 8192, 0);
  }

  lemma {:induction false} Residue(g: nat)
    requires g == 0xC0E1_6B16_3A85_A4DC
    ensures g < WORD && (WORD - g) % WORD % 8192 == 6948
  {
  }

  // ------------------------------------------------------------ the loop

  lemma {:induction false} TakeOne(gear: nat -> nat, data: seq<nat>, start: nat, i: nat)
    requires start <= i < |data|
    ensures data[start..i + 1] == data[start..i] + [data[i]]
    ensures Hash(gear, data[start..i + 1]) == Roll(Hash(gear, data[start..i]), gear(data[i]))
  {
    assert data[start..i + 1][..i - start] == data[start..i];
  }

  lemma {:induction false} UncutStep(gear: nat -> nat, avg: nat, data: seq<nat>, start: nat, i: nat)
    requires avg > 0 && start <= i < |data|
    requires start == i || (Uncut(gear, avg, data[start..i]) && !CutAt(gear, avg, data[start..i]))
    ensures Uncut(gear, avg, data[start..i + 1])
  {
    var xs := data[start..i + 1];
    forall m | 1 <= m < |xs|
      ensures !CutAt(gear, avg, xs[..m])
    {
      assert m < i - start ==> xs[..m] == data[start..i][..m];
      assert m == i - start ==> xs[..m] == data[start..i];
    }
  }

  lemma {:induction false} Yield(gear: nat -> nat, avg: nat, data: seq<nat>, start: nat, end: nat)
    requires avg > 0 && start < end <= |data| && Uncut(gear, avg, data[start..end])
    requires end < |data| ==> CutAt(gear, avg, data[start..end])
    ensures Chunks(gear, avg, data[start..]) == [data[start..end]] + Chunks(gear, avg, data[end..])
  {
    assert data[start..][..end - start] == data[start..end] && data[start..][end - start..] == data[end..];
    FirstChunk(gear, avg, data[start..], end - start);
  }

  /** Where the loop stands: the chunks yielded, and the open one from `start` to `i` with its hash. */
  ghost predicate Reading(gear: nat -> nat, avg: nat, data: seq<nat>, chunks: seq<seq<nat>>, start: nat, i: nat, h: nat)
    requires avg > 0
  {
    && start <= i <= |data| && h == Hash(gear, data[start..i])
    && Chunks(gear, avg, data) == chunks + Chunks(gear, avg, data[start..])
    && (start == i || (Uncut(gear, avg, data[start..i]) && !CutAt(gear, avg, data[start..i])))
  }

  lemma {:induction false} ReadCut(gear: nat -> nat, avg: nat, data: seq<nat>, chunks: seq<seq<nat>>, start: nat, end: nat)
    requires avg > 0 && start < end <= |data| && Uncut(gear, avg, data[start..end]) && CutAt(gear, avg, data[start..end])
    requires Chunks(gear, avg, data) == chunks + Chunks(gear, avg, data[start..])
    ensures Reading(gear, avg, data, chunks + [data[start..end]], end, end, 0)
  {
    Yield(gear, avg, data, start, end);
    assert data[end..end] == [];
    Regroup(chunks, data[start..end], Chunks(gear, avg, data[end..]));
  }

  lemma {:induction false} Regroup(chunks: seq<seq<nat>>, c: seq<nat>, rest: seq<seq<nat>>)
    ensures chunks + ([c] + rest) == (chunks + [c]) + rest
  {
  }

  lemma {:induction false} ReadOne(gear: nat -> nat, avg: nat, data: seq<nat>, chunks: seq<seq<nat>>, start: nat, i: nat, h: nat)
    requires avg > 0 && i < |data| && Reading(gear, avg, data, chunks, start, i, h)
    ensures var h', size := Roll(h, gear(data[i])), i - start + 1;
            if size >= MinSize(avg) && (h' % avg == 0 || size >= MaxSize(avg)) then
              Reading(gear, avg, data, chunks + [data[start..i + 1]], i + 1, i + 1, 0)
            else Reading(gear, avg, data, chunks, start, i + 1, h')
  {
    TakeOne(gear, data, start, i);
    UncutStep(gear, avg, data, start, i);
    if CutAt(gear, avg, data[start..i + 1]) {
      ReadCut(gear, avg, data, chunks, start, i + 1);
    }
  }

  lemma {:induction false} ReadAll(gear: nat -> nat, avg: nat, data: seq<nat>, chunks: seq<seq<nat>>, start: nat, h: nat)
    requires avg > 0 && Reading(gear, avg, data, chunks, start, |data|, h)
    ensures Chunks(gear, avg, data) == if start < |data| then chunks + [data[start..]] else chunks
  {
    assert data[start..|data|] == data[start..];
    if start < |data| { Yield(gear, avg, data, start, |data|); }
  }

  method Split(gear: nat -> nat, data: seq<nat>, avg: nat) returns (chunks: seq<seq<nat>>)
    requires avg > 0
    ensures chunks == Chunks(gear, avg, data)
  {
    var start: nat, h: nat := 0, 0;
    chunks := [];
    assert data[0..] == data && data[0..0] == [];
    for i := 0 to |data|
      invariant Reading(gear, avg, data, chunks, start, i, h)
    {
      ReadOne(gear, avg, data, chunks, start, i, h);
      h := Roll(h, gear(data[i]));
      var size := i - start + 1;
      if size >= MinSize(avg) && (h % avg == 0 || size >= MaxSize(avg)) {
        chunks := chunks + [data[start..i + 1]];
        start, h := i + 1, 0;
      }
    }
    ReadAll(gear, avg, data, chunks, start, h);
    if start < |data| {
      chunks := chunks + [data[start..]];
    }
  }
}
