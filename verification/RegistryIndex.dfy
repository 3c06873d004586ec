/**
 * The states behind the codegen registry's two indexes (codegen_registry.go):
 * the split lookup's filter, generations and memo, and the per-owner slot chains.
 */
module RegistryIndex {
  import opened Prelude
  import opened SplitKeys

  type BucketId = b: nat | b < BUCKETS

  const BUCKETS: nat := 0x4_0000
  const WRAP: nat := 0x1_0000_0000

  datatype Vfs = Vfs(build: bool, rel: string)
  datatype Info = Info(output: string, owner: nat, serial: nat, primary: Option<Vfs>,
                       inputsOnly: bool, moduleType: nat, ref: nat)

  // ------------------------------------------------------------ slots by path

  /** `byRel`: a slot per registered path, slot 0 unused. */
  ghost predicate Dense(slots: map<string, nat>, vals: seq<Info>) {
    && |vals| >= 1
    && (forall r :: r in slots ==> 1 <= slots[r] < |vals| && vals[slots[r]].output == r)
    && (forall s :: 1 <= s < |vals| ==> vals[s].output in slots && slots[vals[s].output] == s)
  }

  lemma {:induction false} DenseAppend(slots: map<string, nat>, vals: seq<Info>, info: Info)
    requires Dense(slots, vals) && info.output !in slots
    ensures Dense(slots[info.output := |vals|], vals + [info])
  {
  }

  lemma {:induction false} DenseUpdate(slots: map<string, nat>, vals: seq<Info>, slot: nat, info: Info)
    requires Dense(slots, vals) && 1 <= slot < |vals| && info.output == vals[slot].output
    ensures Dense(slots, vals[slot := info])
  {
  }

  /** A plain lookup; 0 is "not there". */
  function SlotOf(slots: map<string, nat>, rel: string): nat {
    if rel in slots then slots[rel] else 0
  }

  // ------------------------------------------------------------ split lookup

  datatype Memo = Memo(slot: nat, generation: nat)

  /**
   * `gens` and `generation` are the 32-bit counters; `changes` and `total` are
   * the true numbers of registrations they count.
   */
  datatype Split = Split(gens: seq<nat>, generation: nat, tails: set<nat>, memo: map<(string, string), Memo>,
                         changes: seq<nat>, total: nat)

  /** Everything the split lookup derives from a whole path; nothing is assumed about any of it. */
  datatype View = View(bucket: string -> BucketId, bit: string -> nat, clean: string -> bool, cleanRel: string -> string)

  ghost predicate Counted(s: Split) {
    && |s.gens| == |s.changes| == BUCKETS
    && s.generation == s.total % WRAP
    && (forall b :: 0 <= b < BUCKETS ==> s.gens[b] == s.changes[b] % WRAP && s.changes[b] <= s.total)
  }

  /** A registered path shows in its bucket's count and in the tail filter. */
  ghost predicate Filtered(v: View, s: Split, rel: string)
    requires |s.changes| == BUCKETS
  {
    s.changes[v.bucket(rel)] >= 1 && v.bit(rel) in s.tails
  }

  /** Is the raw join the only path consulted for this suffix? */
  predicate Plain(v: View, suffix: string) {
    v.clean(suffix) || suffix == ""
  }

  /** What a direct lookup gives. */
  function Direct(v: View, slots: map<string, nat>, joined: string, suffix: string): nat {
    if Plain(v, suffix) then SlotOf(slots, joined) else SlotOf(slots, v.cleanRel(joined))
  }

  /** What the uncached half of `lookupSplitAny` finds: the raw join, unless the cleaned join of an unclean suffix is better. */
  function Uncached(v: View, slots: map<string, nat>, vals: seq<Info>, joined: string, suffix: string): nat
    requires Dense(slots, vals)
  {
    var raw, alt := SlotOf(slots, joined), SlotOf(slots, v.cleanRel(joined));
    if Plain(v, suffix) || (raw != 0 && !vals[raw].inputsOnly) then raw
    else if alt != 0 && (raw == 0 || !vals[alt].inputsOnly) then alt
    else raw
  }

  lemma {:induction false} UncachedIsDirect(v: View, slots: map<string, nat>, vals: seq<Info>, joined: string, suffix: string)
    requires Dense(slots, vals) && (Plain(v, suffix) || joined !in slots)
    ensures Uncached(v, slots, vals, joined, suffix) == Direct(v, slots, joined, suffix)
  {
  }

  /** `slot` is the slot of a path that the lookup consults: the raw join, or the cleaned join of an unclean suffix. */
  ghost predicate Consulted(v: View, slots: map<string, nat>, slot: nat, joined: string, suffix: string) {
    slot != 0 && (slot == SlotOf(slots, joined) || (!Plain(v, suffix) && slot == SlotOf(slots, v.cleanRel(joined))))
  }

  /**
   * A remembered slot that an uncached lookup would pass over by now: a placeholder
   * under the raw join while the cleaned join has a real file, or the cleaned join
   * while the raw join has a file that is no worse.
   */
  predicate Outdated(v: View, slots: map<string, nat>, vals: seq<Info>, slot: nat, joined: string, suffix: string)
    requires Dense(slots, vals)
  {
    var raw, alt := SlotOf(slots, joined), SlotOf(slots, v.cleanRel(joined));
    && slot != 0 && !Plain(v, suffix) && raw != 0 && alt != 0 && raw != alt
    && (if slot == raw then vals[raw].inputsOnly && !vals[alt].inputsOnly else !vals[raw].inputsOnly || vals[alt].inputsOnly)
  }

  /** Exactly then does the remembered slot differ from an uncached lookup. */
  lemma {:induction false} OutdatedIff(v: View, slots: map<string, nat>, vals: seq<Info>, slot: nat, joined: string, suffix: string)
    requires Dense(slots, vals) && Consulted(v, slots, slot, joined, suffix)
    ensures slot != Uncached(v, slots, vals, joined, suffix) <==> Outdated(v, slots, vals, slot, joined, suffix)
  {
  }

  lemma {:induction false} UncachedIsConsulted(v: View, slots: map<string, nat>, vals: seq<Info>, joined: string, suffix: string)
    requires Dense(slots, vals)
    ensures var slot := Uncached(v, slots, vals, joined, suffix);
            if slot != 0 then Consulted(v, slots, slot, joined, suffix)
            else joined !in slots && (!Plain(v, suffix) ==> v.cleanRel(joined) !in slots)
  {
  }

  /**
   * What a lookup may answer: what it remembers, or else what an uncached lookup
   * finds. The two differ exactly when the remembered slot is outdated, and for
   * outputs under clean paths both are a direct lookup of the joined path.
   */
  ghost predicate Answers(v: View, slots: map<string, nat>, vals: seq<Info>, known: nat, slot: nat, joined: string, suffix: string)
    requires Dense(slots, vals)
  {
    var uncached := Uncached(v, slots, vals, joined, suffix);
    && slot == (if known != 0 then known else uncached)
    && (slot != uncached <==> Outdated(v, slots, vals, known, joined, suffix))
    && (Plain(v, suffix) || joined !in slots ==> slot == Direct(v, slots, joined, suffix))
  }

  lemma {:induction false} KnownAnswers(v: View, slots: map<string, nat>, vals: seq<Info>, slot: nat, joined: string, suffix: string)
    requires Dense(slots, vals) && Consulted(v, slots, slot, joined, suffix)
    ensures Answers(v, slots, vals, slot, slot, joined, suffix)
  {
    OutdatedIff(v, slots, vals, slot, joined, suffix);
  }

  lemma {:induction false} UncachedAnswers(v: View, slots: map<string, nat>, vals: seq<Info>, joined: string, suffix: string)
    requires Dense(slots, vals)
    ensures Answers(v, slots, vals, 0, Uncached(v, slots, vals, joined, suffix), joined, suffix)
  {
    if Plain(v, suffix) || joined !in slots { UncachedIsDirect(v, slots, vals, joined, suffix); }
  }

  /** The positive slot remembered for a lookup, or 0. */
  function Remembered(memo: map<(string, string), Memo>, key: (string, string)): nat {
    if key in memo then memo[key].slot else 0
  }

  /** The number of registrations so far that could concern a lookup of `joined`. */
  ghost function Relevant(v: View, s: Split, joined: string, suffix: string): nat
    requires |s.changes| == BUCKETS
  {
    if v.clean(suffix) then s.changes[v.bucket(joined)] else s.total
  }

  /**
   * A positive entry names a consulted path for ever. A negative one is right while its
   * generation is current, as long as no counter has wrapped.
   */
  ghost predicate Right(v: View, slots: map<string, nat>, s: Split, m: Memo, joined: string, suffix: string)
    requires |s.changes| == BUCKETS
  {
    if m.slot != 0 then Consulted(v, slots, m.slot, joined, suffix)
    else
      s.total < WRAP ==>
        && m.generation <= Relevant(v, s, joined, suffix)
        && (m.generation == Relevant(v, s, joined, suffix) ==>
              joined !in slots && (!Plain(v, suffix) ==> v.cleanRel(joined) !in slots))
  }

  ghost predicate MemoAt(v: View, slots: map<string, nat>, s: Split, key: (string, string))
    requires |s.changes| == BUCKETS && key in s.memo
  {
    Right(v, slots, s, s.memo[key], Join(key.0, key.1), key.1)
  }

  ghost predicate SplitOk(v: View, slots: map<string, nat>, s: Split) {
    && Counted(s)
    && (forall r {:trigger Filtered(v, s, r)} :: r in slots ==> Filtered(v, s, r))
    && (forall k {:trigger MemoAt(v, slots, s, k)} :: k in s.memo ==> MemoAt(v, slots, s, k))
  }

  /** `splitChanged`, given the bucket and filter bit of the path. */
  function Changed(s: Split, bucket: BucketId, bit: nat): Split
    requires |s.gens| == |s.changes| == BUCKETS
  {
    s.(generation := (s.generation + 1) % WRAP,
       gens := s.gens[bucket := (s.gens[bucket] + 1) % WRAP],
       tails := s.tails + {bit},
       changes := s.changes[bucket := s.changes[bucket] + 1],
       total := s.total + 1)
  }

  lemma {:induction false} IncrementWraps(n: nat)
    ensures (n % WRAP + 1) % WRAP == (n + 1) % WRAP
  {
  }

  lemma {:induction false} ChangedKeepsRight(v: View, slots: map<string, nat>, s: Split, output: string, slot: nat,
                                             m: Memo, joined: string, suffix: string)
    requires |s.gens| == |s.changes| == BUCKETS && Right(v, slots, s, m, joined, suffix)
    requires slot != 0 && (output in slots ==> slots[output] == slot)
    ensures Right(v, slots[output := slot], Changed(s, v.bucket(output), v.bit(output)), m, joined, suffix)
  {
  }

  /** Registering, or re-registering, a path keeps the filter sound and every memo entry right. */
  lemma {:induction false} ChangedKeepsSplit(v: View, slots: map<string, nat>, s: Split, output: string, slot: nat)
    requires SplitOk(v, slots, s)
    requires slot != 0 && (output in slots ==> slots[output] == slot)
    ensures SplitOk(v, slots[output := slot], Changed(s, v.bucket(output), v.bit(output)))
  {
    var slots', s' := slots[output := slot], Changed(s, v.bucket(output), v.bit(output));
    IncrementWraps(s.total);
    IncrementWraps(s.changes[v.bucket(output)]);
    forall r | r in slots'
      ensures Filtered(v, s', r)
    {
      if r != output { assert Filtered(v, s, r); }
    }
    forall k | k in s'.memo
      ensures MemoAt(v, slots', s', k)
    {
      assert MemoAt(v, slots, s, k);
      ChangedKeepsRight(v, slots, s, output, slot, s.memo[k], Join(k.0, k.1), k.1);
    }
  }

  /** A path the filter or an untouched bucket rejects is not registered. */
  lemma {:induction false} RejectedIsAbsent(v: View, slots: map<string, nat>, s: Split, joined: string)
    requires SplitOk(v, slots, s) && s.total < WRAP
    requires s.gens[v.bucket(joined)] == 0 || v.bit(joined) !in s.tails
    ensures joined !in slots
  {
    assert joined in slots ==> Filtered(v, s, joined);
  }

  /** Unwrapped, the counters the code compares are the true counts. */
  lemma {:induction false} CurrentGeneration(v: View, slots: map<string, nat>, s: Split, joined: string, suffix: string)
    requires SplitOk(v, slots, s) && s.total < WRAP
    ensures Relevant(v, s, joined, suffix) == if v.clean(suffix) then s.gens[v.bucket(joined)] else s.generation
  {
    assert s.changes[v.bucket(joined)] <= s.total;
  }

  /** What a negative entry of the current generation, or the filter, allows to answer. */
  lemma {:induction false} AbsentIsUncached(v: View, slots: map<string, nat>, vals: seq<Info>, joined: string, suffix: string)
    requires Dense(slots, vals) && joined !in slots && (!Plain(v, suffix) ==> v.cleanRel(joined) !in slots)
    ensures Uncached(v, slots, vals, joined, suffix) == 0 && Answers(v, slots, vals, 0, 0, joined, suffix)
  {
    UncachedAnswers(v, slots, vals, joined, suffix);
  }

  /** Recording what a lookup just found keeps the memo right. */
  lemma {:induction false} RecordKeepsSplit(v: View, slots: map<string, nat>, s: Split, key: (string, string), m: Memo)
    requires SplitOk(v, slots, s) && Right(v, slots, s, m, Join(key.0, key.1), key.1)
    ensures SplitOk(v, slots, s.(memo := s.memo[key := m]))
  {
    var s' := s.(memo := s.memo[key := m]);
    forall r | r in slots ensures Filtered(v, s', r) { assert Filtered(v, s, r); }
    forall k | k in s'.memo
      ensures MemoAt(v, slots, s', k)
    {
      if k != key { assert MemoAt(v, slots, s, k); }
    }
  }

  // ------------------------------------------------------------ owner chains

  datatype OwnerSlot = OwnerSlot(slot: nat, next: nat)
  datatype OwnerChain = OwnerChain(head: nat, tail: nat)

  /** Chains belong to a directory on a platform; several platforms may share one registry. */
  datatype OwnerKey = OwnerKey(owner: nat, platform: nat)

  /** The node arena, one chain per key, and (for the proof) the key each node was appended for. */
  datatype Owners = Owners(nodes: seq<OwnerSlot>, chains: map<OwnerKey, OwnerChain>, of: seq<OwnerKey>)

  function ChainOf(chains: map<OwnerKey, OwnerChain>, key: OwnerKey): OwnerChain {
    if key in chains then chains[key] else OwnerChain(0, 0)
  }

  ghost predicate Mine(of: seq<OwnerKey>, key: OwnerKey, i: int) {
    0 <= i < |of| && of[i] == key
  }

  /** The links are 1-based: `next` of node `i` is the next later node of the same owner. */
  ghost predicate LinkAt(w: Owners, i: int)
    requires |w.nodes| == |w.of| && 0 <= i < |w.nodes|
  {
    var next := w.nodes[i].next;
    if next == 0 then forall j :: Mine(w.of, w.of[i], j) ==> j <= i
    else next - 1 > i && Mine(w.of, w.of[i], next - 1) && forall j :: Mine(w.of, w.of[i], j) ==> j <= i || next - 1 <= j
  }

  ghost predicate EndsAt(w: Owners, key: OwnerKey) {
    var c := ChainOf(w.chains, key);
    if c.head == 0 then c.tail == 0 && forall j :: !Mine(w.of, key, j)
    else
      && c.tail != 0 && Mine(w.of, key, c.head - 1) && Mine(w.of, key, c.tail - 1)
      && (forall j :: Mine(w.of, key, j) ==> c.head - 1 <= j <= c.tail - 1)
  }

  ghost predicate OnChain(w: Owners, key: OwnerKey, slot: nat)
    requires |w.nodes| == |w.of|
  {
    exists i :: Mine(w.of, key, i) && w.nodes[i].slot == slot
  }

  /** The slot is on a chain of that owner, on some platform. */
  ghost predicate Owned(w: Owners, owner: nat, slot: nat)
    requires |w.nodes| == |w.of|
  {
    exists key: OwnerKey {:trigger OnChain(w, key, slot)} :: key.owner == owner && OnChain(w, key, slot)
  }

  /** Chains are acyclic (links go forward), disjoint (one key per node) and complete. */
  ghost predicate Linked(w: Owners) {
    && |w.nodes| == |w.of|
    && (forall i {:trigger LinkAt(w, i)} :: 0 <= i < |w.nodes| ==> LinkAt(w, i))
    && (forall o {:trigger EndsAt(w, o)} :: EndsAt(w, o))
  }

  ghost predicate Chained(vals: seq<Info>, w: Owners) {
    && Linked(w)
    && (forall i :: 0 <= i < |w.nodes| ==> 1 <= w.nodes[i].slot < |vals|)
    && (forall s {:trigger Owned(w, vals[s].owner, s)} ::
          1 <= s < |vals| && vals[s].owner != 0 ==> Owned(w, vals[s].owner, s))
  }

  /** No chain yet. */
  const NO_OWNERS: Owners := Owners([], map[], [])

  /** `noteOwner`, for the owner's own chain. */
  function Noted(w: Owners, key: OwnerKey, slot: nat): Owners {
    var c := ChainOf(w.chains, key);
    if key.owner == 0 || c.tail > |w.nodes| then w
    else if c.tail != 0 && w.nodes[c.tail - 1].slot == slot then w
    else
      var i := |w.nodes| + 1;
      var nodes := w.nodes + [OwnerSlot(slot, 0)];
      Owners(if c.tail != 0 then nodes[c.tail - 1 := nodes[c.tail - 1].(next := i)] else nodes,
             w.chains[key := OwnerChain(if c.tail != 0 then c.head else i, i)],
             w.of + [key])
  }

  lemma {:induction false} TailInRange(w: Owners, key: OwnerKey)
    requires Linked(w)
    ensures ChainOf(w.chains, key).tail <= |w.nodes|
  {
    assert EndsAt(w, key);
  }

  lemma {:induction false} NotedLinked(w: Owners, key: OwnerKey, slot: nat)
    requires Linked(w) && ChainOf(w.chains, key).tail <= |w.nodes|
    ensures Linked(Noted(w, key, slot))
  {
    var u := Noted(w, key, slot);
    if u != w {
      var c, n := ChainOf(w.chains, key), |w.nodes|;
      assert EndsAt(w, key);
      assert forall o, j :: j < n ==> (Mine(u.of, o, j) <==> Mine(w.of, o, j));
      assert forall o :: Mine(u.of, o, n) <==> o == key;
      forall i | 0 <= i < |u.nodes|
        ensures LinkAt(u, i)
      {
        if i < n {
          assert LinkAt(w, i) && Mine(w.of, w.of[i], i);
          if w.of[i] == key { assert Mine(w.of, w.of[i], c.tail - 1); }
        }
      }
      forall o
        ensures EndsAt(u, o)
      {
        assert EndsAt(w, o);
      }
    }
  }

  lemma {:induction false} NotedOnChain(w: Owners, key: OwnerKey, slot: nat, o: OwnerKey, s: nat)
    requires Linked(w) && ChainOf(w.chains, key).tail <= |w.nodes|
    requires |Noted(w, key, slot).nodes| == |Noted(w, key, slot).of|
    ensures OnChain(w, o, s) ==> OnChain(Noted(w, key, slot), o, s)
    ensures key.owner != 0 ==> OnChain(Noted(w, key, slot), key, slot)
  {
    var u, c := Noted(w, key, slot), ChainOf(w.chains, key);
    assert EndsAt(w, key);
    if OnChain(w, o, s) {
      var i :| Mine(w.of, o, i) && w.nodes[i].slot == s;
      assert Mine(u.of, o, i) && u.nodes[i].slot == s;
    }
    if key.owner != 0 {
      if u == w {
        assert Mine(u.of, key, c.tail - 1) && u.nodes[c.tail - 1].slot == slot;
      } else {
        assert Mine(u.of, key, |w.nodes|) && u.nodes[|w.nodes|].slot == slot;
      }
    }
  }

  /** Giving slot `slot` (new or old) a new record and noting its owner keeps the index complete. */
  lemma {:induction false} NotedKeepsChained(vals: seq<Info>, vals': seq<Info>, w: Owners, slot: nat, key: OwnerKey)
    requires Chained(vals, w) && |vals| <= |vals'| && 1 <= slot < |vals'| && vals'[slot].owner == key.owner
    requires ChainOf(w.chains, key).tail <= |w.nodes|
    requires forall s :: 1 <= s < |vals'| && s != slot ==> s < |vals| && vals'[s].owner == vals[s].owner
    ensures Chained(vals', Noted(w, key, slot))
  {
    var u := Noted(w, key, slot);
    NotedLinked(w, key, slot);
    forall s | 1 <= s < |vals'| && vals'[s].owner != 0
      ensures Owned(u, vals'[s].owner, s)
    {
      if s == slot {
        NotedOnChain(w, key, slot, key, s);
      } else {
        assert Owned(w, vals[s].owner, s);
        var k: OwnerKey :| k.owner == vals[s].owner && OnChain(w, k, s);
        NotedOnChain(w, key, slot, k, s);
      }
    }
  }

  // ------------------------------------------------------------ full scan

  function HasSuffix(s: string, suffix: string): bool {
    |suffix| <= |s| && s[|s| - |suffix|..] == suffix
  }

  lemma {:induction false} HasSuffixMeans(s: string, suffix: string)
    ensures HasSuffix(s, suffix) <==> exists rest :: s == rest + suffix
  {
    if HasSuffix(s, suffix) { assert s == s[..|s| - |suffix|] + suffix; }
  }

  function Keep(inputs: seq<Vfs>, info: Info, owner: nat, suffix: string): seq<Vfs> {
    if info.owner == owner && info.primary.Some? && HasSuffix(info.primary.value.rel, suffix)
       && info.primary.value !in inputs
    then inputs + [info.primary.value] else inputs
  }

  /** The definition the chains speed up: every slot below `n`, in slot order. */
  function Scan(vals: seq<Info>, owner: nat, suffix: string, n: nat): seq<Vfs>
    requires n <= |vals|
  {
    if n <= 1 then [] else Keep(Scan(vals, owner, suffix, n - 1), vals[n - 1], owner, suffix)
  }

  /** Slots of other owners contribute nothing. */
  lemma {:induction false} ScanSkips(vals: seq<Info>, owner: nat, suffix: string, m: nat, n: nat)
    requires 1 <= m <= n <= |vals| && forall s :: m <= s < n ==> vals[s].owner != owner
    ensures Scan(vals, owner, suffix, n) == Scan(vals, owner, suffix, m)
    decreases n
  {
    if m < n {
      ScanSkips(vals, owner, suffix, m, n - 1);
    }
  }

  /** A full scan lists each matching primary input of the owner once, and nothing else. */
  lemma {:induction false} ScanLists(vals: seq<Info>, owner: nat, suffix: string, n: nat, v: Vfs)
    requires n <= |vals|
    ensures v in Scan(vals, owner, suffix, n) <==>
            exists s, rest :: 1 <= s < n && vals[s].owner == owner && vals[s].primary == Some(v) && v.rel == rest + suffix
    ensures forall i, j :: 0 <= i < j < |Scan(vals, owner, suffix, n)| ==>
              Scan(vals, owner, suffix, n)[i] != Scan(vals, owner, suffix, n)[j]
  {
    HasSuffixMeans(v.rel, suffix);
    if n > 1 {
      ScanLists(vals, owner, suffix, n - 1, v);
    }
  }

  /** Slot `s` holds `v` as a matching primary input of the owner. */
  ghost predicate MatchAt(vals: seq<Info>, owner: nat, suffix: string, s: nat, v: Vfs) {
    1 <= s < |vals| && vals[s].owner == owner && vals[s].primary == Some(v) && HasSuffix(v.rel, suffix)
  }

  /** The first slot below `n` that holds `v`, or 0. */
  ghost function FirstSlot(vals: seq<Info>, owner: nat, suffix: string, n: nat, v: Vfs): nat {
    if n <= 1 then 0
    else
      var before := FirstSlot(vals, owner, suffix, n - 1, v);
      if before != 0 then before else if MatchAt(vals, owner, suffix, n - 1, v) then n - 1 else 0
  }

  lemma {:induction false} FirstSlotMeans(vals: seq<Info>, owner: nat, suffix: string, n: nat, v: Vfs)
    requires n <= |vals|
    ensures var f := FirstSlot(vals, owner, suffix, n, v);
            f != 0 ==> f < n && MatchAt(vals, owner, suffix, f, v)
    ensures FirstSlot(vals, owner, suffix, n, v) == 0 ==> forall s: nat {:trigger MatchAt(vals, owner, suffix, s, v)} :: s < n ==> !MatchAt(vals, owner, suffix, s, v)
  {
    if n > 1 { FirstSlotMeans(vals, owner, suffix, n - 1, v); }
  }

  /** In order of their first slots. */
  ghost predicate ByFirstSlot(vals: seq<Info>, owner: nat, suffix: string, n: nat, xs: seq<Vfs>) {
    && (forall i :: 0 <= i < |xs| ==> 0 < FirstSlot(vals, owner, suffix, n, xs[i]) < n)
    && (forall i, j :: 0 <= i < j < |xs| ==> FirstSlot(vals, owner, suffix, n, xs[i]) < FirstSlot(vals, owner, suffix, n, xs[j]))
  }

  lemma {:induction false} FirstSlotStays(vals: seq<Info>, owner: nat, suffix: string, n: nat, xs: seq<Vfs>)
    requires 1 <= n && ByFirstSlot(vals, owner, suffix, n, xs)
    ensures ByFirstSlot(vals, owner, suffix, n + 1, xs)
  {
    forall i | 0 <= i < |xs| ensures FirstSlot(vals, owner, suffix, n + 1, xs[i]) == FirstSlot(vals, owner, suffix, n, xs[i]) {}
  }

  /** A scan lists what has a first slot, by first slot. */
  lemma {:induction false} ScanByFirstSlot(vals: seq<Info>, owner: nat, suffix: string, n: nat)
    requires n <= |vals|
    ensures ByFirstSlot(vals, owner, suffix, n, Scan(vals, owner, suffix, n))
    ensures forall v :: v in Scan(vals, owner, suffix, n) <==> FirstSlot(vals, owner, suffix, n, v) != 0
  {
    if n > 1 {
      ScanByFirstSlot(vals, owner, suffix, n - 1);
      FirstSlotStays(vals, owner, suffix, n - 1, Scan(vals, owner, suffix, n - 1));
      KeepByFirstSlot(vals, owner, suffix, n - 1, Scan(vals, owner, suffix, n - 1));
    }
  }

  lemma {:induction false} KeepByFirstSlot(vals: seq<Info>, owner: nat, suffix: string, n: nat, xs: seq<Vfs>)
    requires 1 <= n < |vals| && ByFirstSlot(vals, owner, suffix, n, xs) && ByFirstSlot(vals, owner, suffix, n + 1, xs)
    requires forall v :: v in xs <==> FirstSlot(vals, owner, suffix, n, v) != 0
    ensures ByFirstSlot(vals, owner, suffix, n + 1, Keep(xs, vals[n], owner, suffix))
    ensures forall v :: v in Keep(xs, vals[n], owner, suffix) <==> FirstSlot(vals, owner, suffix, n + 1, v) != 0
  {
    var kept := Keep(xs, vals[n], owner, suffix);
    if kept != xs {
      var v := vals[n].primary.value;
      assert kept == xs + [v] && FirstSlot(vals, owner, suffix, n, v) == 0;
      assert MatchAt(vals, owner, suffix, n, v) && FirstSlot(vals, owner, suffix, n + 1, v) == n;
      forall i | 0 <= i < |xs| ensures FirstSlot(vals, owner, suffix, n + 1, xs[i]) < n { assert FirstSlot(vals, owner, suffix, n, xs[i]) < n; }
    }
    forall v
      ensures v in kept <==> FirstSlot(vals, owner, suffix, n + 1, v) != 0
    {
      assert MatchAt(vals, owner, suffix, n, v) ==> vals[n].primary == Some(v);
    }
  }

  /** Two lists of the same elements, both in the order of one numbering, are equal. */
  lemma {:induction false} SameOrderIsEqual(a: seq<Vfs>, b: seq<Vfs>, f: Vfs -> nat)
    requires forall v :: v in a <==> v in b
    requires forall i, j :: 0 <= i < j < |a| ==> f(a[i]) < f(a[j])
    requires forall i, j :: 0 <= i < j < |b| ==> f(b[i]) < f(b[j])
    ensures a == b
    decreases |a|
  {
    if a == [] {
      assert forall i :: 0 <= i < |b| ==> b[i] in b;
    } else {
      assert a[0] in a && a[0] in b;
      assert b[0] in b && b[0] in a;
      var i :| 0 <= i < |b| && b[i] == a[0];
      var j :| 0 <= j < |a| && a[j] == b[0];
      assert a[0] == b[0];
      SameTails(a, b, f);
      SameOrderIsEqual(a[1..], b[1..], f);
      assert a == [a[0]] + a[1..] && b == [b[0]] + b[1..];
    }
  }

  lemma {:induction false} SameTails(a: seq<Vfs>, b: seq<Vfs>, f: Vfs -> nat)
    requires a != [] && b != [] && a[0] == b[0] && forall v :: v in a <==> v in b
    requires forall i, j :: 0 <= i < j < |a| ==> f(a[i]) < f(a[j])
    requires forall i, j :: 0 <= i < j < |b| ==> f(b[i]) < f(b[j])
    ensures forall v :: v in a[1..] <==> v in b[1..]
  {
    TailMembers(a, f);
    TailMembers(b, f);
  }

  lemma {:induction false} TailMembers(a: seq<Vfs>, f: Vfs -> nat)
    requires a != [] && forall i, j :: 0 <= i < j < |a| ==> f(a[i]) < f(a[j])
    ensures forall v :: v in a[1..] <==> v in a && v != a[0]
  {
    forall v
      ensures v in a[1..] <==> v in a && v != a[0]
    {
      if v in a[1..] {
        var i :| 0 <= i < |a[1..]| && a[1..][i] == v;
        assert a[i + 1] == v;
      }
      if v in a && v != a[0] {
        var i :| 0 <= i < |a| && a[i] == v;
        assert a[1..][i - 1] == v;
      }
    }
  }

  // ------------------------------------------------------------ one chain and the whole registry

  /** The records of the slots on one chain; the others count as nobody's. */
  ghost function NotedOnly(vals: seq<Info>, w: Owners, key: OwnerKey): (r: seq<Info>)
    requires |w.nodes| == |w.of|
    ensures |r| == |vals|
    ensures forall s :: 0 <= s < |r| ==> r[s] == if OnChain(w, key, s) then vals[s] else vals[s].(owner := 0)
  {
    seq(|vals|, s requires 0 <= s < |vals| => if OnChain(w, key, s) then vals[s] else vals[s].(owner := 0))
  }

  /** A matching slot's input stands at a matching slot on the chain, too. */
  ghost predicate ReflectedAt(vals: seq<Info>, w: Owners, key: OwnerKey, suffix: string, s: nat, v: Vfs)
    requires |w.nodes| == |w.of|
  {
    MatchAt(vals, key.owner, suffix, s, v) ==> exists t: nat {:trigger MatchAt(vals, key.owner, suffix, t, v)} :: MatchAt(vals, key.owner, suffix, t, v) && OnChain(w, key, t)
  }

  /** Every matching slot's input also stands at a matching slot on the chain. */
  ghost predicate Reflected(vals: seq<Info>, w: Owners, key: OwnerKey, suffix: string)
    requires |w.nodes| == |w.of|
  {
    forall s: nat, v {:trigger ReflectedAt(vals, w, key, suffix, s, v)} :: ReflectedAt(vals, w, key, suffix, s, v)
  }

  /** The inputs come in the same order by their first slots in the registry and by their first slots on the chain. */
  ghost predicate OrderReflected(vals: seq<Info>, w: Owners, key: OwnerKey, suffix: string)
    requires |w.nodes| == |w.of|
  {
    var noted, n, o := NotedOnly(vals, w, key), |vals|, key.owner;
    forall x, y {:trigger FirstSlot(vals, o, suffix, n, x), FirstSlot(vals, o, suffix, n, y)} ::
      FirstSlot(noted, o, suffix, n, x) != 0 && FirstSlot(noted, o, suffix, n, y) != 0
      && FirstSlot(vals, o, suffix, n, x) < FirstSlot(vals, o, suffix, n, y) ==>
        FirstSlot(noted, o, suffix, n, x) < FirstSlot(noted, o, suffix, n, y)
  }

  lemma {:induction false} NotedMatches(vals: seq<Info>, w: Owners, key: OwnerKey, suffix: string, s: nat, v: Vfs)
    requires |w.nodes| == |w.of| && key.owner != 0
    ensures MatchAt(NotedOnly(vals, w, key), key.owner, suffix, s, v) <==> MatchAt(vals, key.owner, suffix, s, v) && OnChain(w, key, s)
  {
  }

  /** The chain's scan and the full scan list the same inputs exactly when every matching input is reflected on the chain. */
  lemma {:induction false} SameInputsIff(vals: seq<Info>, w: Owners, key: OwnerKey, suffix: string)
    requires |w.nodes| == |w.of| && key.owner != 0
    ensures (forall v :: v in Scan(NotedOnly(vals, w, key), key.owner, suffix, |vals|) <==> v in Scan(vals, key.owner, suffix, |vals|))
            <==> Reflected(vals, w, key, suffix)
  {
    var noted, n, o := NotedOnly(vals, w, key), |vals|, key.owner;
    ScanByFirstSlot(noted, o, suffix, n);
    ScanByFirstSlot(vals, o, suffix, n);
    if forall v :: v in Scan(noted, o, suffix, n) <==> v in Scan(vals, o, suffix, n) {
      forall s: nat, v
        ensures ReflectedAt(vals, w, key, suffix, s, v)
      {
        if MatchAt(vals, o, suffix, s, v) {
          FirstSlotMeans(vals, o, suffix, n, v);
          FirstSlotMeans(noted, o, suffix, n, v);
          var t := FirstSlot(noted, o, suffix, n, v);
          assert v in Scan(noted, o, suffix, n);
          NotedMatches(vals, w, key, suffix, t, v);
        }
      }
    }
    if Reflected(vals, w, key, suffix) {
      forall v
        ensures v in Scan(noted, o, suffix, n) <==> v in Scan(vals, o, suffix, n)
      {
        ReflectedMember(vals, w, key, suffix, v);
      }
    }
  }

  lemma {:induction false} ReflectedMember(vals: seq<Info>, w: Owners, key: OwnerKey, suffix: string, v: Vfs)
    requires |w.nodes| == |w.of| && key.owner != 0 && Reflected(vals, w, key, suffix)
    ensures FirstSlot(NotedOnly(vals, w, key), key.owner, suffix, |vals|, v) != 0 <==> FirstSlot(vals, key.owner, suffix, |vals|, v) != 0
  {
    var noted, n, o := NotedOnly(vals, w, key), |vals|, key.owner;
    FirstSlotMeans(vals, o, suffix, n, v);
    FirstSlotMeans(noted, o, suffix, n, v);
    var s, t := FirstSlot(vals, o, suffix, n, v), FirstSlot(noted, o, suffix, n, v);
    NotedMatches(vals, w, key, suffix, t, v);
    if s != 0 {
      assert ReflectedAt(vals, w, key, suffix, s, v);
      var r: nat :| MatchAt(vals, o, suffix, r, v) && OnChain(w, key, r);
      NotedMatches(vals, w, key, suffix, r, v);
    }
  }

  /** And they are the same list exactly when, in addition, the chain keeps the order of the first slots. */
  lemma {:induction false} SameListIff(vals: seq<Info>, w: Owners, key: OwnerKey, suffix: string)
    requires |w.nodes| == |w.of| && key.owner != 0
    ensures Scan(NotedOnly(vals, w, key), key.owner, suffix, |vals|) == Scan(vals, key.owner, suffix, |vals|)
            <==> Reflected(vals, w, key, suffix) && OrderReflected(vals, w, key, suffix)
  {
    var noted, n, o := NotedOnly(vals, w, key), |vals|, key.owner;
    var a, b := Scan(noted, o, suffix, n), Scan(vals, o, suffix, n);
    SameInputsIff(vals, w, key, suffix);
    ScanByFirstSlot(noted, o, suffix, n);
    ScanByFirstSlot(vals, o, suffix, n);
    if a == b { EqualScansReflectOrder(vals, w, key, suffix); }
    if Reflected(vals, w, key, suffix) && OrderReflected(vals, w, key, suffix) {
      forall i, j | 0 <= i < j < |b|
        ensures FirstSlot(noted, o, suffix, n, b[i]) < FirstSlot(noted, o, suffix, n, b[j])
      {
        assert b[i] in b && b[j] in b;
        assert FirstSlot(vals, o, suffix, n, b[i]) < FirstSlot(vals, o, suffix, n, b[j]);
      }
      SameOrderIsEqual(a, b, v => FirstSlot(noted, o, suffix, n, v));
    }
  }

  lemma {:induction false} EqualScansReflectOrder(vals: seq<Info>, w: Owners, key: OwnerKey, suffix: string)
    requires |w.nodes| == |w.of| && key.owner != 0
    requires Scan(NotedOnly(vals, w, key), key.owner, suffix, |vals|) == Scan(vals, key.owner, suffix, |vals|)
    ensures OrderReflected(vals, w, key, suffix)
  {
    var noted, n, o := NotedOnly(vals, w, key), |vals|, key.owner;
    var a := Scan(noted, o, suffix, n);
    ScanByFirstSlot(noted, o, suffix, n);
    ScanByFirstSlot(vals, o, suffix, n);
    forall x, y | FirstSlot(noted, o, suffix, n, x) != 0 && FirstSlot(noted, o, suffix, n, y) != 0
                  && FirstSlot(vals, o, suffix, n, x) < FirstSlot(vals, o, suffix, n, y)
      ensures FirstSlot(noted, o, suffix, n, x) < FirstSlot(noted, o, suffix, n, y)
    {
      assert x in a && y in a;
      var i :| 0 <= i < |a| && a[i] == x;
      var j :| 0 <= j < |a| && a[j] == y;
      assert i < j;
    }
  }

  /** Every slot the owner was ever noted for was noted on this platform. */
  ghost predicate OnePlatform(w: Owners, key: OwnerKey) {
    forall i :: 0 <= i < |w.of| && w.of[i].owner == key.owner ==> w.of[i] == key
  }

  lemma {:induction false} SamePlatformOnChain(w: Owners, key: OwnerKey, s: nat)
    requires |w.nodes| == |w.of| && OnePlatform(w, key) && Owned(w, key.owner, s)
    ensures OnChain(w, key, s)
  {
    var k: OwnerKey :| k.owner == key.owner && OnChain(w, k, s);
    var i :| Mine(w.of, k, i) && w.nodes[i].slot == s;
    assert Mine(w.of, key, i);
  }

  /** Then the owner's chain misses none of its slots, and the restricted scan is the full one. */
  lemma {:induction false} OnePlatformScans(vals: seq<Info>, w: Owners, key: OwnerKey, suffix: string, n: nat)
    requires Chained(vals, w) && key.owner != 0 && OnePlatform(w, key) && n <= |vals|
    ensures Scan(NotedOnly(vals, w, key), key.owner, suffix, n) == Scan(vals, key.owner, suffix, n)
    decreases n
  {
    if n > 1 {
      OnePlatformScans(vals, w, key, suffix, n - 1);
      var s: nat := n - 1;
      if vals[s].owner == key.owner {
        assert Owned(w, vals[s].owner, s);
        SamePlatformOnChain(w, key, s);
      }
    }
  }

  /** Noting other owners, or the owner on this platform, keeps it on this platform only. */
  lemma {:induction false} NotedKeepsOnePlatform(w: Owners, k: OwnerKey, slot: nat, key: OwnerKey)
    requires OnePlatform(w, key) && (k.owner == key.owner ==> k == key)
    ensures OnePlatform(Noted(w, k, slot), key)
  {
  }

  ghost predicate Increasing(xs: seq<nat>) {
    forall i, j :: 0 <= i < j < |xs| ==> xs[i] < xs[j]
  }

  /** Insert keeping order and uniqueness: one step of sort-and-compact. */
  function Insert(xs: seq<nat>, x: nat): seq<nat> {
    if xs == [] then [x]
    else if xs[0] < x then [xs[0]] + Insert(xs[1..], x)
    else if xs[0] == x then xs
    else [x] + xs
  }

  lemma {:induction false} PushSmaller(x: nat, xs: seq<nat>)
    requires Increasing(xs) && forall y :: y in xs ==> x < y
    ensures Increasing([x] + xs)
  {
    forall i | 0 <= i < |xs| ensures x < xs[i] { assert xs[i] in xs; }
  }

  lemma {:induction false} InsertSorts(xs: seq<nat>, x: nat)
    requires Increasing(xs)
    ensures Increasing(Insert(xs, x))
    ensures forall y :: y in Insert(xs, x) <==> y in xs || y == x
  {
    if xs != [] {
      var first, rest := xs[0], xs[1..];
      assert xs == [first] + rest;
      forall y | y in rest
        ensures first < y
      {
        var j :| 0 <= j < |rest| && rest[j] == y;
        assert rest[j] == xs[j + 1];
      }
      if first < x {
        InsertSorts(rest, x);
        PushSmaller(first, Insert(rest, x));
      } else if first > x {
        PushSmaller(x, xs);
      }
    }
  }
}
