/** The codegen registry: registration, split lookup and module inputs (codegen_registry.go, project_modules.go). */
module CodegenRegistries {
  import opened Prelude
  import opened SplitKeys
  import opened RegistryIndex

  function Bucket(h: Hashes, tail: nat): BucketId {
    h.mix(tail) % BUCKETS
  }

  function KeyBucket(h: Hashes, k: SplitKey, prefix: string): BucketId {
    Bucket(h, TailOf(h, k, prefix))
  }

  function KeyBit(h: Hashes, k: SplitKey, prefix: string, depth: nat): nat {
    h.bit(TailOf(h, k, prefix), depth)
  }

  ghost predicate KeyedAt(h: Hashes, v: View, rel: string) {
    var k := SplitKeyOf(h, rel);
    v.bucket(rel) == KeyBucket(h, k, "") && v.bit(rel) == KeyBit(h, k, "", k.depth)
  }

  function ViewOf(h: Hashes): View {
    View(rel => KeyBucket(h, SplitKeyOf(h, rel), ""),
         rel => KeyBit(h, SplitKeyOf(h, rel), "", SplitKeyOf(h, rel).depth),
         h.clean, h.cleanRel)
  }

  /** `v` is what the registry's hash functions say of whole paths. */
  ghost predicate KeyedBy(h: Hashes, v: View) {
    && v.clean == h.clean && v.cleanRel == h.cleanRel
    && (forall rel {:trigger KeyedAt(h, v, rel)} :: KeyedAt(h, v, rel))
  }

  lemma {:induction false} ViewIsKeyed(h: Hashes)
    ensures KeyedBy(h, ViewOf(h))
  {
    forall rel ensures KeyedAt(h, ViewOf(h), rel) { }
  }

  lemma {:induction false} SameTailSelects(h: Hashes, v: View, rel: string, tail: nat, k: SplitKey, prefix: string, depth: nat)
    requires v.bucket(rel) == Bucket(h, tail) && v.bit(rel) == h.bit(tail, depth) && TailOf(h, k, prefix) == tail
    ensures KeyBucket(h, k, prefix) == v.bucket(rel) && KeyBit(h, k, prefix, depth) == v.bit(rel)
  {
  }

  /** A lookup's two halves select the bucket and the bit of the joined path. */
  lemma {:induction false} HalvesSelect(h: Hashes, v: View, prefix: string, suffix: string, k: SplitKey, depth: nat)
    requires KeyedBy(h, v) && k == SplitKeyOf(h, suffix) && depth == PathDepth(prefix)
    ensures KeyBucket(h, k, prefix) == v.bucket(Join(prefix, suffix))
    ensures KeyBit(h, k, prefix, depth + k.depth) == v.bit(Join(prefix, suffix))
  {
    var joined := Join(prefix, suffix);
    assert KeyedAt(h, v, joined);
    SplitKeyOfJoin(h, prefix, suffix);
    SameTailSelects(h, v, joined, TailOf(h, SplitKeyOf(h, joined), ""), k, prefix, depth + k.depth);
  }

  /** The placeholder record of a path known only for its inputs. */
  function Inserted(output: string, moduleType: nat): Info {
    Info(output, 0, 0, None, true, moduleType, 0)
  }

  /** Another module's output already has the path. */
  predicate Taken(info: Info, owner: nat) {
    info.moduleType != 0 && info.owner != 0 && info.owner != owner
  }

  /** The record `setModuleOutput` leaves: the first module to give a path its type keeps it. */
  function Claimed(info: Info, owner: nat, ref: nat, moduleType: nat): Info {
    if Taken(info, owner) then info
    else info.(owner := owner, ref := ref, moduleType := if moduleType != 0 then moduleType else info.moduleType)
  }

  /** The owner chains after `setModuleOutput`: only a slot that gets a new owner is noted. */
  function ClaimNoted(w: Owners, info: Info, key: OwnerKey, slot: nat): Owners {
    if Taken(info, key.owner) || info.owner == key.owner then w else Noted(w, key, slot)
  }

  /** `register` returns a registry slot, a detached record, or throws. */
  datatype Registered = InSlot(slot: nat) | Detached(info: Info) | DuplicateProducer

  class CodegenRegistry {
    const h: Hashes
    ghost const v: View
    var slots: map<string, nat>
    var vals: seq<Info>
    var splitGeneration: nat
    var splitGens: seq<nat>
    var splitTails: set<nat>
    var bySplit: map<(string, string), Memo>
    var prefixDepths: map<nat, (string, nat)>
    var ownerSlots: seq<OwnerSlot>
    var chains: map<OwnerKey, OwnerChain>
    /** How often a path was registered or taken over, per bucket and in all. */
    ghost var changes: seq<nat>
    ghost var total: nat
    ghost var nodeOwner: seq<OwnerKey>
    /** `ctx.emit.modules`: the references that module outputs were claimed for. */
    var modules: set<nat>

    ghost function SplitState(): Split
      reads this
    {
      Split(splitGens, splitGeneration, splitTails, bySplit, changes, total)
    }

    ghost function OwnerState(): Owners
      reads this
    {
      Owners(ownerSlots, chains, nodeOwner)
    }

    ghost predicate Valid()
      reads this
    {
      && KeyedBy(h, v)
      && Dense(slots, vals)
      && SplitOk(v, slots, SplitState())
      && Chained(vals, OwnerState())
      && (forall k :: k in prefixDepths ==> prefixDepths[k].1 == PathDepth(prefixDepths[k].0))
    }

    constructor (h: Hashes)
      ensures Valid() && this.h == h && slots == map[] && |vals| == 1 && total == 0 && bySplit == map[]
      ensures OwnerState() == NO_OWNERS && modules == {}
    {
      this.h := h;
      v := ViewOf(h);
      slots, vals := map[], [Info("", 0, 0, None, false, 0, 0)];
      splitGeneration, splitGens, splitTails := 0, seq(BUCKETS, _ => 0), {};
      bySplit, prefixDepths := map[], map[];
      ownerSlots, chains, modules := [], map[], {};
      changes, total, nodeOwner := seq(BUCKETS, _ => 0), 0, [];
      ViewIsKeyed(h);
      new;
      assert forall o :: EndsAt(OwnerState(), o);
    }

    /** `prefixDepth`: a direct-mapped cache in front of `pathDepth`. */
    method PrefixDepth(prefix: string) returns (depth: nat)
      requires Valid()
      modifies this`prefixDepths
      ensures Valid() && depth == PathDepth(prefix)
    {
      var at := h.slot(prefix);
      if at !in prefixDepths || prefixDepths[at].0 != prefix {
        prefixDepths := prefixDepths[at := (prefix, PathDepth(prefix))];
      }
      depth := prefixDepths[at].1;
    }

    /** `splitChanged`. */
    method SplitChanged(output: string)
      requires |splitGens| == |changes| == BUCKETS && KeyedBy(h, v)
      modifies this`splitGeneration, this`splitGens, this`splitTails, this`changes, this`total
      ensures SplitState() == Changed(old(SplitState()), v.bucket(output), v.bit(output))
    {
      assert KeyedAt(h, v, output);
      var key := SplitKeyOf(h, output);
      var bucket := KeyBucket(h, key, "");
      splitGeneration := (splitGeneration + 1) % WRAP;
      splitGens := splitGens[bucket := (splitGens[bucket] + 1) % WRAP];
      splitTails := splitTails + {KeyBit(h, key, "", key.depth)};
      changes := changes[bucket := changes[bucket] + 1];
      total := total + 1;
    }

    /** `putRel` of a path not registered before. */
    method PutRel(info: Info) returns (slot: nat)
      requires Valid() && info.output !in slots && info.owner == 0
      modifies this`slots, this`vals, this`splitGeneration, this`splitGens, this`splitTails, this`changes, this`total
      ensures Valid() && slot == old(|vals|)
      ensures slots == old(slots)[info.output := slot] && vals == old(vals) + [info]
      ensures bySplit == old(bySplit) && total == old(total) + 1
    {
      slot := |vals|;
      DenseAppend(slots, vals, info);
      ChangedKeepsSplit(v, slots, SplitState(), info.output, slot);
      vals := vals + [info];
      slots := slots[info.output := slot];
      SplitChanged(info.output);
      KeepChained(old(vals), vals, OwnerState());
    }

    /** `noteOwner`. */
    method NoteOwner(slot: nat, key: OwnerKey)
      requires Linked(OwnerState())
      modifies this`ownerSlots, this`chains, this`nodeOwner
      ensures OwnerState() == Noted(old(OwnerState()), key, slot)
    {
      TailInRange(OwnerState(), key);
      if key.owner == 0 {
        return;
      }
      var chain := ChainOf(chains, key);
      if chain.tail != 0 && ownerSlots[chain.tail - 1].slot == slot {
        return;
      }
      ownerSlots := ownerSlots + [OwnerSlot(slot, 0)];
      nodeOwner := nodeOwner + [key];
      var i := |ownerSlots|;
      if chain.tail != 0 {
        ownerSlots := ownerSlots[chain.tail - 1 := ownerSlots[chain.tail - 1].(next := i)];
      } else {
        chain := chain.(head := i);
      }
      chains := chains[key := chain.(tail := i)];
    }

    /** The placeholder the `forward*` and `setModuleInputs` calls insert when a path is not there yet. */
    method Placeholder(output: string, moduleType: nat) returns (slot: nat)
      requires Valid()
      modifies this`slots, this`vals, this`splitGeneration, this`splitGens, this`splitTails, this`changes, this`total
      ensures Valid() && output in slots && slots[output] == slot
      ensures if output in old(slots) then slots == old(slots) && vals == old(vals) && total == old(total)
              else slots == old(slots)[output := old(|vals|)]
                   && vals == old(vals) + [Inserted(output, moduleType)] && total == old(total) + 1
      ensures output !in old(slots) ==>
                vals[slot].inputsOnly && vals[slot].moduleType == moduleType && vals[slot].owner == 0 && vals[slot].primary == None
    {
      if output in slots {
        return slots[output];
      }
      slot := PutRel(Inserted(output, moduleType));
    }

    /** Store a new record in a slot, keeping the path, and put it on its owner's chain. */
    method StoreOwned(slot: nat, info: Info, platform: nat)
      requires Valid() && 1 <= slot < |vals| && info.output == vals[slot].output
      modifies this`vals, this`ownerSlots, this`chains, this`nodeOwner
      ensures Valid() && vals == old(vals)[slot := info]
      ensures OwnerState() == Noted(old(OwnerState()), OwnerKey(info.owner, platform), slot)
    {
      ghost var v0, w0 := vals, OwnerState();
      DenseUpdate(slots, vals, slot, info);
      vals := vals[slot := info];
      TailInRange(w0, OwnerKey(info.owner, platform));
      NoteOwner(slot, OwnerKey(info.owner, platform));
      NotedKeepsChained(v0, vals, w0, slot, OwnerKey(info.owner, platform));
    }

    /** `register` of a path whose slot only held inputs: the slot is kept, the record replaced. */
    method TakeOver(slot: nat, spec: Info, platform: nat)
      requires Valid() && spec.output in slots && slots[spec.output] == slot
      modifies this`slots, this`vals, this`splitGeneration, this`splitGens, this`splitTails, this`changes, this`total, this`ownerSlots, this`chains, this`nodeOwner
      ensures Valid() && slots == old(slots) && vals == old(vals)[slot := spec] && total == old(total) + 1
      ensures OwnerState() == Noted(old(OwnerState()), OwnerKey(spec.owner, platform), slot)
    {
      StoreOwned(slot, spec, platform);
      ChangedKeepsSplit(v, slots, SplitState(), spec.output, slot);
      assert slots[spec.output := slot] == slots;
      SplitChanged(spec.output);
    }

    /** `register`, noting the owner on the chain of `platform`. */
    method Register(spec: Info, platform: nat) returns (r: Registered)
      requires Valid()
      modifies this`slots, this`vals, this`splitGeneration, this`splitGens, this`splitTails, this`changes, this`total,
               this`ownerSlots, this`chains, this`nodeOwner
      ensures Valid()
      ensures spec.output !in old(slots) ==>
                && r == InSlot(old(|vals|)) && slots == old(slots)[spec.output := old(|vals|)]
                && vals == old(vals) + [spec] && total == old(total) + 1
                && OwnerState() == Noted(old(OwnerState()), OwnerKey(spec.owner, platform), old(|vals|))
      ensures spec.output in old(slots) ==> slots == old(slots)
      ensures spec.output in old(slots) && old(vals[slots[spec.output]]).inputsOnly ==>
                && r == InSlot(slots[spec.output]) && vals == old(vals)[slots[spec.output] := spec]
                && total == old(total) + 1
                && OwnerState() == Noted(old(OwnerState()), OwnerKey(spec.owner, platform), slots[spec.output])
      ensures spec.output in old(slots) && !old(vals[slots[spec.output]]).inputsOnly ==>
                var existing := old(vals[slots[spec.output]]);
                && vals == old(vals) && total == old(total) && OwnerState() == old(OwnerState())
                && r == (if existing.owner != spec.owner || existing.serial == spec.serial
                         then DuplicateProducer else Detached(spec))
    {
      if spec.output in slots {
        var slot := slots[spec.output];
        if vals[slot].inputsOnly {
          TakeOver(slot, spec, platform);
          return InSlot(slot);
        }
        if vals[slot].owner != spec.owner || vals[slot].serial == spec.serial {
          return DuplicateProducer;
        }
        return Detached(spec);
      }
      var slot := PutRel(spec.(owner := 0));
      StoreOwned(slot, spec, platform);
      assert vals == old(vals) + [spec];
      return InSlot(slot);
    }

    /** `setModuleOutput`: claims a path for a module unless another module's output already has it. */
    method SetModuleOutput(owner: nat, platform: nat, output: string, ref: nat, moduleType: nat)
      requires Valid()
      modifies this`slots, this`vals, this`splitGeneration, this`splitGens, this`splitTails, this`changes, this`total,
               this`ownerSlots, this`chains, this`nodeOwner, this`modules
      ensures Valid()
      ensures ref == 0 ==> slots == old(slots) && vals == old(vals) && modules == old(modules) && total == old(total)
                           && OwnerState() == old(OwnerState())
      ensures ref != 0 ==>
                && output in slots && total == old(total) + (if output in old(slots) then 0 else 1)
                && slots == (if output in old(slots) then old(slots) else old(slots)[output := old(|vals|)])
                && var before := if output in old(slots) then old(vals) else old(vals) + [Inserted(output, 0)];
                   && vals == before[slots[output] := Claimed(before[slots[output]], owner, ref, moduleType)]
                   && modules == old(modules) + (if Taken(before[slots[output]], owner) then {} else {ref})
                   && OwnerState() == ClaimNoted(old(OwnerState()), before[slots[output]], OwnerKey(owner, platform), slots[output])
    {
      if ref == 0 {
        return;
      }
      var slot := Placeholder(output, 0);
      ClaimSlot(slot, owner, platform, ref, moduleType);
    }

    method ClaimSlot(slot: nat, owner: nat, platform: nat, ref: nat, moduleType: nat)
      requires Valid() && 1 <= slot < |vals|
      modifies this`vals, this`ownerSlots, this`chains, this`nodeOwner, this`modules
      ensures Valid() && vals == old(vals)[slot := Claimed(old(vals)[slot], owner, ref, moduleType)]
      ensures modules == old(modules) + if Taken(old(vals)[slot], owner) then {} else {ref}
      ensures OwnerState() == ClaimNoted(old(OwnerState()), old(vals)[slot], OwnerKey(owner, platform), slot)
    {
      var info := vals[slot];
      if Taken(info, owner) {
        return;
      }
      modules := modules + {ref};
      if moduleType != 0 {
        info := info.(moduleType := moduleType);
      }
      if info.owner != owner {
        StoreOwned(slot, info.(owner := owner, ref := ref), platform);
      } else {
        info := info.(ref := ref);
        DenseUpdate(slots, vals, slot, info);
        KeepChained(vals, vals[slot := info], OwnerState());
        vals := vals[slot := info];
      }
    }

    /** The bucket a lookup of a clean suffix belongs to. */
    method SelectBucket(prefix: string, suffix: string) returns (split: SplitKey, bucket: BucketId)
      requires KeyedBy(h, v)
      ensures split == SplitKeyOf(h, suffix) && bucket == v.bucket(Join(prefix, suffix))
    {
      split := SplitKeyOf(h, suffix);
      HalvesSelect(h, v, prefix, suffix, split, PathDepth(prefix));
      bucket := KeyBucket(h, split, prefix);
    }

    /** The filter bit a lookup of a clean suffix tests. */
    method SelectBit(prefix: string, suffix: string, split: SplitKey) returns (bit: nat)
      requires Valid() && split == SplitKeyOf(h, suffix)
      modifies this`prefixDepths
      ensures Valid() && bit == v.bit(Join(prefix, suffix))
    {
      var depth := PrefixDepth(prefix);
      HalvesSelect(h, v, prefix, suffix, split, depth);
      bit := KeyBit(h, split, prefix, depth + split.depth);
    }

    /** The filter in front of the memo: `None` when it proves a clean suffix absent, else the generation to compare. */
    method Filter(prefix: string, suffix: string) returns (generation: Option<nat>)
      requires Valid()
      modifies this`prefixDepths
      ensures Valid()
      ensures generation.None? && total < WRAP ==> h.clean(suffix) && Join(prefix, suffix) !in slots
      ensures generation.Some? && total < WRAP ==>
                generation.value == Relevant(v, SplitState(), Join(prefix, suffix), suffix)
    {
      ghost var joined := Join(prefix, suffix);
      if total < WRAP { CurrentGeneration(v, slots, SplitState(), joined, suffix); }
      if !h.clean(suffix) {
        return Some(splitGeneration);
      }
      var split, bucket := SelectBucket(prefix, suffix);
      if splitGens[bucket] == 0 {
        if total < WRAP { RejectedIsAbsent(v, slots, SplitState(), joined); }
        return None;
      }
      generation := Some(splitGens[bucket]);
      var bit := SelectBit(prefix, suffix, split);
      if bit !in splitTails {
        if total < WRAP { RejectedIsAbsent(v, slots, SplitState(), joined); }
        return None;
      }
    }

    /**
     * `lookupSplitAny`: until a counter wraps, filter, generations and memo answer
     * as `Answers` says. A slot it returns is always one of a consulted path, and
     * remembered.
     */
    method LookupSplitAny(prefix: string, suffix: string) returns (slot: nat)
      requires Valid()
      modifies this`bySplit, this`prefixDepths
      ensures Valid()
      ensures slot != 0 ==> Consulted(v, slots, slot, Join(prefix, suffix), suffix) && Remembered(bySplit, (prefix, suffix)) == slot
      ensures total < WRAP ==>
                Answers(v, slots, vals, Remembered(old(bySplit), (prefix, suffix)), slot, Join(prefix, suffix), suffix)
    {
      var generation := Filter(prefix, suffix);
      if generation.None? {
        ghost var joined := Join(prefix, suffix);
        assert (prefix, suffix) in bySplit ==> MemoAt(v, slots, SplitState(), (prefix, suffix));
        if total < WRAP { AbsentIsUncached(v, slots, vals, joined, suffix); }
        return 0;
      }
      var known := Recall(prefix, suffix, generation.value);
      if known.Some? {
        return known.value;
      }
      slot := Memoise(prefix, suffix, generation.value);
    }

    /** The memo's answer, if it has one that is still good. */
    method Recall(prefix: string, suffix: string, generation: nat) returns (r: Option<nat>)
      requires Valid() && (total < WRAP ==> generation == Relevant(v, SplitState(), Join(prefix, suffix), suffix))
      ensures r.None? ==> Remembered(bySplit, (prefix, suffix)) == 0
      ensures r.Some? ==> r.value == Remembered(bySplit, (prefix, suffix))
      ensures r.Some? && r.value != 0 ==> Consulted(v, slots, r.value, Join(prefix, suffix), suffix)
      ensures r.Some? && total < WRAP ==> Answers(v, slots, vals, r.value, r.value, Join(prefix, suffix), suffix)
    {
      var key := (prefix, suffix);
      if key !in bySplit {
        return None;
      }
      assert MemoAt(v, slots, SplitState(), key);
      var cached := bySplit[key];
      if cached.slot != 0 {
        KnownAnswers(v, slots, vals, cached.slot, Join(prefix, suffix), suffix);
        return Some(cached.slot);
      }
      if cached.generation != generation {
        return None;
      }
      if total < WRAP { AbsentIsUncached(v, slots, vals, Join(prefix, suffix), suffix); }
      r := Some(0);
    }

    /** Look up without the memo, and remember. */
    method Memoise(prefix: string, suffix: string, generation: nat) returns (slot: nat)
      requires Valid() && (total < WRAP ==> generation == Relevant(v, SplitState(), Join(prefix, suffix), suffix))
      modifies this`bySplit
      ensures Valid() && Remembered(bySplit, (prefix, suffix)) == slot
      ensures slot != 0 ==> Consulted(v, slots, slot, Join(prefix, suffix), suffix)
      ensures Answers(v, slots, vals, 0, slot, Join(prefix, suffix), suffix)
    {
      slot := SlowLookup(prefix, suffix);
      UncachedAnswers(v, slots, vals, Join(prefix, suffix), suffix);
      UncachedIsConsulted(v, slots, vals, Join(prefix, suffix), suffix);
      RecordKeepsSplit(v, slots, SplitState(), (prefix, suffix), Memo(slot, generation));
      bySplit := bySplit[(prefix, suffix) := Memo(slot, generation)];
    }

    /** The uncached half of `lookupSplitAny`: the raw join, then the cleaned join of an unclean suffix. */
    method SlowLookup(prefix: string, suffix: string) returns (slot: nat)
      requires Valid()
      ensures slot == Uncached(v, slots, vals, Join(prefix, suffix), suffix)
    {
      var rel := suffix;
      if prefix != "" {
        rel := prefix + "/" + suffix;
      }
      slot := SlotOf(slots, rel);
      if (slot == 0 || vals[slot].inputsOnly) && suffix != "" && !h.clean(suffix) {
        var alt := SlotOf(slots, h.cleanRel(rel));
        if alt != 0 && (slot == 0 || !vals[alt].inputsOnly) {
          slot := alt;
        }
      }
    }

    /**
     * `moduleSourceInputs`: the chain gives what scanning every slot noted on it
     * would give. That is what scanning every slot would give exactly when every
     * matching input is reflected on the chain, in the same order; in particular
     * when the owner was only ever noted on this platform.
     */
    method ModuleSourceInputs(key: OwnerKey, suffix: string) returns (inputs: seq<Vfs>)
      requires Valid() && key.owner != 0
      ensures inputs == Scan(NotedOnly(vals, OwnerState(), key), key.owner, suffix, |vals|)
      ensures inputs == Scan(vals, key.owner, suffix, |vals|) <==>
                Reflected(vals, OwnerState(), key, suffix) && OrderReflected(vals, OwnerState(), key, suffix)
      ensures (forall x :: x in inputs <==> x in Scan(vals, key.owner, suffix, |vals|)) <==> Reflected(vals, OwnerState(), key, suffix)
      ensures OnePlatform(OwnerState(), key) ==> inputs == Scan(vals, key.owner, suffix, |vals|)
    {
      var slots := ChainSlots(key);
      assert forall k :: 0 <= k < |slots| ==> slots[k] in slots;
      inputs := Collect(vals, slots, key.owner, suffix, NotedOnly(vals, OwnerState(), key));
      SameListIff(vals, OwnerState(), key, suffix);
      SameInputsIff(vals, OwnerState(), key, suffix);
      if OnePlatform(OwnerState(), key) { OnePlatformScans(vals, OwnerState(), key, suffix, |vals|); }
    }

    /** Follow the owner's chain; the slots come out sorted and without repeats. */
    method ChainSlots(key: OwnerKey) returns (slots: seq<nat>)
      requires Chained(vals, OwnerState())
      ensures Increasing(slots)
      ensures forall s :: s in slots <==> OnChain(OwnerState(), key, s)
      ensures forall s :: s in slots ==> 1 <= s < |vals|
    {
      slots := [];
      ghost var w := OwnerState();
      assert EndsAt(w, key);
      var i := ChainOf(chains, key).head;
      while i != 0
        invariant i != 0 ==> Mine(nodeOwner, key, i - 1)
        invariant Increasing(slots)
        invariant forall s :: s in slots ==> OnChain(w, key, s) && 1 <= s < |vals|
        invariant forall j :: Mine(nodeOwner, key, j) && (i == 0 || j < i - 1) ==> ownerSlots[j].slot in slots
        decreases i != 0, |ownerSlots| - i
      {
        assert LinkAt(w, i - 1);
        assert OnChain(w, key, ownerSlots[i - 1].slot);
        InsertSorts(slots, ownerSlots[i - 1].slot);
        slots := Insert(slots, ownerSlots[i - 1].slot);
        i := ownerSlots[i - 1].next;
      }
    }
  }

  /** A call on the registry. */
  datatype Call =
    | Registration(info: Info, platform: nat)
    | Insertion(output: string, moduleType: nat)
    | Claim(owner: nat, on: nat, path: string, ref: nat, typ: nat)
    | Look(prefix: string, suffix: string)

  /** The call notes the owner of `key` on the platform of `key`, if at all. */
  predicate NotesOn(call: Call, key: OwnerKey) {
    match call
    case Registration(info, platform) => info.owner == key.owner ==> platform == key.platform
    case Claim(owner, platform, _, _, _) => owner == key.owner ==> platform == key.platform
    case _ => true
  }

  method Perform(registry: CodegenRegistry, call: Call, ghost key: OwnerKey)
    requires registry.Valid() && OnePlatform(registry.OwnerState(), key) && NotesOn(call, key)
    modifies registry
    ensures registry.Valid() && OnePlatform(registry.OwnerState(), key)
  {
    ghost var w := registry.OwnerState();
    match call
    case Registration(info, platform) =>
      var r := registry.Register(info, platform);
      if r.InSlot? { NotedKeepsOnePlatform(w, OwnerKey(info.owner, platform), r.slot, key); }
    case Insertion(output, moduleType) =>
      var _ := registry.Placeholder(output, moduleType);
    case Claim(owner, platform, output, ref, moduleType) =>
      registry.SetModuleOutput(owner, platform, output, ref, moduleType);
      if ref != 0 { NotedKeepsOnePlatform(w, OwnerKey(owner, platform), registry.slots[output], key); }
    case Look(prefix, suffix) =>
      var _ := registry.LookupSplitAny(prefix, suffix);
  }

  /** A module claiming a path; type 0 is no type. */
  datatype ModuleClaim = ModuleClaim(owner: nat, platform: nat, ref: nat, moduleType: nat)

  /** The last reference that `owner` gives, or else `ref`. */
  function LastRef(claims: seq<ModuleClaim>, n: nat, owner: nat, ref: nat): nat
    requires n <= |claims|
  {
    if n == 0 then ref
    else if claims[n - 1].owner == owner && claims[n - 1].ref != 0 then claims[n - 1].ref
    else LastRef(claims, n - 1, owner, ref)
  }

  /**
   * The first module to type a path keeps it: a path without owner or without type
   * can be claimed, and whatever is claimed afterwards, by others or without a type
   * by the module itself, owner and type stay and only the module's own references count.
   */
  method FirstModuleKeeps(registry: CodegenRegistry, output: string, first: ModuleClaim, later: seq<ModuleClaim>) returns (slot: nat)
    requires registry.Valid() && first.owner != 0 && first.ref != 0 && first.moduleType != 0
    requires output in registry.slots ==>
               var info := registry.vals[registry.slots[output]]; info.moduleType == 0 || info.owner == 0 || info.owner == first.owner
    requires forall i :: 0 <= i < |later| ==> later[i].owner != first.owner || later[i].moduleType == 0
    modifies registry
    ensures registry.Valid() && output in registry.slots && registry.slots[output] == slot && first.ref in registry.modules
    ensures registry.vals[slot].owner == first.owner && registry.vals[slot].moduleType == first.moduleType
    ensures registry.vals[slot].ref == LastRef(later, |later|, first.owner, first.ref)
  {
    registry.SetModuleOutput(first.owner, first.platform, output, first.ref, first.moduleType);
    slot := registry.slots[output];
    for i := 0 to |later|
      invariant registry.Valid() && output in registry.slots && registry.slots[output] == slot && first.ref in registry.modules
      invariant registry.vals[slot].owner == first.owner && registry.vals[slot].moduleType == first.moduleType
      invariant registry.vals[slot].ref == LastRef(later, i, first.owner, first.ref)
    {
      registry.SetModuleOutput(later[i].owner, later[i].platform, output, later[i].ref, later[i].moduleType);
    }
  }

  /**
   * Over every run of calls, takeovers and claims included, that notes a directory
   * on one platform only, its source inputs are those of a full scan.
   */
  method InputsAfterRun(h: Hashes, calls: seq<Call>, key: OwnerKey, suffix: string) returns (registry: CodegenRegistry, inputs: seq<Vfs>)
    requires key.owner != 0 && forall i :: 0 <= i < |calls| ==> NotesOn(calls[i], key)
    ensures registry.Valid() && inputs == Scan(registry.vals, key.owner, suffix, |registry.vals|)
  {
    registry := new CodegenRegistry(h);
    for i := 0 to |calls|
      invariant fresh(registry) && registry.Valid() && OnePlatform(registry.OwnerState(), key)
    {
      Perform(registry, calls[i], key);
    }
    inputs := registry.ModuleSourceInputs(key, suffix);
  }

  /**
   * A registry shared by two platforms: what a directory registered on platform 5
   * is listed for platform 5 and not for platform 6, though it is in the registry.
   */
  method OtherPlatformMisses(h: Hashes, info: Info, suffix: string) returns (registry: CodegenRegistry, own: seq<Vfs>, other: seq<Vfs>)
    requires info.owner != 0 && info.primary.Some? && HasSuffix(info.primary.value.rel, suffix)
    ensures registry.Valid() && Scan(registry.vals, info.owner, suffix, |registry.vals|) == [info.primary.value]
    ensures own == [info.primary.value] && other == []
  {
    registry := new CodegenRegistry(h);
    var key := OwnerKey(info.owner, 5);
    var r := registry.Register(info, 5);
    assert registry.OwnerState() == Noted(NO_OWNERS, key, 1);
    own := registry.ModuleSourceInputs(key, suffix);
    other := registry.ModuleSourceInputs(OwnerKey(info.owner, 6), suffix);
    ScanOne(registry.vals, info, suffix);
    NotOnOtherChain(registry.vals, key, OwnerKey(info.owner, 6), suffix);
  }

  lemma {:induction false} ScanOne(vals: seq<Info>, info: Info, suffix: string)
    requires |vals| == 2 && vals[1] == info && info.primary.Some? && HasSuffix(info.primary.value.rel, suffix)
    ensures Scan(vals, info.owner, suffix, |vals|) == [info.primary.value]
  {
    assert Scan(vals, info.owner, suffix, 1) == [];
  }

  lemma {:induction false} NotOnOtherChain(vals: seq<Info>, key: OwnerKey, other: OwnerKey, suffix: string)
    requires |vals| == 2 && key.owner == other.owner != 0 && key != other
    ensures Noted(NO_OWNERS, key, 1) == Owners([OwnerSlot(1, 0)], map[key := OwnerChain(1, 1)], [key])
    ensures Scan(NotedOnly(vals, Noted(NO_OWNERS, key, 1), other), other.owner, suffix, 2) == []
  {
    var w := Noted(NO_OWNERS, key, 1);
    assert w.of == [key];
    assert !OnChain(w, other, 1);
    assert Scan(NotedOnly(vals, w, other), other.owner, suffix, 1) == [];
  }

  /** The loop of `moduleSourceInputs` over sorted slots, where `noted` has the owner's records at those slots only. */
  method Collect(vals: seq<Info>, slots: seq<nat>, owner: nat, suffix: string, ghost noted: seq<Info>) returns (inputs: seq<Vfs>)
    requires Increasing(slots) && |noted| == |vals| >= 1 && (forall k :: 0 <= k < |slots| ==> 1 <= slots[k] < |vals|)
    requires forall s :: 0 <= s < |vals| ==> if s in slots then noted[s] == vals[s] else noted[s].owner != owner
    ensures inputs == Scan(noted, owner, suffix, |vals|)
  {
    inputs := [];
    ghost var n: nat := 1;
    for k := 0 to |slots|
      invariant 1 <= n <= |vals| && inputs == Scan(noted, owner, suffix, n)
      invariant n == if k == 0 then 1 else slots[k - 1] + 1
    {
      BetweenSlots(slots, k, n);
      ScanSkips(noted, owner, suffix, n, slots[k]);
      var info := vals[slots[k]];
      if info.owner == owner && info.primary.Some? {
        if HasSuffix(info.primary.value.rel, suffix) && info.primary.value !in inputs {
          inputs := inputs + [info.primary.value];
        }
      }
      n := slots[k] + 1;
    }
    BetweenSlots(slots, |slots|, n);
    ScanSkips(noted, owner, suffix, n, |vals|);
  }

  /** No slot lies between two neighbours, or behind the last. */
  lemma {:induction false} BetweenSlots(slots: seq<nat>, k: nat, n: nat)
    requires Increasing(slots) && k <= |slots| && n == (if k == 0 then 1 else slots[k - 1] + 1) && forall i :: 0 <= i < |slots| ==> slots[i] >= 1
    ensures k < |slots| ==> slots[k] in slots && n <= slots[k]
    ensures forall s :: n <= s && (k < |slots| ==> s < slots[k]) ==> s !in slots
  {
  }

  /**
   * Why outputs must be registered under clean paths, for every cleaner and every
   * unclean join: a placeholder under the raw join is looked up and remembered;
   * the real file registered afterwards under the cleaned join is what an uncached
   * lookup finds, and not what the next lookup answers.
   */
  method StaleLookup(h: Hashes, prefix: string, suffix: string, file: Info) returns (first: nat, second: nat, uncached: nat)
    requires suffix != "" && !h.clean(suffix) && !file.inputsOnly
    requires h.cleanRel(Join(prefix, suffix)) == file.output != Join(prefix, suffix)
    ensures first == 1 && second == 1 && uncached == 2
  {
    var registry;
    registry, first := LookedUpPlaceholder(h, prefix, suffix);
    var r := registry.Register(file, 0);
    second := registry.LookupSplitAny(prefix, suffix);
    uncached := registry.SlowLookup(prefix, suffix);
  }

  /** A registry that holds one placeholder, under the raw join, and has answered a lookup with it. */
  method LookedUpPlaceholder(h: Hashes, prefix: string, suffix: string) returns (registry: CodegenRegistry, slot: nat)
    requires suffix != "" && !h.clean(suffix) && h.cleanRel(Join(prefix, suffix)) != Join(prefix, suffix)
    ensures fresh(registry) && registry.Valid() && registry.h == h && registry.total == 1
    ensures registry.slots == map[Join(prefix, suffix) := 1] && |registry.vals| == 2 && registry.vals[1].inputsOnly
    ensures slot == 1 && Remembered(registry.bySplit, (prefix, suffix)) == 1
  {
    registry := new CodegenRegistry(h);
    slot := registry.Placeholder(Join(prefix, suffix), 0);
    slot := registry.LookupSplitAny(prefix, suffix);
  }

  /** Records may be added or changed freely as long as owned slots stay on their owner's chain. */
  lemma {:induction false} KeepChained(vals: seq<Info>, vals': seq<Info>, w: Owners)
    requires Chained(vals, w) && |vals| <= |vals'|
    requires forall s :: 1 <= s < |vals'| ==> if s < |vals| then vals'[s].owner == vals[s].owner else vals'[s].owner == 0
    ensures Chained(vals', w)
  {
    forall s | 1 <= s < |vals'| && vals'[s].owner != 0
      ensures Owned(w, vals'[s].owner, s)
    {
      assert Owned(w, vals[s].owner, s);
    }
  }
}
