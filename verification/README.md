# Verified models of ay's indexes, caches and evaluators

`ay` generates build graphs. Underneath it sit hand-written indexes, caches,
interners and small evaluators, each of which has to agree with a simple
definition that it speeds up. This project models them in Dafny and proves that
they do. `dafny verify dfyconfig.toml` checks everything.

Code that updates state is a class or a method with loops, proved against a
specification on values; the theorems are lemmas about those specifications.

| files | component |
|---|---|
| `Prelude` | optional results, sets of sequence elements, powers of two, build and source files, the order of strings |
| `SplitKeys`, `RegistryIndex`, `RegistryStore`, `CodegenRegistry` | split lookup through tail filter, generations and memo; owner chains; the dense map below |
| `PendingEmits` | deferred emissions as a state machine over nested and repeated uses |
| `DartsTrie`, `Darts`, `ExtMatcher` | double-array trie: construction, placement, queries |
| `EpochSets`, `BucketCache`, `BucketHash`, `BucketInterning`, `BumpAllocator`, `BucketStore`, `DenseIndex` | closure buckets: splicing, interning, hashing, storage |
| `ConfConditions`, `ConfExpressions`, `ConfChains`, `ConfBranches`, `ConfSlice`, `ConfRecalc`, `ConfVariants`, `ConfBind` | configuration evaluator |
| `ExportReplay`, `ReplayOrder`, `CommandScopes`, `ScopeBinding`, `UnfairScope` | export log, its replay, and the binding of commands to scopes |
| `ObjectPath`, `CdcChunks` | object-path mangling and content-defined chunking |

What is taken as given: string and path interning are bijections, so ids and
texts are interchangeable; hash functions are arbitrary functions (filters may
give false positives, interning may throw); the vector blocks of the bucket hash
compute the plain fold of their block; vectors grow with zeros and maps are maps;
expanding a condition's literal reads the variables it mentions and no others;
a round of substitution reads what a text mentions and leaves only what those
variables' texts mention.
Thrown exceptions are results (`None`, `Failed`, `DuplicateProducer`). Integers
are unbounded except where a width matters: the 16-bit and 32-bit epochs, the
32-bit generations, the 32-bit ids inside a memo key and the 64-bit rolling hash
wrap as they do in the program.

## What turned out not to hold, and when it does

- Size bounds of content-defined chunks: they hold for every input exactly when
  the average is at least 8 (`BoundsHoldIff`); below that the minimum exceeds the
  maximum. The last chunk can have the maximum size too, exactly when the bytes
  before it end at a cut and no hash cuts its own (`LastIsLongestIff`); a file of
  64 KiB zero bytes at the default average does (`ZeroFileIsOneChunk`).
- Object paths can collide when a target has a directory called `__`. The decoder
  recovers a target exactly when the target is not `Ambiguous` (`RoundTrip`), and
  a target shares its path with another one exactly when it has a `Rival` reading
  (`CollidesIff`); `AmbiguousTargetsCollide` shows two targets with one path.
- A command does not always end with the smallest tick: `claim` ignores an offer
  from the scope the command was used in, even when that offer has a smaller tick
  than the use. It holds the smallest tick exactly when its first offer is `Fair`
  (`SmallestTickIffFair`). Every offer is fair when a scope's uses come before its
  publish in the visit that publishes it (`UsesFirstIsSmallest`). They need not:
  a script module's deferred emission puts its own module's frame back on top
  wherever it fires (emit_script_module.go:52-60), so a published scope can be
  used in a later visit; `UnfairRun` records, replays and binds such a log.
- Registering an output under an unclean path can make a lookup differ from an
  uncached one (`StaleLookup`, for every cleaner and every unclean join). The two
  differ exactly when the remembered slot is `Outdated` (`OutdatedIff`,
  `LookupSplitAny`).
- A condition that is a bare literal such as `"${X}"` reads X, which the slice
  does not see (`LiteralBreaksSlice`). The slice keeps the meaning when no such
  literal of a used statement mentions a variable that the slice leaves behind
  (`SliceMeansTheSame`).
- `deferPublication` is not restored by a throw that leaves a section which lowers
  it without a deferred call (emit_fetch.go:34-38, emit_foreign_tools.go:356-358);
  it balances exactly when no throw does (`DeferPublicationBalances`); `ThrowLeaks`
  is a two-step run that leaves it raised.
- A directory's source inputs need not equal a scan of the whole registry: a slot
  noted on another platform is missed (`OtherPlatformMisses`). Both list the same
  inputs exactly when every matching slot's input also stands at a matching slot
  noted on the platform asked for (`SameInputsIff`), and are the same list exactly
  when the first such slots come in the same order too (`SameListIff`). They are
  the same list after every run that notes the directory on that platform only
  (`InputsAfterRun`).
- Self-peers come first exactly when the relation has no cycle (`OrderIsTopological`).

## Model

| member | source | states |
|---|---|---|
| `SplitKeys.SplitKeyOfJoin` | codegen_registry.go:287-315 | however a path is cut into prefix and suffix, both halves give the tail hash, and the slash depth, of the joined path |
| `CodegenRegistries.HalvesSelect` | codegen_registry.go:305-323 | so the halves of a lookup select the generation bucket and the filter bit of the joined path |
| `RegistryIndex.ChangedKeepsSplit` | codegen_registry.go:336-348 | registering or re-registering any path keeps the filter free of false negatives and every memo entry right |
| `RegistryIndex.RejectedIsAbsent` | codegen_registry.go:683-696 | a path rejected by an untouched bucket or by the tail filter is not registered |
| `RegistryIndex.CurrentGeneration` | codegen_registry.go:683-696 | before wrap-around, the compared 32-bit counters are the true numbers of registrations that could matter |
| `RegistryIndex.RecordKeepsSplit` | codegen_registry.go:712-752 | recording what a lookup just found keeps every memo entry right, positive ones for ever, negative ones for their generation |
| `RegistryIndex.UncachedIsDirect` | codegen_registry.go:712-752 | with outputs under clean paths, the two-step uncached lookup is one lookup of the (cleaned) joined path |
| `RegistryIndex.OutdatedIff` | codegen_registry.go:698-752 | a remembered slot of a consulted path differs from an uncached lookup exactly when the other of the two paths has become the better one |
| `CodegenRegistries.CodegenRegistry.LookupSplitAny` | codegen_registry.go:683-752 | in every reachable registry, before a counter wraps, the answer is what was remembered or else what an uncached lookup gives; the two differ exactly when the remembered slot is outdated, and for clean outputs it is a direct lookup of the joined path; a slot returned is always one of a consulted path, also after wrap-around |
| `CodegenRegistries.CodegenRegistry.Recall` | codegen_registry.go:698-710 | the memo answers only with a consulted path, or with absence that is still true |
| `CodegenRegistries.CodegenRegistry.Memoise` | codegen_registry.go:712-752 | an uncached answer is remembered and keeps every memo entry right |
| `CodegenRegistries.StaleLookup` | codegen_registry.go:683-752 | for every cleaner and unclean join: placeholder, lookup, registration under the clean path, and then a lookup that differs from an uncached one |
| `CodegenRegistries.CodegenRegistry.Filter` | codegen_registry.go:683-696 | the filter says no only for unregistered paths, and otherwise gives the generation that decides about negative memo entries |
| `CodegenRegistries.CodegenRegistry.SlowLookup` | codegen_registry.go:712-752 | the uncached lookup: raw join, then the cleaned join where it is better |
| `CodegenRegistries.CodegenRegistry.PrefixDepth` | codegen_registry.go:325-334 | the direct-mapped depth cache always returns the true depth |
| `CodegenRegistries.CodegenRegistry.Register` | codegen_registry.go:368-399 | the four outcomes of registration, each with the whole new table, the number of registrations and the owner chains after it, keeping all index invariants |
| `CodegenRegistries.CodegenRegistry.TakeOver` | codegen_registry.go:368-399 | a placeholder taken over keeps its slot, gets the new record and is appended to the chain of the new owner on its platform, every other chain unchanged |
| `CodegenRegistries.CodegenRegistry.Placeholder` | codegen_registry.go:434-485 | inserting a placeholder adds one slot and one registration at most, touches neither memo nor chains and keeps all index invariants |
| `CodegenRegistries.CodegenRegistry.SetModuleOutput` | project_modules.go:3-31 | the first module to type a path keeps it; owner, reference and type of the claimed slot, the registered reference, the chain it is put on and the number of registrations; memo and every other record unchanged |
| `CodegenRegistries.FirstModuleKeeps` | project_modules.go:3-31 | a path without owner or type can be claimed; after that, over any later claims by other modules and untyped ones by the module itself, owner and type stay and the reference is the module's own last one |
| `CodegenRegistries.CodegenRegistry.NoteOwner` | codegen_registry.go:401-423 | appending to an owner's chain is the specification step `Noted` |
| `RegistryIndex.NotedKeepsChained` | codegen_registry.go:401-423 | after any registration or change of owner, chains stay acyclic and disjoint and reach every owned slot |
| `RegistryIndex.ScanLists` | codegen_registry.go:790-815 | a full scan lists each primary input of the owner that ends in the suffix exactly once |
| `CodegenRegistries.CodegenRegistry.ModuleSourceInputs` | codegen_registry.go:790-815 | following the chain of a directory on a platform gives what scanning the slots noted on it would give; it lists what scanning every slot would list, or is the same list, exactly when the inputs of all matching slots, or also their order, are found on the chain |
| `RegistryIndex.OnePlatformScans` | gen.go:625-635 | with one platform per directory the chain misses no slot |
| `RegistryIndex.ScanByFirstSlot` | codegen_registry.go:790-815 | a scan lists exactly the inputs that stand at a matching slot, in the order of their first such slots |
| `RegistryIndex.SameInputsIff` | codegen_registry.go:790-815 | the chain and the full scan list the same inputs exactly when the input of every matching slot also stands at a matching slot on the chain |
| `RegistryIndex.SameListIff` | codegen_registry.go:790-815 | they are the same list exactly when, besides, the first slots on the chain are in the order of the first slots of all |
| `CodegenRegistries.InputsAfterRun` | codegen_registry.go:790-815 | over every run of registrations, insertions, claims and lookups that notes a directory on one platform only, its source inputs are those of the full scan |
| `CodegenRegistries.OtherPlatformMisses` | codegen_registry.go:790-815 | for every record with a matching input: registered on one platform it is listed for that platform and not for another, though the full scan lists it |
| `CodegenRegistries.CodegenRegistry.ChainSlots` | codegen_registry.go:790-815 | the chain yields exactly the owner's slots ever noted, sorted and without repeats |
| `PendingEmits.RunKeepsInv` | codegen_registry.go:203-230 | every reachable state of every run of creations, uses, pins and returns satisfies the protocol invariant |
| `PendingEmits.EachEmissionRunsOnce` | codegen_registry.go:203-230 | over any nesting and repetition of uses, no emission body starts twice |
| `PendingEmits.FirstUseEmits` | codegen_registry.go:350-366 | in every run the first use of a file, or direct firing, of an emission starts it on top of the running calls; nothing else starts one, and a used file is detached |
| `PendingEmits.AttachedRuns` | codegen_registry.go:350-366 | an emission attached to a file has started once that file is used, whatever other steps come in between |
| `PendingEmits.RunsAsCreated` | emit_context.go:675-691 | until it fires and while it runs an emission holds the frame and the deferral it was created under |
| `PendingEmits.DeferredRunsDeferred` | codegen_registry.go:203-230 | publication is deferred all the time an emission runs that was created while it was |
| `PendingEmits.FramePendingCounts` | emit_context.go:675-691 | a frame's counter is its unfired plus running emissions plus its pins, in every reachable state |
| `PendingEmits.PinsCount` | emit_pch.go:28-28 | the pins on a frame are the pin steps taken |
| `PendingEmits.ReusedFrameIsFree` | gen.go:3117-3135 | a frame whose counter is zero is referred to by no unfired and no running emission |
| `PendingEmits.DeferPublicationBalances` | codegen_registry.go:215-219 | when the call stack is back where it was, so is the publication counter, exactly if no throw left a section that lowers it without a deferred call |
| `PendingEmits.ThrowLeaks` | emit_fetch.go:34-38 | raise without a deferred call, then throw: the stack is empty again and the counter stays at one |
| `PendingEmits.ReentryIsIgnored` | codegen_registry.go:203-206 | re-entering an emission from its own body, or through a file that shares it, does nothing |
| `PendingEmits.EndIsAlwaysEnabled` | codegen_registry.go:215-223 | no return and no throw underflows a counter |
| `PendingEmits.EveryRunCanFinish` | codegen_registry.go:215-223 | from wherever a run stands, letting the open calls return empties the stack, starts no emission and leaves nothing deferred beyond earlier leaks |
| `PendingEmits.QuietFrame` | emit_pch.go:28-28 | with nothing running and all fired, only the pins are left on a frame's counter |
| `DartsTrie.PathsAreKeyPrefixes` | darts.go:21-54 | the paths of the finished trie are exactly the prefixes of the keys |
| `DartsTrie.BuildTrie` | darts.go:21-54 | the linked-edge trie holds exactly the prefixes of the keys and the last index of each |
| `Darts.DoubleArray.constructor` | darts.go:21-97 | for every key list the finished double array accepts exactly the prefixes of the keys and knows each key's last index |
| `Darts.DoubleArray.FindBase` | darts.go:99-133 | the first-fit search ends, at the first base from the hint whose cells are all free |
| `Darts.ChildPlaced` | darts.go:64-97 | placing a child on a free cell keeps the double array faithful to the placed part of the trie |
| `Darts.FinishedRepresents` | darts.go:64-97 | once every node is placed, walking the double array is walking the trie |
| `Darts.DoubleArray.LongestMatch` | darts.go:166-189 | over any parts: the last index of the longest non-empty key that is a prefix of their concatenation, or not found |
| `Darts.DoubleArray.LongestSuffixMatch` | darts.go:143-164 | the same for the reversed string, without reversing it |
| `Darts.DoubleArray.WalkKeys` | darts.go:191-207 | exactly the specified visits, in order |
| `Darts.VisitsAreTrue` | darts.go:191-207 | every visit is a non-empty key that is a prefix, and lengths increase |
| `Darts.VisitsAreAll` | darts.go:191-207 | every non-empty key that is a prefix is visited |
| `ExtMatchers.ExtMatcher.Match` | ext_matcher.go:25-35 | the value of the longest non-empty extension that ends the path, the last entry on ties; none exactly when none matches |
| `ExtMatchers.LongestIsBestEntry` | ext_matcher.go:13-35 | longest prefix among reversed keys is longest suffix among the entries, both ways |
| `EpochSets.EpochSet.Reset` | de_duper.go:48-62 | no id is a member after a reset, also when the 16-bit epoch wraps |
| `EpochSets.EpochSet.Add` | de_duper.go:64-78 | an id is reported new exactly if not added since the last reset |
| `EpochSets.EpochSet.AddStable` | de_duper.go:80-90 | the same without growing |
| `EpochSets.EpochSet.Has` | de_duper.go:97-99 | membership since the last reset |
| `EpochSets.EpochSet.DedupInto` | de_duper.go:125-165 | appends the first occurrences over all lists |
| `EpochSets.EpochSet.DedupInPlace` | de_duper.go:111-123 | compacts an array over its own storage to its first occurrences |
| `EpochSets.FirstOccurrencesMembers` | de_duper.go:125-165 | first occurrences have the same elements, none twice |
| `EpochSets.FirstOccurrencesPositions` | de_duper.go:125-165 | and they stand in the order of their first positions |
| `BucketCache.Cache.ResetScratch` | bucket_cache.go:207-219 | after a reset nothing is spliced and no bucket counts as visited, through 32-bit wrap-around |
| `BucketCache.Cache.ClearBucketEpochs` | bucket_cache.go:197-205 | both tables together reach every bucket, so every stamp is cleared and no element changes |
| `BucketCache.Cache.SpliceOne` | bucket_cache.go:221-233 | one more element spliced, with the seen set and all scratch buckets following the specification |
| `BucketCache.Cache.SpliceBucketSlow` | bucket_cache.go:236-255 | the checked loop splices the whole bucket |
| `BucketCache.Cache.SpliceBucket` | bucket_cache.go:257-281 | skipping a visited bucket and copying unchecked into an empty scratch bucket both do what the checked loop does |
| `BucketCache.KeptIsDedup` | bucket_cache.go:221-281 | each scratch bucket is the first-occurrence de-duplication of its share of everything spliced, minus self |
| `BucketCache.EmptyBucketUnseen` | bucket_cache.go:264-276 | an empty scratch bucket that is not self's has no seen element: the reason the fast path needs no check |
| `BucketCache.ScratchIsWellFormed` | bucket_cache.go:283-297 | every non-empty scratch bucket is duplicate-free, free of self and of one bucket index |
| `BucketCache.BucketsSpread` | bucket_cache.go:12-20 | build files share bucket 0; two source files share a bucket exactly when their numbers are equal modulo 8 |
| `BucketCache.Cache.FillScratch` | bucket_cache.go:299-309 | the unchecked fill splices a list that is already free of repeats and of self |
| `BucketCache.Cache.InternBucket` | bucket_cache.go:134-179 | returns the pair's slot if it has one, throws exactly on a double collision, else stores a new slot; all earlier slots stay |
| `BucketCache.WithKeyOk` | bucket_cache.go:134-169 | storing a new pair in the primary or the overflow table keeps every pair findable at its own slot |
| `BucketCache.RunIsCanonical` | bucket_cache.go:134-169 | over any run without a throw, a pair found once is found at the same slot for ever, and every pair of the run has one |
| `BucketCache.SlotsAreDistinct` | bucket_cache.go:134-169 | two pairs share a slot exactly when they are equal |
| `BucketInterning.SameBucketForever` | bucket_cache.go:134-169 | with the bucket hash, two orders of the same elements are interned to the same slot, whatever is interned in between |
| `BucketInterning.PairHashPermutes` | bucket_hash.go:3-17 | the hash pair of a bucket does not depend on the order of its elements |
| `BucketInterning.PairTellsApart` | bucket_hash.go:3-17 | the same for the pairs that buckets are interned by |
| `BucketCache.Cache.StoreScratch` | bucket_cache.go:283-297 | one stored bucket per non-empty scratch bucket, in bucket order, with its hash; throws only on a collision |
| `BucketCache.StoredClosureIsExact` | closure.go:34-40 | barring hash collisions, a stored closure lists exactly what was spliced, apart from self |
| `BucketCache.ClosureListsOnce` | closure.go:34-54 | and it lists self and everything spliced, each exactly once |
| `BucketCache.ClosureLen` | closure.go:20-32 | the length counts what the closure lists |
| `BucketHash.Platform` | bucket_hash_amd64.go:22-58 | vector block, two lanes and odd element together equal the plain fold, for every length and vector unit |
| `BucketHash.WordLaws` | bucket_hash_other.go:5-14 | wrapping addition and exclusive or on 64-bit words are commutative monoids, which is all the folds rely on |
| `BucketHash.PlainIsPermutationInvariant` | bucket_hash_other.go:5-14 | the plain fold does not depend on the order of the elements |
| `BucketHash.HashIsPermutationInvariant` | bucket_hash.go:3-17 | equal multisets hash alike, and neither hash is ever zero |
| `BucketHash.WordsCancel` | bucket_hash_other.go:5-14 | adding or xoring the same word on both sides keeps different words different |
| `BucketHash.OneChangeShows` | bucket_hash.go:3-17 | if the mixer keeps the two words apart, changing one element changes both hashes, unless the zero rule makes a one of a zero in both |
| `BucketHash.CountShows` | bucket_hash.go:3-17 | buckets with the same fold and different mixed counts differ in both hashes |
| `BumpAllocator.IndexedBump.Store` | bump_allocator.go:96-115 | a stored block gets a new span and disturbs no earlier one |
| `BumpAllocator.IndexedBump.Alloc` | bump_allocator.go:25-55 | there is room for the request afterwards, in the current chunk or in one new chunk of the doubling size, capped by the limit unless the request is larger; all issued spans still read what was stored |
| `BumpAllocator.IndexedBump.Read` | bump_allocator.go:117-121 | every span ever issued reads back what was stored in it |
| `BumpAllocator.SpansAreApart` | bump_allocator.go:96-121 | no two issued spans overlap |
| `BucketStore.ReadsBackForever` | bucket_cache.go:134-179 | whatever is interned after a bucket, its pair keeps its span, the span still reads back the bucket first interned for the pair, and the span of no other pair overlaps it |
| `BucketStore.Store.Intern` | bucket_cache.go:134-179 | gives the span of the hash pair, stores a new bucket behind it only for a new pair, keeps all earlier spans, and throws exactly on a double collision |
| `BucketStore.Store.Read` | bucket_cache.go:134-169 | the span of a pair reads back, behind the epoch word, the bucket interned for it |
| `BucketStore.PairsAreApart` | bucket_cache.go:134-179 | different hash pairs have spans that do not overlap |
| `BucketStore.EpochsKeepBacked` | bucket_cache.go:197-205 | changing epoch words leaves every span backing its bucket |
| `DenseIndexes.DenseIndex.Get` | dense_index.go:13-21 | what the pages hold for a key, 0 beyond them |
| `DenseIndexes.DenseIndex.Put` | dense_index.go:23-44 | one key changes, no other; the shared zero page is never written |
| `DenseIndexes.DenseIndex.Each` | dense_index.go:46-58 | lists the keys that hold something in increasing order |
| `DenseIndexes.AllListed` | dense_index.go:46-58 | a key and slot are listed exactly when the index holds that slot for that key |
| `DenseIndexes.DenseMap.Get` | dense_map.go:8-16 | the value put for the key, none exactly for a key never put |
| `DenseIndexes.DenseMap.Put` | dense_map.go:18-31 | a known key keeps its place, a new one goes to the end |
| `DenseIndexes.DenseMap.Values` | dense_map.go:33-39 | the values in order of first insertion |
| `RegistryStore.StoreIsDense` | dense_map.go:8-31 | a dense map keyed by path ids is the slots and records that the registry relies on: slots and paths in bijection |
| `RegistryStore.LookupIsSlot` | dense_map.go:8-16 | looking a path up by its id is looking it up in the slots |
| `RegistryStore.Store.Get` | dense_map.go:8-16 | the record at the path's slot, none exactly for an unknown path |
| `RegistryStore.Store.Put` | dense_map.go:18-31 | a new path gets the next slot, a known one keeps its slot, and every other record stays |
| `ConfChains.ReadFile` | conf.go:171-431 | the reading loop over block headers, closing braces and statements computes the file or rejects it |
| `ConfChains.AcceptedIffNested` | conf.go:216-229 | a file is accepted exactly when its lines are those of some nested file |
| `ConfChains.NestedIsRead` | conf.go:372-420 | reading the lines of a nested file gives its flattening |
| `ConfChains.FileMeans` | conf.go:382-411 | the statements whose flattened branch holds are exactly those active under the nested if/else-if/else meaning, in order |
| `ConfChains.FirstTrueIsActive` | conf.go:382-411 | of an if with its else-ifs and else exactly the first true block is in force |
| `ConfChains.OneAlternative` | conf.go:382-400 | at most one alternative of a chain is ever active |
| `ConfChains.ChainMeans` | conf.go:758-780 | walking a signed chain decides: own condition true, every earlier alternative false, parent holds |
| `ConfChains.Chains.LinkChains` | conf.go:725-756 | every chain lies in its own share of one block, and the shares use the block up exactly |
| `ConfChains.Chains.Measure` | conf.go:725-741 | the scratch lengths are the chain lengths and branch 0 keeps length 0 from file to file |
| `ConfChains.Chains.HoldsAt` | conf.go:768-780 | the loop over the stored chain returns whether the branch holds |
| `ConfBranches.BranchHolds` | conf.go:758-780 | evaluating the parsed conditions of a branch's chain in order decides whether the branch holds in the nested file |
| `ConfConditions.EvalAgrees` | macros.go:32-75 | a condition depends only on its identifiers, on the emptiness alone of those it does not compare, and on the expansion of literals used as truth values |
| `ConfConditions.ChainAgrees` | conf.go:762-780 | the same for a whole chain, thrown bare integers included |
| `ConfExpressions.EvalMeans` | macros.go:32-75 | evaluating a list of nodes gives the meaning of the expression they represent: truth tables, comparison of texts as texts and of anything else as numbers; it throws nothing when no bare integer stands for a truth value |
| `ConfExpressions.ConditionMeans` | macros.go:28-30 | the last node of a condition is its root, and the empty condition is true |
| `ConfExpressions.ShortCircuits` | macros.go:43-46 | a right operand that the left one decides about is not evaluated, even if it would throw |
| `ConfExpressions.LessMeans` | macros.go:235-241 | the order of texts is that of the first difference |
| `ConfConditions.AppendsSpellOut` | conf.go:858-863 | appending non-empty texts spells them out in order after whatever the variable had, separated by single spaces |
| `ConfConditions.DefineOnce` | conf.go:856-867 | a definition binds an unbound variable once and leaves a bound one alone; an assignment always binds |
| `ConfConditions.ExpandedMeans` | macro_string.go:685-707 | expanding a text substitutes until that changes nothing or leaves no `$`, and throws exactly if 128 rounds are not enough |
| `ConfConditions.ExpandedAgrees` | macro_string.go:685-707 | environments that agree on variables whose texts mention only each other expand those texts alike |
| `ConfConditions.ExclusionIsTotal` | conf.go:868-888 | an unconditional exclusion leaves no occurrence anywhere, a conditional one changes nothing |
| `ConfConditions.Without` | conf.go:870-888 | excluding a text repeats until the text occurs no more, and changes nothing if it never occurred |
| `ConfSlice.Slice` | conf.go:2108-2129 | the closure loop ends, at the least set closed under what used statements want, with exactly its statements used |
| `ConfSlice.SliceMeansTheSame` | conf.go:2092-2149 | whenever the whole program runs, the slice runs and gives every needed variable, and every variable no statement assigns, the same binding |
| `ConfSlice.PassStaysInside` | conf.go:2139-2149 | the slice binds no variable that is not needed |
| `ConfSlice.LoadSelected` | conf.go:2092-2149 | slice, unbind, two passes: the needed variables get what the whole program would give from the same start, and their texts expand to what they would expand to there |
| `ConfSlice.RefsAreNeeded` | conf.go:2118-2128 | what the text of a needed variable's statement refers to is needed |
| `ConfSlice.SliceExpandsTheSame` | conf.go:2173-2179 | the text of a needed variable mentions needed variables only, and expands in what the slice binds as in what the whole program binds |
| `ConfSlice.LiteralBreaksSlice` | conf.go:821-833 | a program whose condition is the literal `"${X}"` on which slice and whole program differ |
| `ConfRecalc.CollectReads` | conf.go:1381-1405 | every identifier read by the target's conditions is recorded, exactly where it is compared; no memo exactly if some literal has a `$` |
| `ConfRecalc.InputMeans` | conf.go:2288-2308 | equal memo inputs mean equal bindings, or equal emptiness for truth-only reads |
| `ConfRecalc.FreshByInputs` | conf.go:2220-2273 | the recomputed value is a function of target, original and inputs, even though conditions read the target's own value in progress |
| `ConfRecalc.FreshEntryOk` | conf.go:2327-2333 | an entry recorded in one environment is right in every environment with the same inputs |
| `ConfRecalc.Conf.RecalcKey` | conf.go:2275-2315 | the inputs of the reads, in order |
| `ConfRecalc.Conf.RecalcHit` | conf.go:2317-2325 | a hit is what a fresh recomputation would give in every environment with these inputs, for any key hash |
| `ConfRecalc.Conf.RecalcInto` | conf.go:2220-2273 | over every sequence of calls, hit or miss, the resulting environment is that of recomputing without a memo |
| `ConfRecalc.BaseMeans` | conf.go:2243-2258 | before its statements a target has the inherited text, then the user's; the inherited binding alone if the user set nothing, the user's alone if nothing is inherited |
| `ConfRecalc.FreshMeans` | conf.go:2243-2264 | a recomputation leaves the base with exactly those statements applied in order whose conditions hold by then, and changes nothing else |
| `ConfRecalc.RecalcSpellsOut` | conf.go:2243-2264 | a target that is only appended to gets inherited text, user text and the appended texts, in order |
| `ConfRecalc.FreshAllSnoc` | conf.go:2220-2223 | the targets of a variable are recomputed one after the other, each in what the ones before it left |
| `ConfVariants.OrderIsTopological` | conf.go:1708-1744 | every variant is numbered once, numbers are consecutive, and self-peers come first exactly when there is no cycle |
| `ConfVariants.DeclarationOrderIsIrrelevant` | conf.go:1708-1716 | permuting the declared variants changes no number |
| `ConfVariants.AloneIsAlphabetical` | conf.go:1708-1744 | variants that are no self-peers of each other are numbered alphabetically |
| `ConfVariants.PeerHasSmallerNumber` | conf.go:1722-1739 | without cycles a self-peer's number is smaller than its user's |
| `ConfVariants.Numbering.VisitTag` | conf.go:1722-1739 | the recursive visit ends on every relation, cyclic ones included, and computes the specified order |
| `ConfVariants.OrderVariants` | conf.go:1708-1744 | each module's number is its variant's position in the specified order |
| `ConfBind.Bind` | conf.go:3032-3126 | succeeds exactly on the calls that can be bound; then a keyword that does not stand in the call holds its default, a given flag its text, a scalar the argument after its name, an array the arguments that follow its name, a positional the argument in its place and the vararg the rest; a failure names the first fault |
| `ConfBind.ResultHolds` | conf.go:3063-3120 | what each keyword of an accepted call holds, in terms of the call alone |
| `ConfBind.ValueMeans` | conf.go:3069-3093 | an argument is a keyword's value exactly when it follows an array keyword with plain arguments only in between, or stands right after a scalar one |
| `ConfBind.ResultPositional` | conf.go:3096-3102 | a positional parameter holds the one plain argument with that many free ones before it |
| `ConfBind.ResultVararg` | conf.go:3104-3112 | the vararg holds exactly the free arguments beyond the positional ones |
| `ConfBind.PickedAt` | conf.go:3032-3126 | every argument is held at a place of its own by its role |
| `ConfBind.PickedFrom` | conf.go:3032-3126 | every value held is an argument of that role, in order |
| `ConfBind.PlainHasSlot` | conf.go:3032-3126 | in an accepted call every plain argument belongs to a slot, never to a flag |
| `ConfBind.PositionalHoldsOne` | conf.go:3096-3102 | a positional parameter that is reached holds exactly one value |
| `ConfBind.ScalarHoldsOne` | conf.go:3073-3080 | a scalar keyword holds one value if given, none otherwise |
| `ConfBind.ArrayEnd` | conf.go:3009-3015 | a run ends at the next keyword or at the end |
| `ConfBind.FaultRefuses` | conf.go:3053-3110 | each reported fault rules out any binding |
| `ExportReplay.GenCtx.Enter` | command_scope.go:79-90 | entering keeps the recording invariant |
| `ExportReplay.GenCtx.Leave` | command_scope.go:92-100 | leaving closes the innermost visit and records the module's first non-empty visit |
| `ExportReplay.RecordedIsNested` | command_scope.go:79-105 | a log with every visit left is well nested |
| `ExportReplay.GenCtx.ReplayExport` | command_scope.go:111-154 | the replay ends and replays every entry exactly once; a visit is followed at once by its first inner entry, an empty one by its module's first visit, unless already met; the roots come first, in order, each with exactly what it reaches; ticks 1 to n are handed out in that order |
| `ExportReplay.PreorderGoesOn` | command_scope.go:127-142 | whatever a visit leads to, its first inner entry or the jump back to the first visit of its module, was met before or is the very next entry |
| `ExportReplay.RootsReach` | command_scope.go:144-148 | a replay of roots meets exactly the least set that has their entries and, with an entry, all inside it and what it jumps back to |
| `ExportReplay.RootsComeFirst` | command_scope.go:144-153 | for every number of roots, the replay begins with exactly what they reach and goes on with the next root's first entry, unless that was reached |
| `ExportReplay.PreorderConcat` | command_scope.go:111-154 | an agenda can be replayed in two halves |
| `ExportReplay.PreorderIsFresh` | command_scope.go:111-154 | a pre-order meets each entry at most once, jump-backs included |
| `ExportReplay.AllReplayed` | command_scope.go:111-154 | once the top level is swept nothing is left unreplayed |
| `ExportReplay.TallyTicks` | command_scope.go:127-134 | the k-th numbered entry holds tick k + 1: no gaps, no repeats |
| `ExportReplay.PublishOrderIsTickOrder` | command_scope.go:127-134 | the publish order is the order of the published ticks |
| `ReplayOrder.SiblingsInOrder` | command_scope.go:111-154 | roots and jump-backs notwithstanding, a replay meets the entries directly in one visit in log order |
| `ReplayOrder.SiblingTicks` | command_scope.go:111-154 | of two uses or publishes of one visit, the earlier one gets the smaller tick |
| `CommandScopes.Binder.BindCommandScopes` | command_scope.go:209-253 | a file is visited under a scope exactly when that scope is the first whose source headers reach it; each command is what the build files among its visited outputs make it |
| `CommandScopes.RecordedIsFirst` | command_scope.go:209-253 | the record of first visits is the declarative first-reaching scope, both ways |
| `CommandScopes.FirstHasSmallestTick` | command_scope.go:209-253 | with ticks in publish order, the first scope to reach a file is the one with the smallest tick, both ways |
| `ScopeBinding.BindCommandScopes` | command_scope.go:209-253 | replay and traversal together: each file is offered to the scope with the smallest tick among those that reach it, each command has the smallest tick exactly when its first offer is fair, and all do when uses come before publishes |
| `ScopeBinding.ReplayedTicksIncrease` | command_scope.go:111-154 | the replayed log delivers the tick order that the traversal relies on |
| `ScopeBinding.UsesFirstIsSmallest` | gen.go:1554-1556 | if every scope's uses precede its publish in the visit that publishes it, every command ends with the smallest tick |
| `UnfairScope.UnfairRun` | emit_script_module.go:52-60 | a recorded and replayed log in which a published scope is used in a later visit: two modules include source files that include build files of one command, which ends in the later scope although its own has the smaller tick |
| `CommandScopes.SmallestTickIffFair` | command_scope.go:169-179 | a command holds the smallest tick among its use and its offers exactly when its first offer is fair |
| `CommandScopes.FirstOfferDecides` | command_scope.go:169-179 | the first fair offer decides and every later one is too late |
| `CommandScopes.UnfairOfferIsLost` | command_scope.go:169-179 | after an unfair first offer the command keeps a larger tick for good |
| `CommandScopes.UnfairLeavesIff` | command_scope.go:169-179 | after an unfair first offer the command leaves its scope exactly when another scope's offer is not later than the use |
| `ObjectPath.RoundTrip` | emit_cc.go:517-572 | the decoder recovers the target exactly when the target is not ambiguous |
| `ObjectPath.MangledIsInjective` | emit_cc.go:517-572 | for one module, targets without ambiguity, in particular without `__`, get different object paths |
| `ObjectPath.CollidesIff` | emit_cc.go:517-572 | a target shares its object path with another one exactly when some other number of leading `__` reads as steps up |
| `ObjectPath.RivalIsClean` | emit_cc.go:517-572 | the other target is clean if the module and the target are |
| `ObjectPath.ComposedIsInjective` | emit_cc.go:517-572 | the same for the strings themselves |
| `ObjectPath.ComposedIsMangled` | emit_cc.go:517-572 | on clean paths the string loops compute the component-wise mangling |
| `ObjectPath.SplitOfJoin` | emit_cc.go:517-572 | splitting a joined clean path gives its components back |
| `ObjectPath.AmbiguousTargetsCollide` | emit_cc.go:517-572 | two targets, one with a `__` directory, with the same object path |
| `ObjectPath.ComposeSrcDirOutputRel` | emit_cc.go:517-572 | the loops over shrinking strings compute `Composed` |
| `CdcChunks.Split` | cas_analyze.go:175-207 | the loop yields the chunks of the specification |
| `CdcChunks.ChunksIsChunking` | cas_analyze.go:175-207 | the chunks concatenate to the data and every cut is where the rule wants one |
| `CdcChunks.ChunkingIsUnique` | cas_analyze.go:175-207 | any cutting with those two properties is the one computed |
| `CdcChunks.ChunkSizes` | cas_analyze.go:176-199 | sizes of inner, cut and uncut chunks |
| `CdcChunks.BoundsHoldIff` | cas_analyze.go:176-199 | the minimum and maximum bound every inner chunk of every input exactly when the average is at least 8 |
| `CdcChunks.LastIsLongestIff` | cas_analyze.go:196-206 | the last chunk has the maximum size exactly when the data before it ends at a cut and no hash cuts it earlier |
| `CdcChunks.RunOfOneByte` | cas_analyze.go:186-206 | a file of the maximum size made of one byte is one chunk exactly when that byte's hash is no multiple of the average |
| `CdcChunks.RunIsCutShort` | cas_analyze.go:176-199 | a longer run of a byte whose hash is a multiple of the average is cut at the minimum, a quarter of the average but at least 64 bytes |
| `CdcChunks.DefaultSizes` | cas_analyze.go:176-199 | at the default average of 8 KiB every chunk but the last has 2 to 64 KiB |
| `CdcChunks.ZeroFileIsOneChunk` | cas_analyze.go:15-32 | with the program's own table and the default average, 64 KiB of zero bytes are one chunk of the maximum size |
| `CdcChunks.GearEntries` | cas_analyze.go:15-32 | the first entries of the program's table |
| `CdcChunks.Resynchronises` | cas_analyze.go:186-206 | from any cut on, the chunks are those of the remaining bytes alone |
| `CdcChunks.SharedEnd` | cas_analyze.go:186-206 | two inputs with a common end that starts at a cut in both are chunked alike from there on |
| `CdcChunks.HashWindow` | cas_analyze.go:188-190 | only the last 64 bytes matter to the 64-bit rolling hash |
| `CdcChunks.CutIsLocal` | cas_analyze.go:188-199 | so away from the maximum size, a cut is decided by the last 64 bytes |

## Left out

- LookupSplitAny: after 2^32 registrations have wrapped a generation it only says that a returned slot is one of a consulted path, because a stale negative entry can then look current.
- SliceMeansTheSame: one direction only; a literal may mention a variable that is left behind and still expand alike, and what a text expands to is not part of this model.
- SliceExpandsTheSame: assumes that joining texts by a space, or excluding a text, spells no reference that was not there before; what counts as a reference is text processing.
- RecalcInto: takes the platform environment as fixed after loading and variables with pending appends as settled, and does not record assignments.
- StoreScratch: does not intern the resulting bucket list, which repeats bucket interning one level up.
- StoredClosureIsExact: assumes that no two different buckets involved share both hashes; the program relies on the same.
- ClosureListsOnce: makes the same assumption.
- Platform: the assembly blocks are taken at their contract, the plain fold of the block.
- BindCommandScopes: the include graph is the one the visits observe; how a generated file's children are computed when it is visited is not part of this model.
- OrderVariants: takes the variants without their owner suffix.
- ReadFile: starts from classified lines; recognising headers, skipped blocks, continuation lines and the bodies of macros is text processing.
- `splitMix64` as a concrete mixing function, `IntMap` probing and the bit operations of `BitSet`: used through their contracts only.
- The check that a bump allocator in strict mode is committed before it is asked again, and debug counters.
- `BumpAllocator.one` and `list`, which are `alloc` and `commit` in sequence.
- The rebinding of an already rendered command when its scope changes.
- Everything that assembles command lines and graph nodes, reads files or talks to the outside: it would only add easy members.
