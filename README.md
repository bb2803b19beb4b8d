# iplc-sim in Dafny

A model of the core of `iplc-sim.c`, a cycle-level simulator of a five-stage
in-order pipeline (FETCH, DECODE, ALU, MEM, WRITEBACK) in front of one
set-associative cache with LRU replacement.

The model has two halves, one per half of the simulator.

**The cache.**
- `cache_config.dfy` (module `CacheConfig`) holds:
  - the constants (`MAX_CACHE_SIZE` = 10240, `CACHE_MISS_DELAY` = 10, `MAX_STAGES` = 5);
  - the size check made at initialisation;
  - the rounded `log2` that gives the block offset bits;
  - the split of a 32-bit address into set index and tag.
- `lru_spec.dfy` (module `LruSpec`) is a textbook LRU set over tags alone, least recently used first. It is the reference the simulator's set is proved against.
- `cache_set.dfy` (module `CacheSet`) works on one set as a value:
  - its lines in slot order, each with valid bit, tag and `prev`/`next` links (slot numbers, `NIL` = -1 for `NULL`), plus its head and tail slots;
  - the source's lookup scan and its two pieces of list surgery, transcribed statement by statement;
  - the set invariant, stated against a ghost recency order (valid slots from tail to head);
  - the proofs that every lookup keeps the invariant and behaves exactly as the textbook LRU access.
- `cache.dfy` (module `CacheModel`) is the cache as the source keeps it:
  - a class whose lines sit in one two-dimensional array (row = set, column = slot), with the list heads and tails in two arrays;
  - everything updated in place, one pointer write per statement;
  - the access counters.
  - Its ghost `contents` is the whole cache as textbook LRU tag lists, and `Valid()` ties it to the arrays.

**The pipeline.**
- `pipeline_stages.dfy` (module `Stages`) holds, as values:
  - the instruction kinds and a stage (`Slot`);
  - the shift;
  - the branch outcome and the prediction check;
  - the per-push cycle charge;
  - the counters together with four ghost tallies (pushes, instructions fetched, mispredictions, data misses);
  - the balance the counters keep with what is still in flight.
- `simulator.dfy` (module `Simulator`) is the simulator state as a class: the cache, the five-stage array, the counters. Its methods are:
  - the push;
  - the seven inserters;
  - the trace-line step with its fetch-miss stall loop;
  - the drain of the finalisation;
  - the initialisation, which returns an error for an oversized configuration instead of exiting.

Behaviours of the source that the model keeps as written:
- A data miss sets the charge of a push to `CACHE_MISS_DELAY` (iplc-sim.c:408 and :417), overwriting a misprediction's 2 (:397). The two penalties are not added.
- A `nop` trace line only pushes (iplc-sim.c:519-526) and leaves the fetch stage zeroed at address 0, so the retirement test at :377 never counts it as an instruction.
- The lookup stops at the first invalid slot (iplc-sim.c:271-284). A tag can never be hidden behind an invalid slot, because valid lines always form a prefix of their set (`CacheSet.ScanUnderInv`).
- The branch prediction setting is kept as the unsigned number the source compares with the outcome 0 or 1. Any setting other than 0 or 1 is never correct.

## Model

| member | source | states |
|---|---|---|
| CacheConfig.Configure | iplc-sim.c:137-163 | The configuration is accepted exactly when `assoc * 2^index * (32*blocksize + 33 - index - offsetbits)` is at most 10240 and not negative, equivalently when assoc >= 1 and the size is at most 10240; an accepted configuration keeps its parameters and the rounded offset bits; a refusal carries a size that is negative or above 10240 |
| CacheConfig.SizeSign | iplc-sim.c:151 | the size product has the sign of the associativity, so a negative associativity is refused through its wrapped unsigned size |
| CacheConfig.PositiveLineSize | iplc-sim.c:149-151 | the per-line factor of the size formula is at least 31 for every index up to 30 and every block size |
| CacheConfig.RoundLog2 | iplc-sim.c:149 | the result r is the integer nearest to log2(x): 2^(2r) <= 2x^2 < 2^(2r+2) |
| CacheConfig.RoundLog2OfPow2 | iplc-sim.c:149 | on a power of two the rounded logarithm is exact |
| CacheConfig.AcceptedGeometryFitsWord | iplc-sim.c:151-163 | every accepted configuration has index <= 8, offset bits <= 11 and their sum < 32, so the shifts of the address split are defined and the tag fits an `int` |
| CacheConfig.BlockOffsetBits | iplc-sim.c:149 | the block offset bits are log2 of the block's byte count `4 * blocksize`, rounded to the nearest integer |
| CacheConfig.BlockOffsetBitsOfPow2 | iplc-sim.c:149 | a block of 2^j words has exactly j + 2 offset bits |
| CacheConfig.CacheSize | iplc-sim.c:151 | the size product is non-negative exactly when the associativity is, and with at least one way it is at least 31 bits per set |
| CacheConfig.SizeBounds | iplc-sim.c:151 | with at least one set and a line factor of at least 31, the product has the sign of the associativity and one way gives at least 31 bits per set |
| CacheConfig.SetIndex | iplc-sim.c:262-265 | the set index is below 2^index |
| CacheConfig.Tag | iplc-sim.c:266 | the tag drops the offset and index bits, so it is below 2^(32 - offset bits - index bits) whenever those fit in the word |
| CacheConfig.TagBound | iplc-sim.c:266 | a 32-bit address shifted right by k <= 32 bits is below 2^(32-k) |
| CacheConfig.AddressSplits | iplc-sim.c:262-266 | tag, set index and block offset recombine to the address |
| CacheConfig.SameBlockSameLine | iplc-sim.c:262-266 | two addresses of the same block map to the same set and tag |
| LruSpec.LruAccessInvariant | iplc-sim.c:186-249 | a textbook LRU access keeps the tags distinct and within capacity, leaves the accessed tag most recently used, reports a hit exactly when the tag was held, and evicts nothing but the least recently used tag of a full set |
| LruSpec.OnlyLruEvicted | iplc-sim.c:195-206 | a held tag survives an access to another tag unless the set is full, the access misses and the tag is the least recently used |
| LruSpec.HitMovesToBack | iplc-sim.c:225-249 | a hit moves the tag to the most recently used end and keeps the other tags in order; hitting the most recently used tag changes nothing |
| LruSpec.TwoWayScenario | iplc-sim.c:257-291 | two ways, tags a, b, a, c: miss, miss, hit, miss, and the last miss evicts b |
| LruSpec.DirectMappedAlternation | iplc-sim.c:257-291 | in a one-way set two alternating tags miss every time |
| CacheSet.EmptySet | iplc-sim.c:166-174 | a fresh set has `assoc` lines and every slot number it stores, including head and tail at slot 0, is in range |
| CacheSet.UpdateOnHit | iplc-sim.c:225-249 | the hit surgery keeps every link in range and changes no valid bit and no tag |
| CacheSet.ReplaceOnMiss | iplc-sim.c:190-219 | the miss surgery keeps every link in range |
| CacheSet.Scan | iplc-sim.c:270-285 | the lookup loop stops at the first slot that is invalid or holds the tag, and every slot before it is valid with another tag |
| CacheSet.AccessSet | iplc-sim.c:270-290 | a lookup in a well-formed set leaves it well formed, with every link in range, and with as many lines as before |
| CacheSet.TagsDistinct | iplc-sim.c:270-284 | under the set invariant the valid tags of a set are pairwise distinct |
| CacheSet.TagsOfMembership | iplc-sim.c:270-284 | a tag is in the set's recency list exactly when a valid line carries it |
| CacheSet.HitKeepsInv | iplc-sim.c:225-249 | a hit keeps the set invariant and moves the hit slot to the most recently used end of the order |
| CacheSet.FillKeepsInv | iplc-sim.c:190-219 | filling the first invalid slot keeps valid lines a prefix, makes that slot valid with the tag and head, and changes no other valid bit or tag |
| CacheSet.EvictKeepsInv | iplc-sim.c:190-219 | in a full set only the former tail line is retagged, it stays valid and becomes head, and the invariant holds with it most recently used |
| CacheSet.ScanUnderInv | iplc-sim.c:270-290 | under the invariant the scan finds a valid line with the tag whenever one exists and otherwise stops at the first invalid slot |
| CacheSet.AccessSetKeepsInv | iplc-sim.c:257-291 | every lookup keeps the set invariant |
| CacheSet.HitRefinesLru | iplc-sim.c:225-249 | after a hit the tags in recency order are the textbook list with the hit tag moved to the end |
| CacheSet.FillRefinesLru | iplc-sim.c:190-219 | after a fill the tags in recency order are the old list plus the new tag |
| CacheSet.EvictRefinesLru | iplc-sim.c:190-219 | after an eviction the tags in recency order are the old list without its first tag, plus the new tag |
| CacheSet.AccessSetRefinesLru | iplc-sim.c:257-291 | a lookup reports a hit exactly when the textbook LRU access does and leaves the tags exactly as that access leaves its list |
| CacheSet.AccessSetCorrect | iplc-sim.c:257-291 | a lookup keeps the invariant, hits exactly when the tag is held, and updates the tags as the textbook access |
| CacheSet.HitOnHeadChangesNothing | iplc-sim.c:225-249 | looking up the tag of the head line is a hit that leaves the set, links included, and its recency order unchanged |
| CacheSet.RepeatAccessHits | iplc-sim.c:257-291 | a second access to the same tag always hits |
| CacheSet.FreshSetMisses | iplc-sim.c:166-174 | the first lookup in a fresh set misses and fills slot 0, which becomes head and tail |
| CacheSet.AccessCacheCorrect | iplc-sim.c:257-291 | a lookup in one set of the cache keeps every set's invariant and changes the cache's tag lists only in that set, as the textbook access does |
| CacheModel.Cache.constructor | iplc-sim.c:164-174 | the allocation gives 2^index sets of `assoc` invalid lines with tag 0 and no links, head and tail at slot 0, empty contents and zero counters |
| CacheModel.Cache.FindSlot | iplc-sim.c:270-285 | the slot loop stops where `Scan` says |
| CacheModel.Cache.WritePrev | iplc-sim.c:203 | one `lru_prev` write changes that one link of that one line and no line of another set |
| CacheModel.Cache.WriteNext | iplc-sim.c:214 | one `lru_next` write changes that one link of that one line and no line of another set |
| CacheModel.Cache.WriteTag | iplc-sim.c:210-211 | the line becomes valid with the new tag, its links are kept, and no other line changes |
| CacheModel.Cache.LRUReplaceOnMiss | iplc-sim.c:190-219 | the in-place miss surgery leaves the set as `ReplaceOnMiss` says and every other set untouched |
| CacheModel.Cache.LRUUpdateOnHit | iplc-sim.c:225-249 | the in-place hit surgery leaves the set as `UpdateOnHit` says and every other set untouched |
| CacheModel.Cache.Access | iplc-sim.c:268-290 | one access counts one access and one hit or one miss, reports what `AccessSet` reports, and changes only the accessed set |
| CacheModel.Cache.Relink | iplc-sim.c:274-290 | after the scan the surgery chosen leaves the cache as one `AccessSet` on that set |
| CacheModel.AccessBlock | iplc-sim.c:257-291 | the textbook access of an address's set keeps the tag lists shaped like the cache and leaves the address's block held |
| CacheModel.Cache.TrapAddress | iplc-sim.c:257-291 | `cache_hit + cache_miss == cache_access` is kept; the access adds one to the access count and one to hits or misses; it returns a hit exactly when the block was held; the contents change as the textbook LRU access on the address's set; afterwards the block is held |
| Stages.Advance | iplc-sim.c:429-435 | the shift moves stage k-1 to stage k and leaves FETCH as a NOP at address 0 |
| Stages.FirstBusyAdvanceN | iplc-sim.c:300-306 | after n shifts the first busy stage has moved n stages on, or out of the pipeline |
| Stages.DrainLength | iplc-sim.c:300-306 | after n shifts the pipeline is idle exactly when n is at least 5 minus the first busy stage, so it is idle after at most 5 shifts |
| Stages.IdleNothingInFlight | iplc-sim.c:300-306 | an idle, zeroed pipeline has nothing left to retire |
| Stages.Retiring | iplc-sim.c:377 | a stage retires an instruction exactly when its address is non-zero; an empty stage never does |
| Stages.BranchTaken | iplc-sim.c:386-387 | a branch counts as taken only when FETCH is busy, and always when FETCH is busy at the branch's own address |
| Stages.PredictionCorrect | iplc-sim.c:392 | a correct prediction needs a setting of 0 or 1, and with such a setting it is correct exactly when taken matches setting 1 |
| Stages.PredictionSettings | iplc-sim.c:385-398 | a prediction setting above 1 is never correct; with setting 0 a branch followed by its fall-through or by a bubble is predicted correctly |
| Stages.CycleCharge | iplc-sim.c:374-426 | a push costs 1, 2 or `CACHE_MISS_DELAY` cycles; a data miss always costs `CACHE_MISS_DELAY`, overriding the misprediction charge |
| Stages.PushCounters | iplc-sim.c:374-426 | one push tallies one push, charges between 1 and `CACHE_MISS_DELAY` cycles, retires at most one instruction, counts no new branch or fetch, and resolves exactly one prediction, correct or not, when DECODE holds a branch |
| Stages.JumpMnemonics | iplc-sim.c:498-507 | "jal" and "jalr" are recorded as jal, "j" and "jr" as plain jumps |
| Stages.Fetched | iplc-sim.c:444-526 | a nop leaves the fetch stage zeroed; every other instruction sits there, busy, at its fetch address |
| Stages.PushBalanced | iplc-sim.c:370-436 | a push keeps the counters in balance: fetched instructions are counted or in flight, branches are resolved or pending, and the cycles lie between the charges' bounds |
| Stages.FillBalanced | iplc-sim.c:444-526 | filling the zeroed fetch stage keeps the balance |
| Stages.MemoryOpsShift | iplc-sim.c:402-435 | after a shift the loads and stores in stages lo+1..hi are those that stood in lo..hi-1 |
| Stages.DrainedBalanced | iplc-sim.c:300-306 | once the pipeline is idle every fetched instruction with a non-zero address has been counted and every branch resolved |
| Simulator.PushStep | iplc-sim.c:370-436 | one push on values: the stages shift, one push is tallied, a load or store in MEM makes exactly one cache access, and a miss is counted only with an access |
| Simulator.PushN | iplc-sim.c:583-584 | n pushes shift the stages n times, tally n pushes, fetch and count no branch, and make at most n accesses, the misses among them |
| Simulator.PushNStep | iplc-sim.c:583-584 | n+1 pushes are n pushes followed by one more |
| Simulator.IdlePushes | iplc-sim.c:300-306 | pushing an idle, zeroed pipeline only adds the cycles and the pushes; stages, cache and every other counter stay as they are |
| Simulator.PushNAccesses | iplc-sim.c:402-426 | n pushes access the cache once for every load or store that reaches MEM within them, the ones in the last n stages up to MEM |
| Simulator.DrainAccesses | iplc-sim.c:300-306 | the drain accesses the cache once for every load or store in FETCH to MEM |
| Simulator.PushNBalanced | iplc-sim.c:370-436 | any number of pushes keeps the counters in balance with what is in flight |
| Simulator.Drained | iplc-sim.c:300-306 | if the pipeline is idle after k pushes, k is 5 minus the first busy stage; then all stages are zeroed, every fetched instruction is counted, every branch resolved, and each in-flight load or store has accessed the cache |
| Simulator.Simulator.constructor | iplc-sim.c:164-183 | the initial state: empty cache of the configuration, all five stages zeroed, counters zero |
| Simulator.Simulator.PushPipelineStage | iplc-sim.c:370-436 | one push: the stages shift with FETCH zeroed; `instruction_count` rises exactly when the old WRITEBACK address is non-zero; `correct_branch_predictions` rises exactly when DECODE held a branch whose outcome matches the prediction; the cycles rise by the charge; a load or store in MEM accesses the cache as a textbook LRU access; nothing else changes. The whole new state is `PushStep` of the old |
| Simulator.Simulator.MemoryStage | iplc-sim.c:401-426 | a load or store in MEM accesses the cache at its data address and reports a miss exactly when the block was not held; any other instruction leaves the cache alone |
| Simulator.Simulator.Commit | iplc-sim.c:374-435 | the counters rise as the push decided and the stages shift |
| Simulator.Simulator.WriteFetch | iplc-sim.c:449-450 | FETCH, and only FETCH, holds the new slot, and the fetch tally rises exactly when its address is non-zero |
| Simulator.Simulator.Shift | iplc-sim.c:429-435 | the stages shift and FETCH is zeroed |
| Simulator.Simulator.ProcessRType | iplc-sim.c:445-456 | one push, then FETCH holds the r-type at the current instruction address |
| Simulator.Simulator.ProcessLw | iplc-sim.c:459-469 | one push, then FETCH holds the load with its data address |
| Simulator.Simulator.ProcessSw | iplc-sim.c:472-482 | one push, then FETCH holds the store with its data address |
| Simulator.Simulator.ProcessBranch | iplc-sim.c:485-495 | one push, then FETCH holds the branch, and `branch_count` rises by one |
| Simulator.Simulator.ProcessJump | iplc-sim.c:498-507 | one push, then FETCH holds a jal or a plain jump as the mnemonic says |
| Simulator.Simulator.ProcessSyscall | iplc-sim.c:510-516 | one push, then FETCH holds the syscall |
| Simulator.Simulator.ProcessNop | iplc-sim.c:519-526 | one push and nothing more: FETCH stays a NOP at address 0 and the line is never counted |
| Simulator.Simulator.ParseInstruction | iplc-sim.c:556-585 | the fetch accesses the cache at the instruction address and hits exactly when the block was held; the new state is that access (textbook LRU contents, one access, one miss on a miss) followed by one push on a hit or exactly `CACHE_MISS_DELAY` pushes on a miss, as `PushN`, and the instruction written to FETCH |
| Simulator.Simulator.StallAndInsert | iplc-sim.c:576-585 | after a fetch the state is `PushN` of 1 push on a hit or `CACHE_MISS_DELAY` pushes on a miss, with the instruction in FETCH |
| Simulator.Simulator.StallOnMiss | iplc-sim.c:576-585 | the stall loop's new state is exactly `CACHE_MISS_DELAY - 1` pushes, as `PushN`: cycles, predictions, retirements and cache follow those pushes, and nothing is fetched |
| Simulator.Simulator.Insert | iplc-sim.c:587-683 | each instruction kind goes to its inserter, which pushes once and fills FETCH |
| Simulator.Simulator.Finalize | iplc-sim.c:297-306 | the new state is exactly `PushN` of 5 minus the first busy stage pushes, at most 5, so an idle pipeline is left as it is; it ends with all five stages NOP, and the cache has been accessed once per load or store in flight; afterwards `instruction_count` equals the instructions fetched with a non-zero address and every counted branch is resolved |
| Simulator.Init | iplc-sim.c:137-183 | initialisation fails exactly when the configuration is refused; otherwise it yields the initial simulator |

## Left out

- Text output: every `printf`, `iplc_sim_dump_pipeline` and the final report are presentation only.
- Trace parsing: `sscanf`, the `strncmp` mnemonic dispatch and `iplc_sim_parse_reg` are libc text handling. `ParseInstruction` takes the already decoded address and instruction. A line the dispatcher does not recognise makes the source exit after the fetch access and stall; that exit is not modelled.
- `main`, the trace file and the prompts are I/O. The prediction setting is a constructor parameter.
- The miss rate and CPI of `iplc_sim_finalize` are floating-point reporting.
- `rint(log(blocksize*4)/log(2))` is modelled as the exact integer rounding `RoundLog2`. It agrees with the floating-point result wherever that result is correctly rounded.
- `exit(-1)` on an oversized cache is the `Failure` result of `Init`.
- `malloc` is modelled as array allocation.
- Undefined configurations, which the source does not check:
  - an index outside 0..30 (a shift by a negative amount or past the width of `int`);
  - a block size below 1 (the logarithm of a non-positive number);
  - an associativity of 0 (sets with no lines, read past on the first access);
  - an `int` overflow of `blocksize * 4` (iplc-sim.c:149), for a block size of 2^29 words or more;
  - an `int` overflow of the size product (iplc-sim.c:151), for example index 0, block size 2^27 and associativity 1, or index 30 and associativity 4. Signed overflow is undefined in C.

  `Configure` and `Init` require the first three away. The model computes the last two exactly, with unbounded integers.
- The set index and tag are modelled with division and remainder by powers of two, in place of the source's mask and shifts. That the two agree on 32-bit words is the standard identity; it is not proved here. `AcceptedGeometryFitsWord` only shows that an accepted geometry has index <= 8 and offset bits <= 11, so every shift stays inside the word.
- Counters: `pipeline_cycles`, `instruction_count`, `branch_count`, `correct_branch_predictions` and the `long` cache counters are unbounded. The model does not capture their 32- or 64-bit wrap-around after billions of events.
- The stall loop (iplc-sim.c:583) copies the unsigned `pipeline_cycles` into the `int` counters `i` and `j` and compares them with each other, `i < j + CACHE_MISS_DELAY - 1`. The model always makes `CACHE_MISS_DELAY - 1` passes. The source could differ only once the conversion or `j + 9` leaves the range of `int`, after about two billion cycles.
- `immeadiate_instruction_p` is unused and is a pure string comparison.
- Register numbers and mnemonic text ride along in the instruction values. Nothing depends on them except the jal/jump choice.
