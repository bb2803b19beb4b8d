/** The simulator proper: the cache, the five pipeline stages and the performance
    counters, advanced one push at a time. A push retires the write-back stage,
    resolves a branch in decode, lets a load or store in the memory stage access the
    cache, charges the cycles and shifts the stages; the inserters each push once and
    fill the fetch stage; a fetch that misses the cache first pushes the pipeline
    through the miss delay; finalize drains the pipeline. */
module Simulator {
  import opened CacheConfig
  import opened CacheModel
  import opened Stages

  /** The simulator's state as a value: the stages, the counters with their tallies,
      the cache as textbook LRU tag lists, and the cache's access and miss counts. */
  datatype Machine = Machine(stages: seq<Slot>, counts: Counters, contents: seq<seq<nat>>,
                             accesses: nat, misses: nat)

  /** Five stages and tag lists shaped like the cache. */
  predicate WellShaped(g: Geometry, m: Machine)
  {
    |m.stages| == MAX_STAGES && Shaped(g, m.contents)
  }

  /** One push of the pipeline as a step on values: the stages shift, the counters
      move as PushCounters says, and a load or store in MEM makes a textbook LRU
      access, a miss when its block was not held. A push makes at most one access
      and counts a miss only with an access. */
  function PushStep(g: Geometry, predictTaken: Word, m: Machine): (r: Machine)
    requires WellShaped(g, m)
    ensures WellShaped(g, r)
    ensures r.stages == Advance(m.stages)
    ensures r.counts.pushes == m.counts.pushes + 1
    ensures r.accesses == m.accesses + MemoryOp(m.stages[MEM])
    ensures r.misses - m.misses <= r.accesses - m.accesses
  {
    var mem := m.stages[MEM].instr;
    var dataMiss := AccessesMemory(mem) && !HoldsBlock(g, m.contents, mem.dataAddress);
    Machine(Advance(m.stages),
            PushCounters(m.stages, m.counts, predictTaken, dataMiss),
            if AccessesMemory(mem) then AccessBlock(g, m.contents, mem.dataAddress) else m.contents,
            m.accesses + (if AccessesMemory(mem) then 1 else 0),
            m.misses + (if dataMiss then 1 else 0))
  }

  /** n pushes in a row: the stages shift n times, n pushes are tallied, nothing is
      fetched or counted as a branch, and at most n accesses are made, of which the
      misses are a part. */
  function PushN(g: Geometry, predictTaken: Word, m: Machine, n: nat): (r: Machine)
    requires WellShaped(g, m)
    ensures WellShaped(g, r)
    ensures r.stages == AdvanceN(m.stages, n)
    ensures r.counts.pushes == m.counts.pushes + n
    ensures r.counts.branches == m.counts.branches && r.counts.fetched == m.counts.fetched
    ensures m.accesses <= r.accesses <= m.accesses + n
    ensures r.misses - m.misses <= r.accesses - m.accesses
    decreases n
  {
    if n == 0 then m else PushN(g, predictTaken, PushStep(g, predictTaken, m), n - 1)
  }

  /** An inserter's write of s into the zeroed fetch stage, with its tallies. */
  function Fill(m: Machine, s: Slot): (r: Machine)
    requires |m.stages| == MAX_STAGES
  {
    m.(stages := m.stages[FETCH := s], counts := FillCounters(m.counts, s))
  }

  /** The last of n + 1 pushes. */
  lemma {:induction false} PushNStep(g: Geometry, predictTaken: Word, m: Machine, n: nat)
    requires WellShaped(g, m)
    ensures PushN(g, predictTaken, m, n + 1) == PushStep(g, predictTaken, PushN(g, predictTaken, m, n))
    decreases n
  {
    hide PushStep, Shaped, PushCounters;
    if n > 0 {
      PushNStep(g, predictTaken, PushStep(g, predictTaken, m), n - 1);
    }
  }

  /** Pushing an idle, zeroed pipeline costs one cycle per push and changes nothing
      else: no instruction retires, no branch is resolved, the cache is not touched.
      Draining it takes no push at all. */
  lemma {:induction false} IdlePushes(g: Geometry, predictTaken: Word, m: Machine, n: nat)
    requires WellShaped(g, m) && Idle(m.stages) && ZeroWhenIdle(m.stages)
    ensures FirstBusy(m.stages) == MAX_STAGES
    ensures PushN(g, predictTaken, m, n)
            == m.(counts := m.counts.(cycles := m.counts.cycles + n, pushes := m.counts.pushes + n))
    decreases n
  {
    var p := m.stages;
    IdleIsEmpty(p);
    if n > 0 {
      var m' := PushStep(g, predictTaken, m);
      assert Advance(p) == p;
      assert m' == m.(counts := m.counts.(cycles := m.counts.cycles + 1, pushes := m.counts.pushes + 1));
      IdlePushes(g, predictTaken, m', n - 1);
    }
  }

  /** After n pushes the cache has been accessed once for each load or store that
      reached MEM: those in the n stages ending at MEM. */
  lemma {:induction false} PushNAccesses(g: Geometry, predictTaken: Word, m: Machine, n: nat)
    requires WellShaped(g, m)
    ensures PushN(g, predictTaken, m, n).accesses
            == m.accesses + MemoryOpsIn(m.stages, MEM + 1 - (if n < MEM + 1 then n else MEM + 1), MEM + 1)
    decreases n
  {
    hide PushStep, Shaped, PushCounters;
    var p := m.stages;
    if n > 0 {
      var m' := PushStep(g, predictTaken, m);
      PushNAccesses(g, predictTaken, m', n - 1);
      var lo := MEM + 1 - (if n < MEM + 1 then n else MEM + 1);
      if n - 1 < MEM + 1 {
        MemoryOpsShift(p, lo, MEM);
      } else {
        MemoryOpsShift(p, 0, MEM);
        assert MemoryOpsIn(Advance(p), 0, MEM + 1) == MemoryOpsIn(Advance(p), 1, MEM + 1);
      }
      MemoryOpsLast(p, lo, MEM);
    }
  }

  /** Draining makes one cache access for every load and store in FETCH .. MEM,
      each reaching MEM before the pipeline is empty. */
  lemma DrainAccesses(g: Geometry, predictTaken: Word, m: Machine)
    requires WellShaped(g, m)
    ensures PushN(g, predictTaken, m, MAX_STAGES - FirstBusy(m.stages)).accesses
            == m.accesses + MemoryOpsIn(m.stages, FETCH, MEM + 1)
  {
    hide PushStep, Shaped, PushCounters;
    var f := FirstBusy(m.stages);
    PushNAccesses(g, predictTaken, m, MAX_STAGES - f);
    if f > 0 {
      MemoryOpsIdlePrefix(m.stages, f - 1, MEM + 1);
    }
  }

  /** n pushes keep the counters in balance with the pipeline. */
  lemma {:induction false} PushNBalanced(g: Geometry, predictTaken: Word, m: Machine, n: nat)
    requires WellShaped(g, m) && Balanced(m.stages, m.counts)
    ensures var r := PushN(g, predictTaken, m, n); Balanced(r.stages, r.counts)
    decreases n
  {
    if n > 0 {
      var mem := m.stages[MEM].instr;
      var dataMiss := AccessesMemory(mem) && !HoldsBlock(g, m.contents, mem.dataAddress);
      PushBalanced(m.stages, m.counts, predictTaken, dataMiss);
      PushNBalanced(g, predictTaken, PushStep(g, predictTaken, m), n - 1);
    }
  }

  /** A drain on values: when the pipeline is idle after k pushes and was not idle
      after fewer, k is the number of stages from the first busy one to the end;
      afterwards every stage is zeroed, every instruction fetched with a non-zero
      address has been counted (those in flight at the start among them), every
      branch has been resolved, and every load and store that was in FETCH .. MEM
      has accessed the cache. */
  lemma Drained(g: Geometry, predictTaken: Word, m: Machine, k: nat)
    requires WellShaped(g, m) && Balanced(m.stages, m.counts)
    requires k <= MAX_STAGES - FirstBusy(m.stages)
    requires Idle(PushN(g, predictTaken, m, k).stages)
    ensures k == MAX_STAGES - FirstBusy(m.stages)
    ensures var r := PushN(g, predictTaken, m, k);
      && r.stages == seq(MAX_STAGES, _ => EMPTY_SLOT)
      && r.counts.instructions == m.counts.instructions + InFlight(m.stages)
      && r.counts.instructions == r.counts.fetched
      && r.counts.branches == r.counts.correct + r.counts.mispredictions
      && r.accesses == m.accesses + MemoryOpsIn(m.stages, FETCH, MEM + 1)
  {
    hide PushStep, Shaped, PushCounters;
    var r := PushN(g, predictTaken, m, k);
    DrainLength(m.stages, k);
    PushNBalanced(g, predictTaken, m, k);
    DrainedBalanced(r.stages, r.counts);
    IdleNothingInFlight(r.stages);
    DrainAccesses(g, predictTaken, m);
    IdleIsEmpty(r.stages);
  }

  class Simulator {
    const cache: Cache
    /** pipeline[k] is stage k: FETCH, DECODE, ALU, MEM, WRITEBACK. */
    const pipeline: array<Slot>
    /** The prediction setting, compared as a number with the outcome 0 or 1. */
    const branchPredictTaken: Word
    /** The address of the trace line being processed. */
    var instructionAddress: Word
    var pipelineCycles: nat
    var instructionCount: nat
    var branchCount: nat
    var correctBranchPredictions: nat
    /** Pushes so far. */
    ghost var pushes: nat
    /** Instructions with a non-zero address placed in the fetch stage so far. */
    ghost var fetched: nat
    /** Branches resolved in decode against the prediction. */
    ghost var mispredictions: nat
    /** Loads and stores whose data access missed. */
    ghost var dataMisses: nat

    /** The counters and tallies as one value. */
    ghost function Counts(): Counters
      reads this
    {
      Counters(pipelineCycles, instructionCount, branchCount, correctBranchPredictions,
               pushes, fetched, mispredictions, dataMisses)
    }

    /** The whole state as a value. */
    ghost function State(): Machine
      reads this, pipeline, cache
    {
      Machine(pipeline[..], Counts(), cache.contents, cache.cacheAccess, cache.cacheMiss)
    }

    /** The cache is valid, the pipeline has its five stages, the counters are in
        balance with the pipeline, and the data misses are among the cache's misses. */
    ghost predicate Valid()
      reads this, pipeline, cache, cache.lines, cache.lruHead, cache.lruTail
    {
      && cache.Valid()
      && cache.ContentsShaped()
      && pipeline.Length == MAX_STAGES
      && Balanced(pipeline[..], Counts())
      && dataMisses <= cache.cacheMiss
    }

    /** One push followed by writing s into the zeroed fetch stage (s is EMPTY_SLOT
        for a bare push): the state is one PushStep and a Fill from the old one, and
        the instruction address is kept. */
    twostate predicate Pushed(s: Slot)
      reads this, pipeline, cache, cache.lines, cache.lruHead, cache.lruTail
      requires old(Valid()) && Valid()
    {
      && State() == Fill(PushStep(cache.Geom(), branchPredictTaken, old(State())), s)
      && instructionAddress == old(instructionAddress)
    }

    /** The initialisation: the cache of the accepted configuration and all five
        stages zeroed. */
    constructor (config: Config, predictTaken: Word)
      requires config.assoc >= 1
      ensures Valid() && fresh(cache) && fresh(pipeline)
      ensures fresh(cache.lines) && fresh(cache.lruHead) && fresh(cache.lruTail)
      ensures cache.indexBits == config.indexBits && cache.offsetBits == config.offsetBits
      ensures cache.assoc == config.assoc
      ensures forall s :: 0 <= s < |cache.contents| ==> cache.contents[s] == []
      ensures cache.cacheAccess == 0
      ensures pipeline[..] == seq(MAX_STAGES, _ => EMPTY_SLOT)
      ensures branchPredictTaken == predictTaken
      ensures pipelineCycles == 0 && instructionCount == 0
      ensures branchCount == 0 && correctBranchPredictions == 0
    {
      hide Cache.Valid;
      var stages := new Slot[MAX_STAGES];
      var i := 0;
      while i < MAX_STAGES
        invariant 0 <= i <= MAX_STAGES
        invariant forall k :: 0 <= k < i ==> stages[k] == EMPTY_SLOT
      {
        stages[i] := EMPTY_SLOT;
        i := i + 1;
      }
      pipeline := stages;
      cache := new Cache(config.indexBits, config.offsetBits, config.assoc);
      branchPredictTaken := predictTaken;
      instructionAddress := 0;
      pipelineCycles, instructionCount, branchCount, correctBranchPredictions := 0, 0, 0, 0;
      pushes, fetched, mispredictions, dataMisses := 0, 0, 0, 0;
      new;
      assert pipeline[..] == seq(MAX_STAGES, _ => EMPTY_SLOT);
    }

    /** One push of the pipeline, in the source's order: the write-back stage is
        retired when its address is non-zero; a branch in decode is resolved against
        the prediction, a misprediction setting the charge to 2 cycles; a load or
        store in the memory stage accesses the cache, a miss setting the charge to
        CACHE_MISS_DELAY (overriding, not adding to, the misprediction charge); the
        charge is added to the cycle count and the stages shift. The counters are
        written together at the end, which nothing in between can observe. */
    method PushPipelineStage()
      requires Valid()
      modifies this, pipeline, cache, cache.lines, cache.lruHead, cache.lruTail
      ensures Valid()
      ensures pipeline[..] == Advance(old(pipeline[..]))
      ensures State() == PushStep(cache.Geom(), branchPredictTaken, old(State()))
      ensures instructionAddress == old(instructionAddress)
    {
      hide Cache.Valid, Balanced;
      ghost var p, c, m := pipeline[..], Counts(), State();
      var retired := pipeline[WRITEBACK].address != 0;
      var cycleCount: nat := 1;
      var correct, mispredicted := false, false;
      if pipeline[DECODE].instr.Branch? {
        var branchTaken := BranchTaken(pipeline[FETCH], pipeline[DECODE]);
        if PredictionCorrect(branchTaken, branchPredictTaken) {
          correct := true;
        } else {
          cycleCount := 2;
          mispredicted := true;
        }
      }
      assert mispredicted == Mispredicted(p, branchPredictTaken);
      var dataMiss := MemoryStage();
      if dataMiss {
        cycleCount := CACHE_MISS_DELAY;
      }
      Commit(retired, correct, mispredicted, cycleCount, dataMiss);
      assert Counts() == PushCounters(p, c, branchPredictTaken, dataMiss);
      PushBalanced(p, c, branchPredictTaken, dataMiss);
      assert State() == PushStep(cache.Geom(), branchPredictTaken, m);
    }

    /** The end of a push: count the retired instruction and the correct prediction,
        add the cycle charge, and shift the stages, zeroing the fetch stage. */
    method Commit(retired: bool, correct: bool, ghost mispredicted: bool, cycleCount: nat, ghost dataMiss: bool)
      requires pipeline.Length == MAX_STAGES
      modifies this, pipeline
      ensures pipeline[..] == Advance(old(pipeline[..]))
      ensures instructionCount == old(instructionCount) + (if retired then 1 else 0)
      ensures correctBranchPredictions == old(correctBranchPredictions) + (if correct then 1 else 0)
      ensures pipelineCycles == old(pipelineCycles) + cycleCount
      ensures pushes == old(pushes) + 1
      ensures mispredictions == old(mispredictions) + (if mispredicted then 1 else 0)
      ensures dataMisses == old(dataMisses) + (if dataMiss then 1 else 0)
      ensures branchCount == old(branchCount) && fetched == old(fetched)
      ensures instructionAddress == old(instructionAddress)
    {
      instructionCount, correctBranchPredictions := instructionCount + (if retired then 1 else 0),
        correctBranchPredictions + (if correct then 1 else 0);
      pipelineCycles, pushes := pipelineCycles + cycleCount, pushes + 1;
      mispredictions, dataMisses := mispredictions + (if mispredicted then 1 else 0),
        dataMisses + (if dataMiss then 1 else 0);
      Shift();
    }

    /** Shifts every stage one place towards write-back and zeroes the fetch stage. */
    method Shift()
      requires pipeline.Length == MAX_STAGES
      modifies pipeline
      ensures pipeline[..] == Advance(old(pipeline[..]))
    {
      pipeline[WRITEBACK] := pipeline[MEM];
      pipeline[MEM] := pipeline[ALU];
      pipeline[ALU] := pipeline[DECODE];
      pipeline[DECODE] := pipeline[FETCH];
      pipeline[FETCH] := EMPTY_SLOT;
      assert pipeline[..] == Advance(old(pipeline[..]));
    }

    /** The memory stage: a load or store accesses the cache at its data address and
        reports whether it missed; any other instruction leaves the cache alone. */
    method MemoryStage() returns (dataMiss: bool)
      requires cache.Valid() && pipeline.Length == MAX_STAGES
      modifies cache, cache.lines, cache.lruHead, cache.lruTail
      ensures cache.Valid()
      ensures var mem := pipeline[MEM].instr;
        if AccessesMemory(mem) then
          && dataMiss == !old(cache.Holds(mem.dataAddress))
          && cache.contents == old(cache.AfterAccess(mem.dataAddress))
          && cache.cacheAccess == old(cache.cacheAccess) + 1
          && cache.cacheMiss == old(cache.cacheMiss) + (if dataMiss then 1 else 0)
        else
          && !dataMiss
          && cache.contents == old(cache.contents)
          && cache.cacheAccess == old(cache.cacheAccess)
          && cache.cacheMiss == old(cache.cacheMiss)
    {
      dataMiss := false;
      match pipeline[MEM].instr
      case Lw(_, _, dataAddress) =>
        var hit := cache.TrapAddress(dataAddress);
        dataMiss := !hit;
      case Sw(_, _, dataAddress) =>
        var hit := cache.TrapAddress(dataAddress);
        dataMiss := !hit;
      case _ =>
    }

    /** Writes s into the fetch stage that the push just zeroed and records it in
        the ghost tally of fetched instructions; a branch is counted by its caller. */
    method WriteFetch(s: Slot)
      requires pipeline.Length == MAX_STAGES
      modifies this`fetched, pipeline
      ensures pipeline[..] == old(pipeline[..])[FETCH := s]
      ensures fetched == old(fetched) + Retiring(s)
    {
      pipeline[FETCH] := s;
      fetched := fetched + Retiring(s);
    }

    /** The r-type inserter: one push, then the fetch stage holds the r-type
        instruction at the current instruction address. */
    method ProcessRType(mnemonic: string, destReg: int, reg1: int, reg2OrConstant: int)
      requires Valid()
      modifies this, pipeline, cache, cache.lines, cache.lruHead, cache.lruTail
      ensures Valid()
      ensures Pushed(Slot(RType(mnemonic, destReg, reg1, reg2OrConstant), instructionAddress))
    {
      hide Cache.Valid;
      PushPipelineStage();
      ghost var p, c := pipeline[..], Counts();
      var s := Slot(RType(mnemonic, destReg, reg1, reg2OrConstant), instructionAddress);
      WriteFetch(s);
      FillBalanced(p, c, s);
    }

    /** The load inserter: one push, then the fetch stage holds the load with its
        data address. */
    method ProcessLw(destReg: int, baseReg: int, dataAddress: Word)
      requires Valid()
      modifies this, pipeline, cache, cache.lines, cache.lruHead, cache.lruTail
      ensures Valid()
      ensures Pushed(Slot(Lw(destReg, baseReg, dataAddress), instructionAddress))
    {
      hide Cache.Valid;
      PushPipelineStage();
      ghost var p, c := pipeline[..], Counts();
      var s := Slot(Lw(destReg, baseReg, dataAddress), instructionAddress);
      WriteFetch(s);
      FillBalanced(p, c, s);
    }

    /** The store inserter: one push, then the fetch stage holds the store with its
        data address. */
    method ProcessSw(srcReg: int, baseReg: int, dataAddress: Word)
      requires Valid()
      modifies this, pipeline, cache, cache.lines, cache.lruHead, cache.lruTail
      ensures Valid()
      ensures Pushed(Slot(Sw(srcReg, baseReg, dataAddress), instructionAddress))
    {
      hide Cache.Valid;
      PushPipelineStage();
      ghost var p, c := pipeline[..], Counts();
      var s := Slot(Sw(srcReg, baseReg, dataAddress), instructionAddress);
      WriteFetch(s);
      FillBalanced(p, c, s);
    }

    /** The branch inserter: one push, then the fetch stage holds the branch, and
        the branch counter goes up by one. */
    method ProcessBranch(reg1: int, reg2: int)
      requires Valid()
      modifies this, pipeline, cache, cache.lines, cache.lruHead, cache.lruTail
      ensures Valid()
      ensures Pushed(Slot(Branch(reg1, reg2), instructionAddress))
      ensures branchCount == old(branchCount) + 1
    {
      hide Cache.Valid;
      PushPipelineStage();
      ghost var p, c := pipeline[..], Counts();
      var s := Slot(Branch(reg1, reg2), instructionAddress);
      WriteFetch(s);
      branchCount := branchCount + 1;
      FillBalanced(p, c, s);
    }

    /** The jump inserter: one push, then the fetch stage holds a jal when the
        mnemonic starts with "jal" and a plain jump otherwise. */
    method ProcessJump(mnemonic: string)
      requires Valid()
      modifies this, pipeline, cache, cache.lines, cache.lruHead, cache.lruTail
      ensures Valid()
      ensures Pushed(Slot(JumpInstr(mnemonic), instructionAddress))
    {
      hide Cache.Valid;
      PushPipelineStage();
      ghost var p, c := pipeline[..], Counts();
      var s := Slot(JumpInstr(mnemonic), instructionAddress);
      WriteFetch(s);
      FillBalanced(p, c, s);
    }

    /** The syscall inserter: one push, then the fetch stage holds the syscall. */
    method ProcessSyscall()
      requires Valid()
      modifies this, pipeline, cache, cache.lines, cache.lruHead, cache.lruTail
      ensures Valid()
      ensures Pushed(Slot(Syscall, instructionAddress))
    {
      hide Cache.Valid;
      PushPipelineStage();
      ghost var p, c := pipeline[..], Counts();
      var s := Slot(Syscall, instructionAddress);
      WriteFetch(s);
      FillBalanced(p, c, s);
    }

    /** The nop inserter: one push and nothing more, so the fetch stage stays zeroed
        (a NOP at address 0) and the line is never counted as an instruction. */
    method ProcessNop()
      requires Valid()
      modifies this, pipeline, cache, cache.lines, cache.lruHead, cache.lruTail
      ensures Valid()
      ensures Pushed(EMPTY_SLOT)
      ensures pipeline[FETCH] == EMPTY_SLOT && fetched == old(fetched)
    {
      PushPipelineStage();
    }

    /** One trace line, once the decoder has read its address and instruction: the
        fetch accesses the cache at the instruction address; a miss stalls the
        pipeline for CACHE_MISS_DELAY - 1 pushes; then the instruction's inserter
        pushes once more and fills the fetch stage. */
    method ParseInstruction(address: Word, instr: Instr) returns (instructionHit: bool)
      requires Valid()
      modifies this, pipeline, cache, cache.lines, cache.lruHead, cache.lruTail
      ensures Valid()
      ensures instructionAddress == address
      ensures instructionHit == old(cache.Holds(address))
      ensures var n := if instructionHit then 1 else CACHE_MISS_DELAY;
        && pushes == old(pushes) + n
        && pipeline[..] == AdvanceN(old(pipeline[..]), n)[FETCH := Fetched(instr, address)]
      ensures fetched == old(fetched) + Retiring(Fetched(instr, address))
      ensures branchCount == old(branchCount) + (if instr.Branch? then 1 else 0)
      ensures var fetchedState := old(State()).(contents := old(cache.AfterAccess(address)),
                                              accesses := old(cache.cacheAccess) + 1,
                                              misses := old(cache.cacheMiss) + (if instructionHit then 0 else 1));
        var n := if instructionHit then 1 else CACHE_MISS_DELAY;
        State() == Fill(PushN(cache.Geom(), branchPredictTaken, fetchedState, n), Fetched(instr, address))
    {
      hide Cache.Valid, Balanced, PushStep, PushN;
      instructionAddress := address;
      instructionHit := cache.TrapAddress(address);
      StallAndInsert(instr, instructionHit);
    }

    /** What follows the fetch access: the stall when it missed, then the inserter's
        push and fill; CACHE_MISS_DELAY pushes in all on a miss, one on a hit. */
    method StallAndInsert(instr: Instr, hit: bool)
      requires Valid()
      modifies this, pipeline, cache, cache.lines, cache.lruHead, cache.lruTail
      ensures Valid()
      ensures State() == Fill(PushN(cache.Geom(), branchPredictTaken, old(State()), if hit then 1 else CACHE_MISS_DELAY),
                              Fetched(instr, instructionAddress))
      ensures instructionAddress == old(instructionAddress)
    {
      hide Cache.Valid, Balanced, PushStep;
      ghost var m1 := State();
      ghost var n: nat := 0;
      if !hit {
        StallOnMiss();
        n := STALL_PUSHES;
      }
      Insert(instr);
      PushNStep(cache.Geom(), branchPredictTaken, m1, n);
    }

    /** The stall of an instruction miss: the loop counts from the current cycle
        count j up to j + CACHE_MISS_DELAY - 1 and pushes once per step; the
        instruction's own push, which follows, is the last of the miss delay. */
    method StallOnMiss()
      requires Valid()
      modifies this, pipeline, cache, cache.lines, cache.lruHead, cache.lruTail
      ensures Valid()
      ensures State() == PushN(cache.Geom(), branchPredictTaken, old(State()), STALL_PUSHES)
      ensures pipeline[..] == AdvanceN(old(pipeline[..]), STALL_PUSHES)
      ensures pushes == old(pushes) + STALL_PUSHES
      ensures fetched == old(fetched) && branchCount == old(branchCount)
      ensures instructionAddress == old(instructionAddress)
    {
      hide Cache.Valid, Balanced, PushStep;
      ghost var m0 := State();
      ghost var g := cache.Geom();
      var i, j := pipelineCycles, pipelineCycles;
      while i < j + CACHE_MISS_DELAY - 1
        invariant j <= i <= j + STALL_PUSHES
        invariant Valid()
        invariant State() == PushN(g, branchPredictTaken, m0, i - j)
        invariant instructionAddress == old(instructionAddress)
      {
        PushPipelineStage();
        PushNStep(g, branchPredictTaken, m0, i - j);
        i := i + 1;
      }
    }

    /** The inserter the instruction's mnemonic selects (a jal goes through the jump
        inserter); each pushes once and fills the fetch stage. */
    method Insert(instr: Instr)
      requires Valid()
      modifies this, pipeline, cache, cache.lines, cache.lruHead, cache.lruTail
      ensures Valid()
      ensures Pushed(Fetched(instr, instructionAddress))
    {
      hide Cache.Valid, Balanced;
      match instr
      case Nop => ProcessNop();
      case RType(m, d, r1, r2) => ProcessRType(m, d, r1, r2);
      case Lw(d, b, a) => ProcessLw(d, b, a);
      case Sw(r, b, a) => ProcessSw(r, b, a);
      case Branch(r1, r2) => ProcessBranch(r1, r2);
      case Jump(m) => ProcessJump(m);
      case Jal(m) => ProcessJump(m);
      case Syscall => ProcessSyscall();
    }

    /** The drain of the finalisation: push until every stage holds a NOP. It takes
        exactly as many pushes as there are stages from the first busy one to the
        end, at most five; afterwards every instruction fetched with a non-zero
        address has been counted and every branch resolved. */
    method Finalize()
      requires Valid()
      modifies this, pipeline, cache, cache.lines, cache.lruHead, cache.lruTail
      ensures Valid()
      ensures State() == PushN(cache.Geom(), branchPredictTaken, old(State()), MAX_STAGES - FirstBusy(old(pipeline[..])))
      ensures pipeline[..] == seq(MAX_STAGES, _ => EMPTY_SLOT)
      ensures pushes == old(pushes) + (MAX_STAGES - FirstBusy(old(pipeline[..])))
      ensures cache.cacheAccess == old(cache.cacheAccess) + MemoryOpsIn(old(pipeline[..]), FETCH, MEM + 1)
      ensures pushes <= old(pushes) + MAX_STAGES
      ensures instructionCount == old(instructionCount) + InFlight(old(pipeline[..]))
      ensures instructionCount == fetched
      ensures branchCount == old(branchCount) && branchCount == correctBranchPredictions + mispredictions
      ensures instructionAddress == old(instructionAddress)
    {
      hide Cache.Valid, Balanced, PushStep;
      ghost var p0, m0, g := pipeline[..], State(), cache.Geom();
      ghost var k: nat := 0;
      while Busy(pipeline[FETCH]) || Busy(pipeline[DECODE]) || Busy(pipeline[ALU])
            || Busy(pipeline[MEM]) || Busy(pipeline[WRITEBACK])
        invariant Valid()
        invariant k <= MAX_STAGES - FirstBusy(p0)
        invariant State() == PushN(g, branchPredictTaken, m0, k)
        invariant instructionAddress == old(instructionAddress)
        decreases MAX_STAGES - k
      {
        FirstBusyAdvanceN(p0, k);
        PushPipelineStage();
        PushNStep(g, branchPredictTaken, m0, k);
        k := k + 1;
      }
      IdleWhenNoStageBusy(pipeline[..]);
      Drained(g, branchPredictTaken, m0, k);
    }
  }

  /** The initialisation: the configuration is checked first and, when accepted, a
      simulator with every set empty, all five stages zeroed and every counter at
      zero is created; an oversized configuration is reported as an error. */
  method Init(index: int, blocksize: int, assoc: int, predictTaken: Word)
    returns (r: Result<Simulator, ConfigError>)
    requires 0 <= index <= 30 && blocksize >= 1 && assoc != 0
    ensures r.Failure? <==> Configure(index, blocksize, assoc).Failure?
    ensures r.Failure? ==> r.error == Configure(index, blocksize, assoc).error
    ensures r.Success? ==>
      var sim := r.value;
      && fresh(sim) && sim.Valid()
      && sim.cache.indexBits == index && sim.cache.assoc == assoc
      && sim.cache.offsetBits == BlockOffsetBits(blocksize)
      && (forall s :: 0 <= s < |sim.cache.contents| ==> sim.cache.contents[s] == [])
      && sim.cache.cacheAccess == 0
      && sim.pipeline[..] == seq(MAX_STAGES, _ => EMPTY_SLOT)
      && sim.pipelineCycles == 0 && sim.instructionCount == 0
      && sim.branchCount == 0 && sim.correctBranchPredictions == 0
  {
    var config := Configure(index, blocksize, assoc);
    match config
    case Failure(e) =>
      r := Failure(e);
    case Success(c) =>
      var sim := new Simulator(c, predictTaken);
      r := Success(sim);
  }
}
