/** The five-stage pipeline as values: the instructions that occupy its stages, the
    shift that moves them one stage on, and the rules that decide the branch outcome
    and the cycles a push costs. */
module Stages {
  import opened CacheConfig

  /** What a stage holds; the register numbers and mnemonic text are carried along
      but nothing depends on them except the choice between j and jal. */
  datatype Instr =
    | Nop
    | RType(mnemonic: string, destReg: int, reg1: int, reg2OrConstant: int)
    | Lw(destReg: int, baseReg: int, dataAddress: Word)
    | Sw(srcReg: int, baseReg: int, dataAddress: Word)
    | Branch(reg1: int, reg2: int)
    | Jump(mnemonic: string)
    | Jal(mnemonic: string)
    | Syscall

  /** One pipeline stage: the instruction and the address it was fetched from. */
  datatype Slot = Slot(instr: Instr, address: Word)

  /** A zeroed stage: a NOP at address 0. */
  const EMPTY_SLOT: Slot := Slot(Nop, 0)

  const FETCH: nat := 0
  const DECODE: nat := 1
  const ALU: nat := 2
  const MEM: nat := 3
  const WRITEBACK: nat := 4

  /** Pushes a fetch miss adds before the instruction's own push. */
  const STALL_PUSHES: nat := CACHE_MISS_DELAY - 1

  predicate Busy(s: Slot)
  {
    !s.instr.Nop?
  }

  predicate Idle(p: seq<Slot>)
  {
    forall k :: 0 <= k < |p| ==> !Busy(p[k])
  }

  /** The five stages' test of the drain loop. */
  lemma IdleWhenNoStageBusy(p: seq<Slot>)
    requires |p| == MAX_STAGES
    requires !Busy(p[FETCH]) && !Busy(p[DECODE]) && !Busy(p[ALU]) && !Busy(p[MEM]) && !Busy(p[WRITEBACK])
    ensures Idle(p)
  {
  }

  /** An idle pipeline whose stages are zeroed holds five zeroed stages. */
  lemma IdleIsEmpty(p: seq<Slot>)
    requires |p| == MAX_STAGES && Idle(p) && ZeroWhenIdle(p)
    ensures p == seq(MAX_STAGES, _ => EMPTY_SLOT)
  {
    forall k | 0 <= k < MAX_STAGES
      ensures p[k] == EMPTY_SLOT
    {
      assert !Busy(p[k]);
    }
  }

  /** A stage holding a NOP is zeroed: its address is 0 as well. */
  predicate ZeroWhenIdle(p: seq<Slot>)
  {
    forall k :: 0 <= k < |p| ==> !Busy(p[k]) ==> p[k].address == 0
  }

  predicate AccessesMemory(i: Instr)
  {
    i.Lw? || i.Sw?
  }

  /** The shift of a push: every stage moves one on, the write-back stage falls
      out and the fetch stage is zeroed. */
  function Advance(p: seq<Slot>): (q: seq<Slot>)
    requires |p| == MAX_STAGES
    ensures |q| == MAX_STAGES && q[FETCH] == EMPTY_SLOT
    ensures forall k :: FETCH < k < MAX_STAGES ==> q[k] == p[k - 1]
  {
    [EMPTY_SLOT] + p[..WRITEBACK]
  }

  /** n shifts in a row. */
  function AdvanceN(p: seq<Slot>, n: nat): (q: seq<Slot>)
    requires |p| == MAX_STAGES
    ensures |q| == MAX_STAGES
    decreases n
  {
    if n == 0 then p else AdvanceN(Advance(p), n - 1)
  }

  /** The first stage that holds an instruction, or the number of stages when none does. */
  function FirstBusy(p: seq<Slot>): (k: nat)
    ensures k <= |p|
    ensures forall j :: 0 <= j < k ==> !Busy(p[j])
    ensures k < |p| ==> Busy(p[k])
  {
    if p == [] then 0
    else if Busy(p[0]) then 0
    else 1 + FirstBusy(p[1..])
  }

  /** A shift moves the first busy stage one stage on, or out of the pipeline. */
  lemma FirstBusyAdvance(p: seq<Slot>)
    requires |p| == MAX_STAGES
    ensures FirstBusy(Advance(p)) == if FirstBusy(p) < WRITEBACK then FirstBusy(p) + 1 else MAX_STAGES
  {
    var q := Advance(p);
    var f := FirstBusy(p);
    if f < WRITEBACK {
      FirstBusyUnique(q, f + 1);
    } else {
      FirstBusyUnique(q, MAX_STAGES);
    }
  }

  /** FirstBusy is the only index with its two defining properties. */
  lemma FirstBusyUnique(p: seq<Slot>, k: nat)
    requires k <= |p|
    requires forall j :: 0 <= j < k ==> !Busy(p[j])
    requires k < |p| ==> Busy(p[k])
    ensures FirstBusy(p) == k
  {
  }

  lemma {:induction false} FirstBusyAdvanceN(p: seq<Slot>, n: nat)
    requires |p| == MAX_STAGES
    ensures FirstBusy(AdvanceN(p, n)) == if FirstBusy(p) + n < MAX_STAGES then FirstBusy(p) + n else MAX_STAGES
    decreases n
  {
    if n > 0 {
      FirstBusyAdvance(p);
      FirstBusyAdvanceN(Advance(p), n - 1);
    }
  }

  /** Draining: after n pushes the pipeline holds no instruction exactly when n is at
      least the number of stages from the first busy one to the end; in particular
      it is empty after MAX_STAGES pushes, whatever it held. */
  lemma DrainLength(p: seq<Slot>, n: nat)
    requires |p| == MAX_STAGES
    ensures Idle(AdvanceN(p, n)) <==> n >= MAX_STAGES - FirstBusy(p)
    ensures Idle(AdvanceN(p, MAX_STAGES))
  {
    FirstBusyAdvanceN(p, n);
    FirstBusyAdvanceN(p, MAX_STAGES);
  }

  /** One more shift after n shifts. */
  lemma {:induction false} AdvanceNStep(p: seq<Slot>, n: nat)
    requires |p| == MAX_STAGES
    ensures AdvanceN(p, n + 1) == Advance(AdvanceN(p, n))
    decreases n
  {
    if n > 0 {
      AdvanceNStep(Advance(p), n - 1);
    }
  }

  /** A stage holding an instruction with a non-zero address is counted when it
      leaves the write-back stage. */
  function Retiring(s: Slot): (r: nat)
    ensures r <= 1 && (s == EMPTY_SLOT ==> r == 0)
    ensures r == 1 <==> s.address != 0
  {
    if s.address != 0 then 1 else 0
  }

  /** The stages that will be counted as instructions when they retire. */
  function InFlight(p: seq<Slot>): nat
    requires |p| == MAX_STAGES
  {
    Retiring(p[FETCH]) + Retiring(p[DECODE]) + Retiring(p[ALU]) + Retiring(p[MEM]) + Retiring(p[WRITEBACK])
  }

  /** A pipeline that holds nothing, with every stage zeroed, has nothing to retire. */
  lemma IdleNothingInFlight(p: seq<Slot>)
    requires |p| == MAX_STAGES && Idle(p) && ZeroWhenIdle(p)
    ensures InFlight(p) == 0
  {
    assert !Busy(p[FETCH]) && !Busy(p[DECODE]) && !Busy(p[ALU]) && !Busy(p[MEM]) && !Busy(p[WRITEBACK]);
  }

  /** Branches not yet resolved: those in the fetch and decode stages. */
  function PendingBranches(p: seq<Slot>): nat
    requires |p| == MAX_STAGES
  {
    (if p[FETCH].instr.Branch? then 1 else 0) + (if p[DECODE].instr.Branch? then 1 else 0)
  }

  /** The sequential successor of an instruction address, with 32-bit wrap-around. */
  function NextSequential(a: Word): Word
  {
    (a + 4) % 0x1_0000_0000
  }

  /** A branch in decode was taken when the stage behind it holds an instruction
      that is not the one at the branch's address plus 4. */
  predicate BranchTaken(fetch: Slot, decode: Slot)
    ensures BranchTaken(fetch, decode) ==> Busy(fetch)
    ensures Busy(fetch) && fetch.address == decode.address ==> BranchTaken(fetch, decode)
  {
    fetch.address != NextSequential(decode.address) && Busy(fetch)
  }

  /** The prediction setting is compared as a number with the outcome 0 or 1. */
  predicate PredictionCorrect(taken: bool, predictTaken: Word)
    ensures PredictionCorrect(taken, predictTaken) ==> predictTaken <= 1
    ensures predictTaken <= 1 ==> (PredictionCorrect(taken, predictTaken) <==> (taken <==> predictTaken == 1))
  {
    (if taken then 1 else 0) == predictTaken
  }

  /** A push charges the misprediction penalty when decode holds a branch whose
      outcome differs from the prediction. */
  predicate Mispredicted(p: seq<Slot>, predictTaken: Word)
    requires |p| == MAX_STAGES
  {
    p[DECODE].instr.Branch? && !PredictionCorrect(BranchTaken(p[FETCH], p[DECODE]), predictTaken)
  }

  /** A prediction setting other than 0 or 1 is never correct, and with setting 0
      every branch followed by the next sequential instruction, or by a bubble, is
      predicted correctly. */
  lemma PredictionSettings(fetch: Slot, decode: Slot, predictTaken: Word)
    ensures predictTaken > 1 ==> !PredictionCorrect(BranchTaken(fetch, decode), predictTaken)
    ensures predictTaken == 0 && (fetch.address == NextSequential(decode.address) || !Busy(fetch))
            ==> PredictionCorrect(BranchTaken(fetch, decode), predictTaken)
  {
  }

  /** The cycles one push costs: a data miss overrides a misprediction. */
  function CycleCharge(mispredicted: bool, dataMiss: bool): (c: nat)
    ensures c == 1 || c == 2 || c == CACHE_MISS_DELAY
    ensures dataMiss ==> c == CACHE_MISS_DELAY
    ensures 1 + (if mispredicted then 1 else 0) <= c
    ensures 1 + (if dataMiss then STALL_PUSHES else 0) <= c
    ensures c <= 1 + (if mispredicted then 1 else 0) + (if dataMiss then STALL_PUSHES else 0)
  {
    if dataMiss then CACHE_MISS_DELAY
    else if mispredicted then 2
    else 1
  }

  /** The jump inserter records a jal when the mnemonic starts with "jal". */
  predicate IsJal(mnemonic: string)
  {
    |mnemonic| >= 3 && mnemonic[..3] == "jal"
  }

  /** What the jump inserter records for a mnemonic. */
  function JumpInstr(mnemonic: string): Instr
  {
    if IsJal(mnemonic) then Jal(mnemonic) else Jump(mnemonic)
  }

  /** "jal" and "jalr" are recorded as jal, "j" and "jr" as plain jumps. */
  lemma JumpMnemonics()
    ensures JumpInstr("jal").Jal? && JumpInstr("jalr").Jal?
    ensures JumpInstr("j").Jump? && JumpInstr("jr").Jump?
  {
    assert "jalr"[..3] == "jal";
  }

  /** What an inserter leaves in the fetch stage for an instruction fetched at
      `address`: a nop line leaves it zeroed, a jump is classified by its mnemonic. */
  function Fetched(instr: Instr, address: Word): (s: Slot)
    ensures instr.Nop? ==> s == EMPTY_SLOT
    ensures !instr.Nop? ==> s.address == address && Busy(s)
    ensures !(instr.Jump? || instr.Jal?) ==> s.instr == instr
  {
    match instr
    case Nop => EMPTY_SLOT
    case Jump(m) => Slot(JumpInstr(m), address)
    case Jal(m) => Slot(JumpInstr(m), address)
    case _ => Slot(instr, address)
  }

  // ---------------------------------------------------------------------------
  // Loads and stores on their way to the memory stage.

  /** A stage that will access the cache for data once it reaches MEM counts 1. */
  function MemoryOp(s: Slot): nat
  {
    if AccessesMemory(s.instr) then 1 else 0
  }

  /** The loads and stores in stages lo .. hi - 1. */
  function MemoryOpsIn(p: seq<Slot>, lo: nat, hi: nat): nat
    requires hi <= |p|
    decreases hi - lo
  {
    if lo >= hi then 0 else MemoryOp(p[lo]) + MemoryOpsIn(p, lo + 1, hi)
  }

  /** After a shift, stages lo+1 .. hi hold what stages lo .. hi-1 held. */
  lemma {:induction false} MemoryOpsShift(p: seq<Slot>, lo: nat, hi: nat)
    requires |p| == MAX_STAGES && hi <= MEM + 1
    ensures MemoryOpsIn(Advance(p), lo + 1, hi + 1) == MemoryOpsIn(p, lo, hi)
    decreases hi - lo
  {
    if lo < hi {
      MemoryOpsShift(p, lo + 1, hi);
    }
  }

  /** Counting one stage further up. */
  lemma {:induction false} MemoryOpsLast(p: seq<Slot>, lo: nat, hi: nat)
    requires lo <= hi < |p|
    ensures MemoryOpsIn(p, lo, hi + 1) == MemoryOpsIn(p, lo, hi) + MemoryOp(p[hi])
    decreases hi - lo
  {
    if lo < hi {
      MemoryOpsLast(p, lo + 1, hi);
    }
  }

  /** Idle stages below lo hold no load or store. */
  lemma {:induction false} MemoryOpsIdlePrefix(p: seq<Slot>, lo: nat, hi: nat)
    requires lo <= hi <= |p|
    requires forall j :: 0 <= j < lo ==> !Busy(p[j])
    ensures MemoryOpsIn(p, 0, hi) == MemoryOpsIn(p, lo, hi)
    decreases lo
  {
    if lo > 0 {
      MemoryOpsIdlePrefix(p, lo - 1, hi);
      assert !Busy(p[lo - 1]);
    }
  }

  // ---------------------------------------------------------------------------
  // The performance counters, with the ghost tallies that account for them.

  /** The simulator's counters (cycles, instructions, branches, correct predictions)
      and four tallies kept alongside: pushes, instructions fetched with a non-zero
      address, mispredicted branches and data misses. */
  datatype Counters = Counters(cycles: nat, instructions: nat, branches: nat, correct: nat,
                               pushes: nat, fetched: nat, mispredictions: nat, dataMisses: nat)

  /** The counters after one push of the pipeline p. */
  function PushCounters(p: seq<Slot>, c: Counters, predictTaken: Word, dataMiss: bool): (r: Counters)
    requires |p| == MAX_STAGES
    ensures r.pushes == c.pushes + 1
    ensures c.cycles + 1 <= r.cycles <= c.cycles + CACHE_MISS_DELAY
    ensures r.instructions <= c.instructions + 1
    ensures r.branches == c.branches && r.fetched == c.fetched
    ensures r.correct + r.mispredictions
            == c.correct + c.mispredictions + (if p[DECODE].instr.Branch? then 1 else 0)
  {
    var mispredicted := Mispredicted(p, predictTaken);
    c.(cycles := c.cycles + CycleCharge(mispredicted, dataMiss),
       instructions := c.instructions + Retiring(p[WRITEBACK]),
       correct := c.correct + (if p[DECODE].instr.Branch? && !mispredicted then 1 else 0),
       pushes := c.pushes + 1,
       mispredictions := c.mispredictions + (if mispredicted then 1 else 0),
       dataMisses := c.dataMisses + (if dataMiss then 1 else 0))
  }

  /** The counters after an inserter fills the fetch stage with s. */
  function FillCounters(c: Counters, s: Slot): Counters
  {
    c.(branches := c.branches + (if s.instr.Branch? then 1 else 0),
       fetched := c.fetched + Retiring(s))
  }

  /** What the counters and the pipeline keep in balance: every instruction fetched
      with a non-zero address is counted or still in flight; every branch counted is
      resolved, correctly or not, or still ahead of decode; each push cost one cycle,
      plus one for a misprediction or nine for a data miss, but never more than the
      miss delay. */
  predicate Balanced(p: seq<Slot>, c: Counters)
    requires |p| == MAX_STAGES
  {
    && ZeroWhenIdle(p)
    && c.instructions + InFlight(p) == c.fetched
    && c.branches == c.correct + c.mispredictions + PendingBranches(p)
    && c.pushes + c.mispredictions <= c.cycles
    && c.pushes + STALL_PUSHES * c.dataMisses <= c.cycles
    && c.cycles <= c.pushes + c.mispredictions + STALL_PUSHES * c.dataMisses
    && c.cycles <= CACHE_MISS_DELAY * c.pushes
  }

  /** A push keeps the balance. */
  lemma PushBalanced(p: seq<Slot>, c: Counters, predictTaken: Word, dataMiss: bool)
    requires |p| == MAX_STAGES && Balanced(p, c)
    ensures Balanced(Advance(p), PushCounters(p, c, predictTaken, dataMiss))
  {
    var q := Advance(p);
    assert InFlight(q) + Retiring(p[WRITEBACK]) == InFlight(p);
  }

  /** Filling the zeroed fetch stage with a zeroed stage or an instruction keeps the
      balance. */
  lemma FillBalanced(p: seq<Slot>, c: Counters, s: Slot)
    requires |p| == MAX_STAGES && Balanced(p, c) && p[FETCH] == EMPTY_SLOT
    requires s == EMPTY_SLOT || Busy(s)
    ensures Balanced(p[FETCH := s], FillCounters(c, s))
  {
  }

  /** Once the pipeline holds nothing, every instruction fetched with a non-zero
      address has been counted, every branch has been resolved, and correct
      predictions never exceed branches. */
  lemma DrainedBalanced(p: seq<Slot>, c: Counters)
    requires |p| == MAX_STAGES && Balanced(p, c) && Idle(p)
    ensures c.instructions == c.fetched
    ensures c.branches == c.correct + c.mispredictions
    ensures c.correct <= c.branches
  {
    IdleNothingInFlight(p);
    assert !Busy(p[FETCH]) && !Busy(p[DECODE]);
  }
}
