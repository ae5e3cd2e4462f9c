/** The reference TX39 interpreter: processor state, the exec body, exceptions, interrupt
    sampling and the step that sequences them.

    Instructions that the native engine never translates (divide, CP0, unaligned
    load/store, CACHE, traps) and accesses that plain memory does not answer are
    arbitrary functions in `Env`, confined to what such an instruction can change. */
module Mips {
  import opened Words
  import opened Wrappers
  import opened BusMap

  type Regs = s: seq<Word> | |s| == 32 witness seq(32, _ => 0)

  datatype Cp0 = Cp0(status: Word, cause: Word, epc: Word, badVaddr: Word, others: seq<Word>)

  /** Everything but the integer pipeline: CP0, interrupt inputs, power and halt latches,
      the bus map with its generation, and the fields no rule here looks inside. */
  datatype Sys = Sys(cp0: Cp0, irqLines: Byte, imEver: Word, irqsTaken: nat, excCount: nat,
                     halted: bool, powerStopped: bool, hasMmu: bool,
                     rs: Map, generation: nat, others: seq<Word>)

  datatype Cpu = Cpu(r: Regs, hi: Word, lo: Word, pc: Word, nextPc: Word, curPc: Word,
                     branchPending: bool, inDelay: bool, insns: int, cycles: int,
                     sys: Sys, mem: seq<Byte>)

  /** The processor with the two bus counters the native engine maintains itself. */
  datatype Machine = Machine(c: Cpu, busReads: int, busWrites: int)

  /** What one exec body does: a new processor state and the data accesses it made. */
  datatype Effect = Effect(c: Cpu, busReads: nat, busWrites: nat)

  datatype Exception = Exception(code: nat, badVaddr: Option<Word>, refill: bool)

  /** What an untranslated instruction may compute. */
  datatype Outcome = Outcome(r: Regs, hi: Word, lo: Word, cycles: int, sys: Sys, mem: seq<Byte>,
                             raises: Option<Exception>, busReads: nat, busWrites: nat)

  /** The parts of the machine outside this model. `other` runs an untranslated
      instruction word, `oddStep` a whole step whose fetch plain memory does not serve,
      and `clobber` is what a host call leaves in caller-saved register n. */
  datatype Env = Env(other: (Word, Cpu) -> Outcome, oddStep: Machine -> Machine,
                     clobber: (Cpu, nat) -> Word)

  const EXC_INT: nat := 0
  const EXC_ADEL: nat := 4
  const EXC_OV: nat := 12

  // ------------------------------------------------------------ instruction fields

  function Op(w: Word): nat { w / 0x400_0000 }
  function Rs(w: Word): Reg { (w / 0x20_0000) % 32 }
  function Rt(w: Word): Reg { (w / 0x1_0000) % 32 }
  function Rd(w: Word): Reg { (w / 0x800) % 32 }
  function Sa(w: Word): nat { (w / 0x40) % 32 }
  function Fn(w: Word): nat { w % 64 }
  function Imm(w: Word): Word { w % 0x1_0000 }
  function Simm(w: Word): Word { SignExtend16(w) }
  function JumpField(w: Word): Word { (w % 0x400_0000) * 4 }

  // ------------------------------------------------------------ arithmetic

  function SetReg(r: Regs, n: Reg, v: Word): Regs {
    if n == 0 then r else r[n := v]
  }

  predicate Negative(w: Word) {
    w >= 0x8000_0000
  }

  /** Bit 31 of `~(s ^ t) & (s ^ (s + t))`. */
  predicate AddOverflows(s: Word, t: Word) {
    Negative(s) == Negative(t) && Negative(s) != Negative(Add(s, t))
  }

  /** Bit 31 of `(s ^ t) & (s ^ (s - t))`. */
  predicate SubOverflows(s: Word, t: Word) {
    Negative(s) != Negative(t) && Negative(s) != Negative(Sub(s, t))
  }

  function ShiftLeft(v: Word, n: nat): Word { Wrap(v * Pow2(n)) }
  function ShiftRight(v: Word, n: nat): Word { Wrap(v / Pow2(n)) }
  function ShiftArith(v: Word, n: nat): Word { Wrap(Signed(v) / Pow2(n)) }

  function Product(signed: bool, s: Word, t: Word): int {
    if signed then Signed(s) * Signed(t) else s * t
  }

  /** The high and low words of a 64-bit two's complement value. */
  function HighWord(p: int): Word { Wrap(p / TWO32) }
  function LowWord(p: int): Word { Wrap(p) }

  function Extend(size: nat, sign: bool, v: Word): Word {
    if !sign || size == 4 then v else if size == 2 then SignExtend16(v) else SignExtend8(v)
  }

  // ------------------------------------------------------------ exceptions and interrupts

  predicate KernelBit(status: Word) { (status / 2) % 2 == 0 }
  predicate InterruptEnable(status: Word) { status % 2 == 1 }

  function Raise(c: Cpu, e: Exception): Cpu {
    var sr, cause := c.sys.cp0.status, c.sys.cp0.cause;
    var branchDelay := if c.inDelay then 0x8000_0000 else 0;
    var cause1: Word := branchDelay + cause % 0x8000_0000;
    var cause2: Word := cause1 - ((cause1 / 4) % 32) * 4 + (e.code % 32) * 4;
    var cp0 := c.sys.cp0.(
      epc := if c.inDelay then Wrap(c.curPc - 4) else c.curPc,
      cause := cause2,
      status := sr - sr % 64 + (sr % 16) * 4,
      badVaddr := if e.badVaddr.Some? then e.badVaddr.value else c.sys.cp0.badVaddr);
    var base := if (sr / 0x40_0000) % 2 == 1 then 0xBFC0_0100 else 0x8000_0000;
    var vector: Word := if e.refill then base else base + 0x80;
    c.(sys := c.sys.(cp0 := cp0, excCount := c.sys.excCount + 1),
       pc := vector, nextPc := vector + 4, branchPending := false)
  }

  /** The hardware lines show through Cause.IP[7:2]. */
  function CauseWithLines(cause: Word, irqLines: Byte): Word {
    cause - ((cause / 0x400) % 64) * 0x400 + (irqLines / 4) * 0x400
  }

  /** One sample of the interrupt inputs; true when an interrupt replaces the instruction. */
  function CheckInterrupts(c: Cpu): (bool, Cpu) {
    var cause := CauseWithLines(c.sys.cp0.cause, c.sys.irqLines);
    var im := (c.sys.cp0.status / 0x100) % 0x100;
    var c1 := c.(sys := c.sys.(cp0 := c.sys.cp0.(cause := cause), imEver := Or(c.sys.imEver, im)));
    if !InterruptEnable(c.sys.cp0.status) || And((cause / 0x100) % 0x100, im) == 0 then (false, c1)
    else
      (true, Raise(c1.(sys := c1.sys.(irqsTaken := c1.sys.irqsTaken + 1)), Exception(EXC_INT, None, false)))
  }

  // ------------------------------------------------------------ memory

  predicate UnmappedSegment(va: Word) {
    0x8000_0000 <= va < 0xC000_0000
  }

  /** The segment map for what needs no TLB. */
  function Physical(sys: Sys, va: Word): Option<Word> {
    if sys.hasMmu && va >= 0x8000_0000 && !KernelBit(sys.cp0.status) then None
    else if UnmappedSegment(va) then Some(va % 0x2000_0000)
    else if sys.hasMmu then None
    else Some(va)
  }

  predicate AccessSize(size: nat) {
    size == 1 || size == 2 || size == 4
  }

  /** Host address of an aligned access that plain memory answers, clear of a chip's seam. */
  function MemoryAt(sys: Sys, memLen: nat, va: Word, size: nat): (at: Option<nat>)
    requires AccessSize(size)
    ensures at.Some? ==> at.value + size <= memLen
  {
    var pa := Physical(sys, va);
    if va % size != 0 || pa.None? then None
    else
      match Answers(sys.rs, pa.value, size)
      case Data(at) => if at + size <= memLen then Some(at) else None
      case _ => None
  }

  predicate RamAt(sys: Sys, va: Word, size: nat) {
    var pa := Physical(sys, va);
    pa.Some? &&
    var i := First(sys.rs, pa.value, size);
    i.Some? && sys.rs[i.value].kind.Ram?
  }

  /** The instructions that cannot write Status or Cause except by raising an exception:
      divides, CP0 reads, loads, stores and CACHE. */
  predicate KeepsStatus(w: Word) {
    if Op(w) == 0 then Fn(w) == 0x1A || Fn(w) == 0x1B
    else if Op(w) == 0x10 then Rs(w) == 0
    else Op(w) >= 0x20 && Op(w) <= 0x2F && Op(w) != 0x27 && Op(w) != 0x2C && Op(w) != 0x2D
  }

  /** An untranslated instruction. Whatever it is, it leaves `cur_pc`, `in_delay` and the
      instruction count alone, moves the pc only by raising an exception, cannot remove
      host memory or the MMU, and a map edit moves the generation. */
  function RunOther(env: Env, w: Word, c: Cpu): Effect {
    var o := env.other(w, c);
    var mem := if |o.mem| == |c.mem| then o.mem else c.mem;
    var remapped := o.sys.generation != c.sys.generation && Backed(o.sys.rs, |mem|);
    var cp0 := if KeepsStatus(w)
               then o.sys.cp0.(status := c.sys.cp0.status, cause := c.sys.cp0.cause)
               else o.sys.cp0;
    var sys := o.sys.(cp0 := cp0, hasMmu := c.sys.hasMmu,
                      imEver := c.sys.imEver,
                      rs := if remapped then o.sys.rs else c.sys.rs,
                      generation := if remapped then o.sys.generation else c.sys.generation);
    var c1 := c.(r := o.r, hi := o.hi, lo := o.lo, cycles := o.cycles, sys := sys, mem := mem);
    Effect(if o.raises.Some? then Raise(c1, o.raises.value) else c1, o.busReads, o.busWrites)
  }

  function Load(env: Env, w: Word, c: Cpu, va: Word, size: nat, sign: bool, dst: Reg): Effect
    requires AccessSize(size)
  {
    match MemoryAt(c.sys, |c.mem|, va, size)
    case Some(at) => Effect(c.(r := SetReg(c.r, dst, Extend(size, sign, LoadBE(c.mem, at, size)))), 1, 0)
    case None => RunOther(env, w, c)
  }

  function Store(env: Env, w: Word, c: Cpu, va: Word, size: nat, v: Word): Effect
    requires AccessSize(size)
  {
    match MemoryAt(c.sys, |c.mem|, va, size)
    case Some(at) =>
      if RamAt(c.sys, va, size) then Effect(c.(mem := StoreBE(c.mem, at, size, v)), 0, 1)
      else RunOther(env, w, c)
    case None => RunOther(env, w, c)
  }

  // ------------------------------------------------------------ exec

  function Plain(c: Cpu): Effect { Effect(c, 0, 0) }

  function Writes(c: Cpu, n: Reg, v: Word): Effect {
    Plain(c.(r := SetReg(c.r, n, v)))
  }

  function Branch(c: Cpu, target: Word): Cpu {
    c.(nextPc := target, branchPending := true)
  }

  function BranchRel(c: Cpu, w: Word, taken: bool): Cpu {
    if taken then Branch(c, Add(c.pc, Wrap(Simm(w) * 4))) else c.(branchPending := true)
  }

  function JumpTarget(c: Cpu, w: Word): Word {
    (c.pc / 0x1000_0000) * 0x1000_0000 + JumpField(w)
  }

  function Flag(b: bool): Word { if b then 1 else 0 }

  function ExecSpecial(env: Env, w: Word, c: Cpu): Effect {
    var s, t := c.r[Rs(w)], c.r[Rt(w)];
    match Fn(w)
    case 0x00 => Writes(c, Rd(w), ShiftLeft(t, Sa(w)))
    case 0x02 => Writes(c, Rd(w), ShiftRight(t, Sa(w)))
    case 0x03 => Writes(c, Rd(w), ShiftArith(t, Sa(w)))
    case 0x04 => Writes(c, Rd(w), ShiftLeft(t, s % 32))
    case 0x06 => Writes(c, Rd(w), ShiftRight(t, s % 32))
    case 0x07 => Writes(c, Rd(w), ShiftArith(t, s % 32))
    case 0x08 => Plain(Branch(c, s))
    case 0x09 => Plain(Branch(c.(r := SetReg(c.r, if Rd(w) != 0 then Rd(w) else 31, c.nextPc)), s))
    case 0x10 => Writes(c, Rd(w), c.hi)
    case 0x11 => Plain(c.(hi := s))
    case 0x12 => Writes(c, Rd(w), c.lo)
    case 0x13 => Plain(c.(lo := s))
    case 0x18 => Plain(c.(lo := LowWord(Product(true, s, t)), hi := HighWord(Product(true, s, t))))
    case 0x19 => Plain(c.(lo := LowWord(Product(false, s, t)), hi := HighWord(Product(false, s, t))))
    case 0x20 =>
      if AddOverflows(s, t) then Plain(Raise(c, Exception(EXC_OV, None, false)))
      else Writes(c, Rd(w), Add(s, t))
    case 0x21 => Writes(c, Rd(w), Add(s, t))
    case 0x22 =>
      if SubOverflows(s, t) then Plain(Raise(c, Exception(EXC_OV, None, false)))
      else Writes(c, Rd(w), Sub(s, t))
    case 0x23 => Writes(c, Rd(w), Sub(s, t))
    case 0x24 => Writes(c, Rd(w), And(s, t))
    case 0x25 => Writes(c, Rd(w), Or(s, t))
    case 0x26 => Writes(c, Rd(w), Xor(s, t))
    case 0x27 => Writes(c, Rd(w), Not(Or(s, t)))
    case 0x2A => Writes(c, Rd(w), Flag(Signed(s) < Signed(t)))
    case 0x2B => Writes(c, Rd(w), Flag(s < t))
    case _ => RunOther(env, w, c)
  }

  function ExecRegimm(env: Env, w: Word, c: Cpu): Effect {
    var s := Signed(c.r[Rs(w)]);
    var linked := c.(r := SetReg(c.r, 31, c.nextPc));
    match Rt(w)
    case 0x00 => Plain(BranchRel(c, w, s < 0))
    case 0x01 => Plain(BranchRel(c, w, s >= 0))
    case 0x10 => Plain(BranchRel(linked, w, s < 0))
    case 0x11 => Plain(BranchRel(linked, w, s >= 0))
    case _ => RunOther(env, w, c)
  }

  /** The exec body, entered with `cur_pc`, `in_delay`, `pc` and `next_pc` already moved on. */
  function Exec(env: Env, w: Word, c: Cpu): Effect {
    var s, t := c.r[Rs(w)], c.r[Rt(w)];
    var va := Add(s, Simm(w));
    match Op(w)
    case 0x00 => ExecSpecial(env, w, c)
    case 0x01 => ExecRegimm(env, w, c)
    case 0x02 => Plain(Branch(c, JumpTarget(c, w)))
    case 0x03 => Plain(Branch(c.(r := SetReg(c.r, 31, c.nextPc)), JumpTarget(c, w)))
    case 0x04 => Plain(BranchRel(c, w, s == t))
    case 0x05 => Plain(BranchRel(c, w, s != t))
    case 0x06 => Plain(BranchRel(c, w, Signed(s) <= 0))
    case 0x07 => Plain(BranchRel(c, w, Signed(s) > 0))
    case 0x08 =>
      if AddOverflows(s, Simm(w)) then Plain(Raise(c, Exception(EXC_OV, None, false)))
      else Writes(c, Rt(w), Add(s, Simm(w)))
    case 0x09 => Writes(c, Rt(w), Add(s, Simm(w)))
    case 0x0A => Writes(c, Rt(w), Flag(Signed(s) < Signed(Simm(w))))
    case 0x0B => Writes(c, Rt(w), Flag(s < Simm(w)))
    case 0x0C => Writes(c, Rt(w), And(s, Imm(w)))
    case 0x0D => Writes(c, Rt(w), Or(s, Imm(w)))
    case 0x0E => Writes(c, Rt(w), Xor(s, Imm(w)))
    case 0x0F => Writes(c, Rt(w), Imm(w) * 0x1_0000)
    case 0x20 => Load(env, w, c, va, 1, true, Rt(w))
    case 0x21 => Load(env, w, c, va, 2, true, Rt(w))
    case 0x23 => Load(env, w, c, va, 4, true, Rt(w))
    case 0x24 => Load(env, w, c, va, 1, false, Rt(w))
    case 0x25 => Load(env, w, c, va, 2, false, Rt(w))
    case 0x28 => Store(env, w, c, va, 1, t)
    case 0x29 => Store(env, w, c, va, 2, t)
    case 0x2B => Store(env, w, c, va, 4, t)
    case _ => RunOther(env, w, c)
  }

  // ------------------------------------------------------------ the step

  /** Pipeline bookkeeping before the exec body: this instruction becomes current. */
  function Advance(c: Cpu): Cpu {
    c.(curPc := c.pc, inDelay := c.branchPending, branchPending := false,
       pc := c.nextPc, nextPc := Wrap(c.nextPc + 4))
  }

  /** And after it: $zero is hardwired and the counters move. */
  function Complete(c: Cpu): Cpu {
    c.(r := c.r[0 := 0], insns := c.insns + 1, cycles := c.cycles + 1)
  }

  /** Run one fetched word. */
  function Retire(env: Env, w: Word, m: Machine): Machine {
    var e := Exec(env, w, Advance(m.c));
    Machine(Complete(e.c), m.busReads + 1 + e.busReads, m.busWrites + e.busWrites)
  }

  /** The instruction word at `va`, when plain memory holds it. */
  function Fetch(c: Cpu, va: Word): Option<Word> {
    match MemoryAt(c.sys, |c.mem|, va, 4)
    case Some(at) => Some(LoadBE(c.mem, at, 4))
    case None => None
  }

  function Sampled(c: Cpu): (bool, Cpu) {
    CheckInterrupts(c.(curPc := c.pc, inDelay := c.branchPending))
  }

  /** A step whose instruction word is not in plain memory: a bus error, a TLB exception,
      or a word read from a device. Like any step it cannot remove host memory or the MMU,
      a map edit moves the generation, and without a branch the pc pair is in line. */
  function OddStep(env: Env, m: Machine): Machine {
    var o := env.oddStep(m);
    var mem := if |o.c.mem| == |m.c.mem| then o.c.mem else m.c.mem;
    var remapped := o.c.sys.generation != m.c.sys.generation && Backed(o.c.sys.rs, |mem|);
    var sys := o.c.sys.(hasMmu := m.c.sys.hasMmu,
                        rs := if remapped then o.c.sys.rs else m.c.sys.rs,
                        generation := if remapped then o.c.sys.generation else m.c.sys.generation);
    o.(c := o.c.(mem := mem, sys := sys,
                 nextPc := if o.c.branchPending then o.c.nextPc else Add(o.c.pc, 4)))
  }

  /** One reference step. */
  function Step(env: Env, m: Machine): Machine {
    var c := m.c;
    if c.sys.halted then m
    else if c.sys.powerStopped then m.(c := c.(insns := c.insns + 1, cycles := c.cycles + 1))
    else
      var (taken, c1) := Sampled(c);
      if taken then m.(c := c1)
      else if c1.pc % 4 != 0 then m.(c := Raise(c1, Exception(EXC_ADEL, Some(c1.pc), false)))
      else
        match Fetch(c1, c1.pc)
        case Some(w) => Retire(env, w, m.(c := c1))
        case None => OddStep(env, m.(c := c1))
  }

  /** The reference run loop: up to `n` steps, stopping when halted. */
  function Steps(env: Env, m: Machine, n: nat): Machine
    decreases n
  {
    if n == 0 then m else Steps(env, Step(env, m), n - 1)
  }

  lemma {:induction false} StepsCompose(env: Env, m: Machine, a: nat, b: nat)
    ensures Steps(env, m, a + b) == Steps(env, Steps(env, m, a), b)
    decreases a
  {
    if a > 0 {
      StepsCompose(env, Step(env, m), a - 1, b);
    }
  }
}
