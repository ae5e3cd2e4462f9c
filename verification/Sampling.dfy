/** Why native code may sample interrupts only when it is entered: nothing inside a block
    can make a pending interrupt visible without also making the block stop. */
module Sampling {
  import opened Words
  import opened Wrappers
  import opened BusMap
  import opened Mips
  import opened MipsIr
  import opened NativeBlock

  /** Sampling the interrupt inputs changes nothing and takes nothing. */
  predicate Quiet(sys: Sys) {
    var im := (sys.cp0.status / 0x100) % 0x100;
    && CauseWithLines(sys.cp0.cause, sys.irqLines) == sys.cp0.cause
    && Or(sys.imEver, im) == sys.imEver
    && (InterruptEnable(sys.cp0.status) ==> And((sys.cp0.cause / 0x100) % 0x100, im) == 0)
  }

  predicate KernelOk(sys: Sys) {
    sys.hasMmu ==> KernelBit(sys.cp0.status)
  }

  /** What native code relies on besides the pipeline state. */
  predicate Safe(sys: Sys, memLen: nat) {
    Backed(sys.rs, memLen) && NothingHidden(sys.rs) && KernelOk(sys) && Quiet(sys)
  }

  lemma QuietMeans(c: Cpu)
    ensures Quiet(c.sys) <==> CheckInterrupts(c) == (false, c)
  {
    var im := (c.sys.cp0.status / 0x100) % 0x100;
    var cause := CauseWithLines(c.sys.cp0.cause, c.sys.irqLines);
    var c1 := c.(sys := c.sys.(cp0 := c.sys.cp0.(cause := cause), imEver := Or(c.sys.imEver, im)));
    assert c1 == c <==> cause == c.sys.cp0.cause && Or(c.sys.imEver, im) == c.sys.imEver;
  }

  /** Sampling twice is sampling once. */
  lemma OrAbsorbs(a: nat, b: nat)
    ensures Bitwise(BitOr, Bitwise(BitOr, a, b), b) == Bitwise(BitOr, a, b)
    decreases a + b
  {
    if a > 0 || b > 0 {
      OrAbsorbs(a / 2, b / 2);
      var x := OneBit(BitOr, a % 2, b % 2) + 2 * Bitwise(BitOr, a / 2, b / 2);
      assert x / 2 == Bitwise(BitOr, a / 2, b / 2) && x % 2 == OneBit(BitOr, a % 2, b % 2);
    }
  }

  lemma SampleSettles(c: Cpu)
    requires !CheckInterrupts(c).0
    ensures Quiet(CheckInterrupts(c).1.sys)
  {
    var im := (c.sys.cp0.status / 0x100) % 0x100;
    OrSettles(c.sys.imEver, im);
    LinesSettle(c.sys.cp0.cause, c.sys.irqLines);
    hide And, Or, CauseWithLines;
  }

  lemma OrSettles(a: Word, b: Word)
    ensures Or(Or(a, b), b) == Or(a, b)
  {
    OrAbsorbs(a, b);
    hide Bitwise;
  }

  lemma LinesSettle(cause: Word, irqLines: Byte)
    ensures CauseWithLines(CauseWithLines(cause, irqLines), irqLines) == CauseWithLines(cause, irqLines)
  {
    var high, low := cause / 0x1_0000, cause % 0x400;
    assert cause == 0x1_0000 * high + 0x400 * ((cause / 0x400) % 64) + low;
    var shown := CauseWithLines(cause, irqLines);
    assert shown == 0x1_0000 * high + 0x400 * (irqLines / 4) + low;
    assert shown / 0x400 == 64 * high + irqLines / 4;
  }

  /** Replacing the exception code and the branch-delay bit leaves the interrupt bits. */
  lemma RaiseBits(cause: Word, bd: Word, code: nat)
    requires bd == 0 || bd == 0x8000_0000
    ensures
      var c1: Word := bd + cause % 0x8000_0000;
      var c2: Word := c1 - ((c1 / 4) % 32) * 4 + (code % 32) * 4;
      (c2 / 0x400) % 64 == (cause / 0x400) % 64
  {
    var c1: Word := bd + cause % 0x8000_0000;
    var high, low := c1 / 128, c1 % 4;
    assert c1 == 128 * high + ((c1 / 4) % 32) * 4 + low;
    var c2: Word := 128 * high + low + (code % 32) * 4;
    assert c2 / 128 == high;
    assert c2 / 0x400 == high / 8 && c1 / 0x400 == high / 8;
    BranchDelayBit(cause, bd);
  }

  lemma BranchDelayBit(cause: Word, bd: Word)
    requires bd == 0 || bd == 0x8000_0000
    ensures ((bd + cause % 0x8000_0000) / 0x400) % 64 == (cause / 0x400) % 64
  {
    var m := cause % 0x8000_0000;
    assert cause == m || cause == m + 0x8000_0000;
    assert (m + 0x8000_0000) / 0x400 == m / 0x400 + 0x20_0000;
  }

  lemma LinesShow(cause: Word, irqLines: Byte)
    ensures CauseWithLines(cause, irqLines) == cause <==> (cause / 0x400) % 64 == irqLines / 4
  {
  }

  /** Taking an exception disables interrupts and enters kernel mode. */
  lemma RaiseQuiet(c: Cpu, e: Exception)
    requires CauseWithLines(c.sys.cp0.cause, c.sys.irqLines) == c.sys.cp0.cause
    requires Or(c.sys.imEver, (c.sys.cp0.status / 0x100) % 0x100) == c.sys.imEver
    ensures Quiet(Raise(c, e).sys) && KernelBit(Raise(c, e).sys.cp0.status)
  {
    hide And, Or, CauseWithLines;
    RaiseBits(c.sys.cp0.cause, if c.inDelay then 0x8000_0000 else 0, e.code);
    RaiseStatus(c.sys.cp0.status);
    LinesShow(c.sys.cp0.cause, c.sys.irqLines);
    LinesShow(Raise(c, e).sys.cp0.cause, c.sys.irqLines);
  }

  /** Pushing the KU/IE stack keeps the interrupt mask and clears the current bits. */
  lemma RaiseStatus(sr: Word)
    ensures
      var sr': Word := sr - sr % 64 + (sr % 16) * 4;
      (sr' / 0x100) % 0x100 == (sr / 0x100) % 0x100 && !InterruptEnable(sr') && KernelBit(sr')
  {
    var sr': Word := sr - sr % 64 + (sr % 16) * 4;
    var q, m := sr / 64, (sr % 16) * 4;
    assert sr' == 64 * q + m && m < 64;
    assert sr' / 64 == q;
    assert sr' / 0x100 == q / 4 && sr / 0x100 == q / 4;
    assert sr' == 4 * (16 * q + sr % 16);
  }

  /** Pipeline facts about one exec body that is not a branch. */
  predicate StaysInLine(c: Cpu, e: Cpu) {
    && e.curPc == c.curPc && e.inDelay == c.inDelay && e.insns == c.insns
    && (c.branchPending || !e.branchPending)
    && |e.mem| == |c.mem|
    && ((e.pc == c.pc && e.nextPc == c.nextPc) || (e.nextPc == Add(e.pc, 4) && e.pc < 0xC000_0000))
  }

  /** The system side of it: unless an interrupt input or the map moved, native code may
      go on. */
  predicate StaysSafe(c: Cpu, e: Cpu) {
    e.sys.irqLines == c.sys.irqLines && e.sys.generation == c.sys.generation
    ==> Safe(e.sys, |e.mem|) && e.sys.rs == c.sys.rs && e.sys.hasMmu == c.sys.hasMmu
  }

  lemma OtherInLine(env: Env, w: Word, c: Cpu)
    ensures StaysInLine(c, RunOther(env, w, c).c)
  {
  }

  lemma OtherSafe(env: Env, w: Word, c: Cpu)
    requires KeepsStatus(w) && Safe(c.sys, |c.mem|)
    ensures StaysSafe(c, RunOther(env, w, c).c)
  {
    hide KeepsStatus, Backed, HiddenOverlay, Raise, CauseWithLines, Or, And;
    var o := env.other(w, c);
    var mem := if |o.mem| == |c.mem| then o.mem else c.mem;
    var remapped := o.sys.generation != c.sys.generation && Backed(o.sys.rs, |mem|);
    var sys := o.sys.(cp0 := o.sys.cp0.(status := c.sys.cp0.status, cause := c.sys.cp0.cause),
                      hasMmu := c.sys.hasMmu, imEver := c.sys.imEver,
                      rs := if remapped then o.sys.rs else c.sys.rs,
                      generation := if remapped then o.sys.generation else c.sys.generation);
    var c1 := c.(r := o.r, hi := o.hi, lo := o.lo, cycles := o.cycles, sys := sys, mem := mem);
    if o.raises.Some? {
      RaisedSafe(c, c1, o.raises.value);
    }
  }

  /** Raising from a machine whose interrupt side is still `c`'s. */
  lemma RaisedSafe(c: Cpu, c1: Cpu, e: Exception)
    requires Safe(c.sys, |c.mem|) && |c1.mem| == |c.mem|
    requires c1.sys.cp0.status == c.sys.cp0.status && c1.sys.cp0.cause == c.sys.cp0.cause
    requires c1.sys.imEver == c.sys.imEver && c1.sys.hasMmu == c.sys.hasMmu
    requires c1.sys.generation == c.sys.generation ==> c1.sys.rs == c.sys.rs
    ensures StaysSafe(c, Raise(c1, e))
  {
    hide KeepsStatus, Backed, HiddenOverlay, Raise, CauseWithLines, Or, And;
    RaiseFields(c1, e);
    if c1.sys.irqLines == c.sys.irqLines {
      RaiseQuiet(c1, e);
    }
  }

  lemma RaiseFields(c: Cpu, e: Exception)
    ensures
      var r := Raise(c, e);
      && r.sys.irqLines == c.sys.irqLines && r.sys.generation == c.sys.generation
      && r.sys.rs == c.sys.rs && r.sys.hasMmu == c.sys.hasMmu && r.mem == c.mem
      && r.nextPc == Add(r.pc, 4) && r.pc < 0xC000_0000 && !r.branchPending
      && r.curPc == c.curPc && r.inDelay == c.inDelay && r.insns == c.insns
  {
  }

  lemma ExecIsOther(env: Env, w: Word, c: Cpu)
    requires Decode(w).op.IExec?
    ensures Exec(env, w, c) == RunOther(env, w, c)
  {
  }

  /** Every entry that reaches a helper stays in line, and keeps native code safe unless
      it must end the block. */
  lemma HelperKeeps(env: Env, w: Word, c: Cpu)
    requires c.r[0] == 0 && !IsBranch(Decode(w).op)
    requires Decode(w).op.IExec? || IsAccess(Decode(w).op) || Decode(w).op.IAddOv? || Decode(w).op.ISubOv?
    ensures StaysInLine(c, Exec(env, w, c).c)
    ensures Safe(c.sys, |c.mem|) && !(Decode(w).op.IExec? && Decode(w).endsBlock)
            ==> StaysSafe(c, Exec(env, w, c).c)
  {
    hide Exec, RunOther, KeepsStatus, Safe, MemoryAt, RamAt, Extend, LoadBE, StoreBE, Raise;
    var i := Decode(w);
    OtherInLine(env, w, c);
    DecodePreserves(env, w, c);
    DecodeWellFormed(w);
    if Safe(c.sys, |c.mem|) && !(i.op.IExec? && i.endsBlock) && (i.op.IExec? || IsAccess(i.op)) {
      InlineKeepsStatus(w);
      OtherSafe(env, w, c);
    }
    if i.op.IExec? {
      ExecIsOther(env, w, c);
    } else if i.op.IAddOv? || i.op.ISubOv? {
      TrapKeeps(c);
    }
  }

  lemma TrapKeeps(c: Cpu)
    ensures StaysInLine(c, Raise(c, Exception(EXC_OV, None, false)))
    ensures Safe(c.sys, |c.mem|) ==> StaysSafe(c, Raise(c, Exception(EXC_OV, None, false)))
  {
    RaiseFields(c, Exception(EXC_OV, None, false));
    if Safe(c.sys, |c.mem|) {
      RaiseQuiet(c, Exception(EXC_OV, None, false));
    }
  }
}
