/** Block translation preserves meaning: the flat code of a block, entered at its chain
    entry with matching words and enough budget, ends in exactly the state the reference
    reaches by running the block's words one at a time. */
module A64Block {
  import opened Words
  import opened BusMap
  import opened Mips
  import opened MipsIr
  import opened NativeBlock
  import opened HostCode
  import opened RegCache
  import opened A64Code
  import opened A64Proof
  import opened A64Step
  import opened Sampling
  import opened A64Helper
  import opened A64Memory

  // ------------------------------------------------------------ trapping arithmetic

  lemma TrapOperands(env: Env, rc: Cache, i: Ir, h: Host, r: Regs)
    requires A64(rc) && Ok(rc) && Represents(rc, h.x, h.m.c.r, r) && (i.op.IAddOv? || i.op.ISubOv?)
    ensures
      var (ops, l, rr, rc1) := Operands(rc, i);
      var h1 := ApplyAll(env, ops + [ArithFlags(i.op.ISubOv?, 3, l, rr)], h);
      var a, b := r[i.left], RightValue(i, r);
      && Prepared(rc1, h, h1, r)
      && Low(h1.x[3]) == (if i.op.ISubOv? then Sub(a, b) else Add(a, b))
      && h1.flags == FlagsOf(i.op.ISubOv?, a, b)
  {
    hide Ok, Represents, ApplyAll, Operands, FlagsOf;
    var (ops, l, rr, rc1) := Operands(rc, i);
    var h0 := ApplyAll(env, ops, h);
    var op: HOp := ArithFlags(i.op.ISubOv?, 3, l, rr);
    OperandsRefine(env, rc, i, h, r);
    ApplyConcat(env, ops, [op], h);
    Apply1(env, op, h0);
    ScratchKeeps(rc1, h0, ApplyAll(env, ops + [op], h), r);
  }

  lemma TrapFast(env: Env, rc: Cache, g: Reg, h: Host, r: Regs)
    requires A64(rc) && Ok(rc) && Represents(rc, h.x, h.m.c.r, r)
    ensures
      var (d, rc1) := WriteReg(rc, g, 9);
      var ops := (if g != 0 then Move(d, 3) else []) + Written(rc1, g, d);
      Settled(rc1, h, ApplyAll(env, ops, h), SetReg(r, g, Low(h.x[3])))
  {
    hide Ok, Represents, ApplyAll, Settled, Written;
    var (d, rc1) := WriteReg(rc, g, 9);
    if g == 0 {
      NothingSettles(env, rc, h, r);
      NothingWritten(rc1, d);
    } else {
      WriteRegHost(rc, g, 9);
      MoveComputes(env, d, 3, h);
      WriteSettles(env, rc, g, 9, h, Move(d, 3), Low(h.x[3]), r);
    }
  }

  lemma NothingWritten(rc: Cache, d: HReg)
    requires Shape(rc)
    ensures [] + Written(rc, 0, d) == []
  {
  }

  /** Without overflow the entry is a plain register write. */
  lemma TrapMeaning(env: Env, b: Block, k: nat, m: Machine, target: Word)
    requires CanStep(b, k, m, target) && (b.ir[k].op.IAddOv? || b.ir[k].op.ISubOv?)
    requires
      var i := b.ir[k];
      var l, r := m.c.r[i.left], RightValue(i, m.c.r);
      if i.op.ISubOv? then !SubOverflows(l, r) else !AddOverflows(l, r)
    ensures
      var i := b.ir[k];
      var l, r := m.c.r[i.left], RightValue(i, m.c.r);
      var v := if i.op.ISubOv? then Sub(l, r) else Add(l, r);
      PlainRetire(m, Retire(env, b.words[k], m), SetReg(m.c.r, i.dst, v), m.c.hi, m.c.lo, m.c.mem, 0, 0)
  {
    hide Retire, PlainRetire, AddOverflows, SubOverflows;
    var i := b.ir[k];
    var l, r := m.c.r[i.left], RightValue(i, m.c.r);
    DecodeWellFormed(b.words[k]);
    RetirePlain(env, b, k, m, target, i.dst, if i.op.ISubOv? then Sub(l, r) else Add(l, r),
                m.c.hi, m.c.lo, m.c.mem, 0, 0);
  }

  lemma TrapCacheOk(rc: Cache, i: Ir)
    requires A64(rc) && Ok(rc)
    ensures Ok(WriteReg(rc, i.dst, 9).1)
  {
    hide Ok;
    WriteRegOk(rc, i.dst, 9);
  }

  lemma TrappingStep(env: Env, b: Block, k: nat, rc: Cache, h: Host, m: Machine, target: Word, budget: nat)
    requires Sim(b, k, rc, h, m, target, budget) && CanStep(b, k, m, target)
    requires b.ir[k].op.IAddOv? || b.ir[k].op.ISubOv?
    ensures
      var (code, rc1) := TrappingCode(b, k, rc);
      StepResult(b, k, rc1, Eval(env, code, h), m, Retire(env, b.words[k], m), target, budget)
  {
    hide Ok, Represents, ApplyAll, Retire, Operands, SlowPath, AddOverflows, SubOverflows, FlagsOf,
         WriteReg, Written, Before, StepResult, Move;
    var i := b.ir[k];
    var (ops, l, rr, at) := Operands(rc, i);
    var (d, join) := WriteReg(at, i.dst, 9);
    var h1 := ApplyAll(env, ops + [ArithFlags(i.op.ISubOv?, 3, l, rr)], h);
    assert ApplyAll(env, [], h) == h by { ApplyNone(env, h); }
    TrapSim(env, b, k, rc, h, m, target, budget);
    assert NeedsHelper(b, k);
    if h1.flags.v {
      SlowPathRefines(env, b, k, at, join, h1, m, target, budget);
    } else {
      TrapFastStep(env, b, k, at, h1, m, target, budget);
    }
  }

  /** Before the overflow test: nothing the block uses has changed. */
  lemma TrapSim(env: Env, b: Block, k: nat, rc: Cache, h: Host, m: Machine, target: Word, budget: nat)
    requires Sim(b, k, rc, h, m, target, budget) && CanStep(b, k, m, target)
    requires b.ir[k].op.IAddOv? || b.ir[k].op.ISubOv?
    ensures
      var i := b.ir[k];
      var (ops, l, rr, at) := Operands(rc, i);
      var h1 := ApplyAll(env, ops + [ArithFlags(i.op.ISubOv?, 3, l, rr)], h);
      var a, c := m.c.r[i.left], RightValue(i, m.c.r);
      && Sim(b, k, at, h1, m, target, budget) && A64(WriteReg(at, i.dst, 9).1) && Ok(WriteReg(at, i.dst, 9).1)
      && Low(h1.x[3]) == (if i.op.ISubOv? then Sub(a, c) else Add(a, c))
      && h1.flags.v == (if i.op.ISubOv? then SubOverflows(a, c) else AddOverflows(a, c))
  {
    assert k < |b.ir|;
    hide Ok, Represents, ApplyAll, Operands, AddOverflows, SubOverflows, FlagsOf, WriteReg, Valid, Before;
    var i := b.ir[k];
    var (ops, l, rr, at) := Operands(rc, i);
    TrapOperands(env, rc, i, h, m.c.r);
    Overflows(m.c.r[i.left], RightValue(i, m.c.r));
    PreparedSim(b, k, rc, at, h, ApplyAll(env, ops + [ArithFlags(i.op.ISubOv?, 3, l, rr)], h), m, target, budget);
    TrapCacheOk(at, i);
  }

  lemma TrapFastStep(env: Env, b: Block, k: nat, at: Cache, h: Host, m: Machine, target: Word, budget: nat)
    requires Sim(b, k, at, h, m, target, budget) && CanStep(b, k, m, target)
    requires b.ir[k].op.IAddOv? || b.ir[k].op.ISubOv?
    requires
      var i := b.ir[k];
      var a, c := m.c.r[i.left], RightValue(i, m.c.r);
      && Low(h.x[3]) == (if i.op.ISubOv? then Sub(a, c) else Add(a, c))
      && !(if i.op.ISubOv? then SubOverflows(a, c) else AddOverflows(a, c))
    ensures
      var i := b.ir[k];
      var (d, join) := WriteReg(at, i.dst, 9);
      var fast := (if i.dst != 0 then Move(d, 3) else []) + Written(join, i.dst, d);
      StepResult(b, k, join, Eval(env, Ops(fast), h), m, Retire(env, b.words[k], m), target, budget)
  {
    hide Ok, Represents, ApplyAll, Retire, AddOverflows, SubOverflows, Settled, WriteReg, Written, Before, Left;
    var i := b.ir[k];
    var (d, join) := WriteReg(at, i.dst, 9);
    var fast := (if i.dst != 0 then Move(d, 3) else []) + Written(join, i.dst, d);
    TrapFast(env, at, i.dst, h, m.c.r);
    TrapMeaning(env, b, k, m, target);
    SettledStep(b, k, at, join, h, ApplyAll(env, fast, h), m, Retire(env, b.words[k], m),
                SetReg(m.c.r, i.dst, Low(h.x[3])), target, budget);
  }

  // ------------------------------------------------------------ any instruction

  /** Where the block's branch goes, updated when the branch itself runs. */
  function NextTarget(b: Block, k: nat, m: Machine, target: Word): Word
    requires k < |b.ir|
  {
    var i := b.ir[k];
    if IsBranch(i.op) then Decided(i, Pc(b, k), m.c.r[i.left], m.c.r[i.right]) else target
  }

  lemma {:induction false} TablesKept(env: Env, code: Code, h: Host)
    ensures Eval(env, code, h).h.rd == h.rd && Eval(env, code, h).h.wr == h.wr
    decreases code
  {
    match code
    case Ops(ops) => OpsKeepTables(env, ops, h);
    case Then(a, b) =>
      TablesKept(env, a, h);
      TablesKept(env, b, Eval(env, a, h).h);
    case SkipIf(t, body) => TablesKept(env, body, h);
    case Attempt(pre, early, mid, late, fast, slow) =>
      var h1 := ApplyAll(env, pre, h);
      var h2 := ApplyAll(env, mid, h1);
      OpsKeepTables(env, pre, h);
      OpsKeepTables(env, mid, h1);
      TablesKept(env, slow, h1);
      TablesKept(env, slow, h2);
      TablesKept(env, fast, h2);
    case _ =>
  }

  lemma {:induction false} OpsKeepTables(env: Env, ops: seq<HOp>, h: Host)
    ensures ApplyAll(env, ops, h).rd == h.rd && ApplyAll(env, ops, h).wr == h.wr
    decreases |ops|
  {
    if ops != [] {
      OpKeepsTables(env, ops[0], h);
      OpsKeepTables(env, ops[1..], Apply(env, ops[0], h));
    }
  }

  lemma OpKeepsTables(env: Env, op: HOp, h: Host)
    ensures Apply(env, op, h).rd == h.rd && Apply(env, op, h).wr == h.wr
  {
    hide JitExec, JitExecDelay, FlagsOf, AluOf, ShiftOf, LoadLE, StoreLE, Product, CountUp, ApplyTwo, Reverse,
         Reverse16,
         GuestWords, HostAt;
    if op.Two? {
      TwoKeepsTables(env, op.x, h);
    }
  }

  lemma TwoKeepsTables(env: Env, op: XOp, h: Host)
    ensures ApplyTwo(env, op, h).rd == h.rd && ApplyTwo(env, op, h).wr == h.wr
  {
    hide JitExec, JitExecDelay, FlagsOf, XFlags, AluOf, ShiftOf, LoadLE, Product, CountUp, SwapLow;
  }

  lemma InsnStep(env: Env, b: Block, k: nat, rc: Cache, h: Host, m: Machine, target: Word, budget: nat)
    requires Sim(b, k, rc, h, m, target, budget) && CanStep(b, k, m, target)
    requires Safe(m.c.sys, |m.c.mem|) && TablesMatch(h.rd, h.wr, m.c.sys)
    ensures
      var (code, rc1) := InsnCode(b, k, rc);
      StepResult(b, k, rc1, Eval(env, code, h), m, Retire(env, b.words[k], m), NextTarget(b, k, m, target), budget)
  {
    hide Ok, Represents, Lags, Retire, BranchCode, MemoryCode, TrappingCode, Helper, HiLoCode, AluCode, ConstCode,
         ApplyAll, Safe, TablesMatch, Before, Left, Decided, Decode;
    var i := b.ir[k];
    if IsBranch(i.op) {
      BranchStep(env, b, k, rc, h, m, target, budget);
    } else if IsAccess(i.op) {
      MemoryStep(env, b, k, rc, h, m, target, budget);
    } else if i.op.IAddOv? || i.op.ISubOv? {
      TrappingStep(env, b, k, rc, h, m, target, budget);
    } else if i.op.IExec? {
      HelperRefines(env, b, k, rc, h, m, target, budget);
    } else if i.op.IMult? || i.op.IMultu? || i.op.IMthi? || i.op.IMtlo? {
      HiLoStep(env, b, k, rc, h, m, target, budget);
    } else if IsAlu(i.op) {
      AluStep(env, b, k, rc, h, m, target, budget);
    } else {
      ConstStep(env, b, k, rc, h, m, target, budget);
    }
  }

  predicate MayGoOn(m: Machine, m': Machine) {
    Safe(m'.c.sys, |m'.c.mem|) && m'.c.sys.rs == m.c.sys.rs && m'.c.sys.hasMmu == m.c.sys.hasMmu
  }

  lemma PlainSys(env: Env, i: Ir, c: Cpu)
    requires WellFormed(i)
    requires !(i.op.IExec? || IsAccess(i.op) || i.op.IAddOv? || i.op.ISubOv?)
    ensures IrExec(env, i, c).c.sys == c.sys && IrExec(env, i, c).c.mem == c.mem
  {
    hide AluValue, BranchTarget, Product;
  }

  /** Nothing short of an entry that must end its block endangers the ones after it. */
  lemma SafeAfter(env: Env, b: Block, k: nat, m: Machine, target: Word)
    requires CanStep(b, k, m, target) && Safe(m.c.sys, |m.c.mem|)
    requires !(b.ir[k].op.IExec? && b.ir[k].endsBlock)
    requires !Left(m, Retire(env, b.words[k], m))
    ensures MayGoOn(m, Retire(env, b.words[k], m))
  {
    hide Exec, Safe, IrExec, Decode;
    var c := Advance(m.c);
    var w := b.words[k];
    if NeedsHelper(b, k) {
      assert !IsBranch(b.ir[k].op);
      HelperKeeps(env, w, c);
    } else {
      DecodePreserves(env, w, c);
      PlainSys(env, b.ir[k], c);
    }
  }

  lemma TablesPersist(rd: Table, wr: Table, sys: Sys, sys': Sys)
    requires TablesMatch(rd, wr, sys) && sys'.rs == sys.rs && sys'.hasMmu == sys.hasMmu
    ensures TablesMatch(rd, wr, sys')
  {
  }

  // ------------------------------------------------------------ the body

  /** The destinations the block's branch can have, as far as they are static. */
  predicate TargetOk(b: Block, k: nat, target: Word)
    requires b.branch <= |b.ir|
  {
    b.branch > 0 && k >= b.branch ==>
      var br := b.ir[b.branch - 1];
      var pc := Pc(b, b.branch - 1);
      && (br.op.IJump? ==> target == JumpGoes(pc, br.value))
      && (IsCondBranch(br.op) ==> target == Add(Add(pc, 4), br.value) || target == Add(pc, 8))
  }

  /** Where the reference stands after the last instruction. */
  function EndTarget(b: Block, m: Machine): Word {
    if b.delay then m.c.pc else m.c.nextPc
  }

  /** The host after the body: everything in memory, counters and pipeline still to come. */
  predicate BodyEnd(b: Block, h: Host, m: Machine, budget: nat) {
    && Lags(h.m, m, |b.words|) && h.m.c.r == m.c.r && !h.m.c.branchPending && (h.m.c.inDelay ==> b.delay)
    && !h.fault && h.x[BUDGET] == W(Wrap(budget))
    && (b.branch > 0 ==> Low(h.x[TARGET]) == EndTarget(b, m))
  }

  predicate BodyResult(b: Block, res: Result, t: Trace, budget: nat)
    requires 0 < |b.ir| && b.branch <= |b.ir|
  {
    if t.left then
      res.Out? && res.exit == Done && res.h.m == t.m && !res.h.fault
      && res.h.x[BUDGET] == W(Wrap(budget + |b.words| - t.retired))
    else
      && t.retired == |b.words|
      && res.Fall? && BodyEnd(b, res.h, t.m, budget)
      && Before(b, |b.words|, t.m, EndTarget(b, t.m))
      && TargetOk(b, |b.words|, EndTarget(b, t.m))
      && (NeedsCheck(b) || Safe(t.m.c.sys, |t.m.c.mem|))
  }

  lemma FinalWriteback(env: Env, b: Block, rc: Cache, h: Host, m: Machine, target: Word, budget: nat)
    requires Valid(b) && Sim(b, |b.words|, rc, h, m, target, budget) && Before(b, |b.words|, m, target)
    ensures
      var res := Eval(env, Ops(Writeback(rc, 1)), h);
      res.Fall? && BodyEnd(b, res.h, m, budget) && (b.branch > 0 ==> target == EndTarget(b, m))
  {
    hide Ok, Writeback, ApplyAll, Represents;
    WritebackAll(env, rc, h, m.c.r);
  }

  lemma TargetChosen(b: Block, k: nat, m: Machine, target: Word)
    requires Valid(b) && k < |b.words| && TargetOk(b, k, target)
    ensures TargetOk(b, k + 1, NextTarget(b, k, m, target))
  {
    hide Decode, Taken;
  }

  lemma EndsOnlyLast(b: Block, k: nat)
    requires Valid(b) && k < |b.words| && b.ir[k].op.IExec? && b.ir[k].endsBlock
    ensures k + 1 == |b.words| && NeedsCheck(b)
  {
  }

  lemma TargetIrrelevant(b: Block, m: Machine, target: Word)
    requires Valid(b) && b.branch == 0 && Before(b, |b.words|, m, target)
    ensures Before(b, |b.words|, m, EndTarget(b, m)) && TargetOk(b, |b.words|, EndTarget(b, m))
  {
  }

  lemma {:induction false} BodyRefines(env: Env, b: Block, k: nat, rc: Cache, h: Host, m: Machine,
                                       target: Word, budget: nat)
    requires Valid(b) && k <= |b.words|
    requires Sim(b, k, rc, h, m, target, budget) && Before(b, k, m, target) && TargetOk(b, k, target)
    requires (k == |b.words| && NeedsCheck(b)) || (Safe(m.c.sys, |m.c.mem|) && TablesMatch(h.rd, h.wr, m.c.sys))
    ensures BodyResult(b, Eval(env, BodyCode(b, k, rc), h), RunWords(env, b, k, m), budget)
    decreases |b.words| - k
  {
    hide Ok, Represents, Lags, Before, TargetOk, Safe, TablesMatch, Retire, InsnCode, ApplyAll, Writeback, BodyEnd,
         Left,
         NeedsCheck, Decode;
    if k == |b.words| {
      FinalWriteback(env, b, rc, h, m, target, budget);
      if b.branch == 0 {
        TargetIrrelevant(b, m, target);
      }
    } else {
      assert CanStep(b, k, m, target);
      var (code, rc1) := InsnCode(b, k, rc);
      var m' := Retire(env, b.words[k], m);
      InsnStep(env, b, k, rc, h, m, target, budget);
      if !Left(m, m') {
        var res := Eval(env, code, h);
        var target' := NextTarget(b, k, m, target);
        TargetChosen(b, k, m, target);
        TablesKept(env, code, h);
        if b.ir[k].op.IExec? && b.ir[k].endsBlock {
          EndsOnlyLast(b, k);
        } else {
          SafeAfter(env, b, k, m, target);
          TablesPersist(h.rd, h.wr, m.c.sys, m'.c.sys);
        }
        BodyRefines(env, b, k + 1, rc1, res.h, m', target', budget);
      }
    }
  }
}
