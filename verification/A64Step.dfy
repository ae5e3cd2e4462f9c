/** One instruction of a block: the simulation between the running native code and the
    reference machine, and the entries that need no helper. */
module A64Step {
  import opened Words
  import opened BusMap
  import opened Mips
  import opened MipsIr
  import opened NativeBlock
  import opened HostCode
  import opened RegCache
  import opened A64Code
  import opened A64Proof

  /** The guest structure mid-block: everything but the integer registers, the pipeline
      registers and the counters is the reference's; the counters lag by the `k`
      instructions the block has not retired yet. */
  predicate Lags(hm: Machine, m: Machine, k: nat) {
    && m.c == hm.c.(r := m.c.r, pc := m.c.pc, nextPc := m.c.nextPc, curPc := m.c.curPc,
                    branchPending := m.c.branchPending, inDelay := m.c.inDelay,
                    insns := hm.c.insns + k, cycles := hm.c.cycles + k)
    && m.busReads == hm.busReads + k
    && m.busWrites == hm.busWrites
  }

  /** Native code before instruction `k` simulates the reference before it, on either host. */
  predicate Simulates(b: Block, k: nat, rc: Cache, h: Host, m: Machine, target: Word, budget: nat) {
    && Ok(rc) && Represents(rc, h.x, h.m.c.r, m.c.r)
    && Lags(h.m, m, k)
    && !h.fault
    && budget + |b.words| < TWO32 && h.x[BUDGET] == W(budget)
    && (b.branch > 0 && k >= b.branch ==> Low(h.x[TARGET]) == target)
    && !h.m.c.branchPending && (h.m.c.inDelay ==> b.delay && k == |b.words|)
  }

  predicate Sim(b: Block, k: nat, rc: Cache, h: Host, m: Machine, target: Word, budget: nat) {
    A64(rc) && Simulates(b, k, rc, h, m, target, budget)
  }

  /** A retired instruction that changed only registers, hi/lo and memory. */
  predicate PlainRetire(m: Machine, m': Machine, r: Regs, hi: Word, lo: Word, mem: seq<Byte>, dr: nat, dw: nat) {
    m' == Machine(m.c.(curPc := m.c.pc, inDelay := m.c.branchPending, branchPending := false,
                       pc := m.c.nextPc, nextPc := Add(m.c.nextPc, 4),
                       r := r, hi := hi, lo := lo, mem := mem,
                       insns := m.c.insns + 1, cycles := m.c.cycles + 1),
                  m.busReads + 1 + dr, m.busWrites + dw)
  }

  predicate CanStep(b: Block, k: nat, m: Machine, target: Word) {
    Valid(b) && k < |b.words| && Before(b, k, m, target)
  }

  lemma PcNext(b: Block, k: nat)
    ensures Add(Pc(b, k), 4) == Pc(b, k + 1) && Add(Pc(b, k), 8) == Pc(b, k + 2)
  {
  }

  /** Straight-line advance of the reference. */
  lemma PlainAdvances(b: Block, k: nat, m: Machine, m': Machine, target: Word,
                      r: Regs, hi: Word, lo: Word, mem: seq<Byte>, dr: nat, dw: nat)
    requires CanStep(b, k, m, target) && !IsBranch(b.ir[k].op)
    requires PlainRetire(m, m', r, hi, lo, mem, dr, dw) && r[0] == 0
    ensures Before(b, k + 1, m', target) && !Left(m, m')
  {
    PcNext(b, k);
    PcNext(b, k + 1);
    assert b.branch != k + 1;
  }

  lemma ZeroStays(r: Regs, g: Reg, v: Word)
    requires r[0] == 0
    ensures SetReg(r, g, v)[0] == 0 && SetReg(r, g, v)[0 := 0] == SetReg(r, g, v)
  {
  }

  /** Retiring an entry whose meaning is plain. */
  lemma RetirePlain(env: Env, b: Block, k: nat, m: Machine, target: Word,
                    g: Reg, v: Word, hi: Word, lo: Word, mem: seq<Byte>, dr: nat, dw: nat)
    requires CanStep(b, k, m, target)
    requires IrExec(env, b.ir[k], Advance(m.c)) ==
             Effect(Advance(m.c).(r := SetReg(m.c.r, g, v), hi := hi, lo := lo, mem := mem), dr, dw)
    ensures PlainRetire(m, Retire(env, b.words[k], m), SetReg(m.c.r, g, v), hi, lo, mem, dr, dw)
  {
    hide IrExec, Exec, Decode;
    DecodePreserves(env, b.words[k], Advance(m.c));
    ZeroStays(m.c.r, g, v);
  }

  /** Register-only native code keeps the simulation. */
  lemma SettlesSim(b: Block, k: nat, rc: Cache, rc1: Cache, h: Host, h1: Host, m: Machine, m': Machine,
                   r: Regs, target: Word, budget: nat)
    requires Simulates(b, k, rc, h, m, target, budget) && CanStep(b, k, m, target)
    requires !IsBranch(b.ir[k].op)
    requires Settles(rc1, h, h1, r)
    requires PlainRetire(m, m', r, m.c.hi, m.c.lo, m.c.mem, 0, 0)
    ensures Simulates(b, k + 1, rc1, h1, m', target, budget) && Before(b, k + 1, m', target) && !Left(m, m')
  {
    hide Ok;
    PlainAdvances(b, k, m, m', target, r, m.c.hi, m.c.lo, m.c.mem, 0, 0);
  }

  lemma SettledStep(b: Block, k: nat, rc: Cache, rc1: Cache, h: Host, h1: Host, m: Machine, m': Machine,
                    r: Regs, target: Word, budget: nat)
    requires Sim(b, k, rc, h, m, target, budget) && CanStep(b, k, m, target)
    requires !IsBranch(b.ir[k].op)
    requires Settled(rc1, h, h1, r)
    requires PlainRetire(m, m', r, m.c.hi, m.c.lo, m.c.mem, 0, 0)
    ensures Sim(b, k + 1, rc1, h1, m', target, budget) && Before(b, k + 1, m', target) && !Left(m, m')
  {
    SettlesSim(b, k, rc, rc1, h, h1, m, m', r, target, budget);
  }

  lemma AluStep(env: Env, b: Block, k: nat, rc: Cache, h: Host, m: Machine, target: Word, budget: nat)
    requires Sim(b, k, rc, h, m, target, budget) && CanStep(b, k, m, target) && IsAlu(b.ir[k].op)
    ensures
      var (ops, rc1) := AluCode(rc, b.ir[k]);
      var m' := Retire(env, b.words[k], m);
      Sim(b, k + 1, rc1, ApplyAll(env, ops, h), m', target, budget)
      && Before(b, k + 1, m', target) && !Left(m, m')
  {
    hide Ok, Represents, ApplyAll, AluCode, AluValue, Retire, Settled;
    var i := b.ir[k];
    var (ops, rc1) := AluCode(rc, i);
    var v := AluValue(i.op, m.c.r[i.left], RightValue(i, m.c.r));
    AluRefines(env, rc, i, h, m.c.r);
    DecodeWellFormed(b.words[k]);
    AluMeaning(env, i, Advance(m.c));
    RetirePlain(env, b, k, m, target, i.dst, v, m.c.hi, m.c.lo, m.c.mem, 0, 0);
    SettledStep(b, k, rc, rc1, h, ApplyAll(env, ops, h), m, Retire(env, b.words[k], m),
                SetReg(m.c.r, i.dst, v), target, budget);
  }

  lemma ConstStep(env: Env, b: Block, k: nat, rc: Cache, h: Host, m: Machine, target: Word, budget: nat)
    requires Sim(b, k, rc, h, m, target, budget) && CanStep(b, k, m, target)
    requires b.ir[k].op.IConst? || b.ir[k].op.IMfhi? || b.ir[k].op.IMflo?
    ensures
      var (ops, rc1) := ConstCode(rc, b.ir[k]);
      var m' := Retire(env, b.words[k], m);
      Sim(b, k + 1, rc1, ApplyAll(env, ops, h), m', target, budget)
      && Before(b, k + 1, m', target) && !Left(m, m')
  {
    hide Ok, Represents, ApplyAll, ConstCode, Retire, Settled;
    var i := b.ir[k];
    var (ops, rc1) := ConstCode(rc, i);
    var v := if i.op.IConst? then i.value else if i.op.IMfhi? then m.c.hi else m.c.lo;
    ConstRefines(env, rc, i, h, m.c.r);
    DecodeWellFormed(b.words[k]);
    RetirePlain(env, b, k, m, target, i.dst, v, m.c.hi, m.c.lo, m.c.mem, 0, 0);
    SettledStep(b, k, rc, rc1, h, ApplyAll(env, ops, h), m, Retire(env, b.words[k], m),
                SetReg(m.c.r, i.dst, v), target, budget);
  }

  // ------------------------------------------------------------ hi and lo

  /** `h1` is `h` with hi/lo written and registers reloaded. */
  predicate HiLoWrites(rc: Cache, h: Host, h1: Host, r: Regs, hi: Word, lo: Word) {
    && Ok(rc) && Represents(rc, h1.x, h1.m.c.r, r)
    && h1 == h.(x := h1.x, flags := h1.flags, m := h.m.(c := h.m.c.(hi := hi, lo := lo)))
    && h1.x[TARGET] == h.x[TARGET] && h1.x[BUDGET] == h.x[BUDGET]
  }

  predicate HiLoWritten(rc: Cache, h: Host, h1: Host, r: Regs, hi: Word, lo: Word) {
    A64(rc) && HiLoWrites(rc, h, h1, r, hi, lo)
  }

  lemma MultiplyRefines(env: Env, rc: Cache, i: Ir, l: HReg, rr: HReg, h: Host, r: Regs)
    requires A64(rc) && Ok(rc) && Represents(rc, h.x, h.m.c.r, r)
    ensures
      var p := Product(i.op.IMult?, Get(h, l), Get(h, rr));
      var ops := [Multiply(i.op.IMult?, 3, l, rr), StField(3, FLo), HighHalf(3), StField(3, FHi)];
      HiLoWritten(rc, h, ApplyAll(env, ops, h), r, HighWord(p), LowWord(p))
  {
    hide Ok, Represents, ApplyAll, Product, HighWord, LowWord;
    var mul: HOp := Multiply(i.op.IMult?, 3, l, rr);
    var ops := [mul, StField(3, FLo), HighHalf(3), StField(3, FHi)];
    var h2 := Apply(env, StField(3, FLo), Apply(env, mul, h));
    assert ops == [mul, StField(3, FLo)] + [HighHalf(3), StField(3, FHi)];
    ApplyConcat(env, [mul, StField(3, FLo)], [HighHalf(3), StField(3, FHi)], h);
    Apply2(env, mul, StField(3, FLo), h);
    Apply2(env, HighHalf(3), StField(3, FHi), h2);
    var h4 := ApplyAll(env, ops, h);
    assert h4.x == h.x[3 := h4.x[3]];
    RepresentsFrame(rc, h.x, h4.x, h.m.c.r, r);
  }

  lemma HiLoRefines(env: Env, rc: Cache, i: Ir, h: Host, r: Regs)
    requires A64(rc) && Ok(rc) && Represents(rc, h.x, h.m.c.r, r)
    requires i.op.IMult? || i.op.IMultu? || i.op.IMthi? || i.op.IMtlo?
    ensures
      var (ops, rc1) := HiLoCode(rc, i);
      var h1 := ApplyAll(env, ops, h);
      var p := Product(i.op.IMult?, r[i.left], r[i.right]);
      HiLoWritten(rc1, h, h1, r,
                  if i.op.IMthi? then r[i.left] else if i.op.IMtlo? then h.m.c.hi else HighWord(p),
                  if i.op.IMtlo? then r[i.left] else if i.op.IMthi? then h.m.c.lo else LowWord(p))
  {
    if i.op.IMthi? || i.op.IMtlo? {
      hide Ok, Represents, ApplyAll, Read, OnlyLoaded;
      var (lops, l, rc1) := Read(rc, i.left, 1);
      OneRead(env, rc, i.left, 1, h, r);
      ApplyConcat(env, lops, HiLoOps(i, l, l), h);
      Apply1(env, HiLoOps(i, l, l)[0], ApplyAll(env, lops, h));
    } else {
      hide Ok, Represents, ApplyAll, HiLoCode, HiLoWritten, Product, HighWord, LowWord;
      ProductRefines(env, rc, i, h, r);
    }
  }

  lemma ProductRefines(env: Env, rc: Cache, i: Ir, h: Host, r: Regs)
    requires A64(rc) && Ok(rc) && Represents(rc, h.x, h.m.c.r, r) && (i.op.IMult? || i.op.IMultu?)
    ensures
      var (ops, rc1) := HiLoCode(rc, i);
      var p := Product(i.op.IMult?, r[i.left], r[i.right]);
      HiLoWritten(rc1, h, ApplyAll(env, ops, h), r, HighWord(p), LowWord(p))
  {
    hide Ok, Represents, ApplyAll, Read, Product, OnlyLoaded;
    var (lops, l, rc1) := Read(rc, i.left, 1);
    var (rops, rr, rc2) := Read(rc1, i.right, 2);
    BothReads(env, rc, i.left, i.right, h, r);
    ApplyConcat(env, lops + rops, HiLoOps(i, l, rr), h);
    MultiplyRefines(env, rc2, i, l, rr, ApplyAll(env, lops + rops, h), r);
  }

  lemma HiLoSim(b: Block, k: nat, rc: Cache, rc1: Cache, h: Host, h1: Host, m: Machine, m': Machine,
                hi: Word, lo: Word, target: Word, budget: nat)
    requires Simulates(b, k, rc, h, m, target, budget) && CanStep(b, k, m, target)
    requires !IsBranch(b.ir[k].op)
    requires HiLoWrites(rc1, h, h1, m.c.r, hi, lo)
    requires PlainRetire(m, m', m.c.r, hi, lo, m.c.mem, 0, 0)
    ensures Simulates(b, k + 1, rc1, h1, m', target, budget) && Before(b, k + 1, m', target) && !Left(m, m')
  {
    hide Ok;
    PlainAdvances(b, k, m, m', target, m.c.r, hi, lo, m.c.mem, 0, 0);
  }

  lemma HiLoSettles(b: Block, k: nat, rc: Cache, rc1: Cache, h: Host, h1: Host, m: Machine, m': Machine,
                    hi: Word, lo: Word, target: Word, budget: nat)
    requires Sim(b, k, rc, h, m, target, budget) && CanStep(b, k, m, target)
    requires !IsBranch(b.ir[k].op)
    requires HiLoWritten(rc1, h, h1, m.c.r, hi, lo)
    requires PlainRetire(m, m', m.c.r, hi, lo, m.c.mem, 0, 0)
    ensures Sim(b, k + 1, rc1, h1, m', target, budget) && Before(b, k + 1, m', target) && !Left(m, m')
  {
    HiLoSim(b, k, rc, rc1, h, h1, m, m', hi, lo, target, budget);
  }

  lemma HiLoStep(env: Env, b: Block, k: nat, rc: Cache, h: Host, m: Machine, target: Word, budget: nat)
    requires Sim(b, k, rc, h, m, target, budget) && CanStep(b, k, m, target)
    requires var op := b.ir[k].op; op.IMult? || op.IMultu? || op.IMthi? || op.IMtlo?
    ensures
      var (ops, rc1) := HiLoCode(rc, b.ir[k]);
      var m' := Retire(env, b.words[k], m);
      Sim(b, k + 1, rc1, ApplyAll(env, ops, h), m', target, budget)
      && Before(b, k + 1, m', target) && !Left(m, m')
  {
    hide Ok, Represents, ApplyAll, HiLoCode, Retire, Product, HighWord, LowWord, HiLoWritten, Decode;
    var i := b.ir[k];
    var (ops, rc1) := HiLoCode(rc, i);
    var p := Product(i.op.IMult?, m.c.r[i.left], m.c.r[i.right]);
    var hi := if i.op.IMthi? then m.c.r[i.left] else if i.op.IMtlo? then m.c.hi else HighWord(p);
    var lo := if i.op.IMtlo? then m.c.r[i.left] else if i.op.IMthi? then m.c.lo else LowWord(p);
    HiLoRefines(env, rc, i, h, m.c.r);
    NoImmediate(b.words[k]);
    RetirePlain(env, b, k, m, target, 0, 0, hi, lo, m.c.mem, 0, 0);
    HiLoSettles(b, k, rc, rc1, h, ApplyAll(env, ops, h), m, Retire(env, b.words[k], m), hi, lo, target, budget);
  }

  /** Only ALU entries, loads and stores carry an immediate operand. */
  lemma NoImmediate(w: Word)
    requires var op := Decode(w).op; op.IMult? || op.IMultu? || op.IMthi? || op.IMtlo?
    ensures !Decode(w).immediate && Decode(w).dst == 0
  {
  }

  // ------------------------------------------------------------ branches

  /** The destination a branch at `pc` computes from its operand values. */
  function Decided(i: Ir, pc: Word, l: Word, r: Word): Word
    requires IsBranch(i.op)
  {
    match i.op
    case IJump => JumpGoes(pc, i.value)
    case IJumpr => l
    case _ => if Taken(i.op, l, r) then Add(Add(pc, 4), i.value) else Add(pc, 8)
  }

  /** Only the branch register and the scratch pair changed. */
  predicate BranchDecided(h: Host, h1: Host, v: Word) {
    && h1 == h.(x := h1.x, flags := h1.flags)
    && Low(h1.x[TARGET]) == v
    && forall j :: 0 <= j < 32 && j != TARGET && j != 3 ==> h1.x[j] == h.x[j]
  }

  lemma CondMeans(op: IrOp, l: Word, r: Word)
    requires IsCondBranch(op)
    ensures Holds(FlagsOf(true, l, r), CondOf(op)) <==> Taken(op, l, r)
  {
    Compares(l, r);
  }

  lemma SelectRefines(env: Env, i: Ir, pc: Word, l: HReg, rr: HReg, h: Host)
    requires IsCondBranch(i.op)
    ensures BranchDecided(h, ApplyAll(env, DecideOps(i, pc, l, rr), h), Decided(i, pc, Get(h, l), Get(h, rr)))
  {
    hide Taken, Holds, FlagsOf;
    var fall, jump := Add(pc, 8), Add(Add(pc, 4), i.value);
    var cmp: HOp := ArithFlags(true, ZR, l, rr);
    var first := [cmp, MovImm(TARGET, fall)];
    var second := [MovImm(3, jump), CSel(TARGET, 3, TARGET, CondOf(i.op))];
    assert DecideOps(i, pc, l, rr) == first + second;
    ApplyConcat(env, first, second, h);
    Apply2(env, cmp, MovImm(TARGET, fall), h);
    Apply2(env, MovImm(3, jump), CSel(TARGET, 3, TARGET, CondOf(i.op)), ApplyAll(env, first, h));
    CondMeans(i.op, Get(h, l), Get(h, rr));
  }

  lemma DecideRefines(env: Env, i: Ir, pc: Word, l: HReg, rr: HReg, h: Host)
    requires IsBranch(i.op)
    ensures BranchDecided(h, ApplyAll(env, DecideOps(i, pc, l, rr), h), Decided(i, pc, Get(h, l), Get(h, rr)))
  {
    if IsCondBranch(i.op) {
      SelectRefines(env, i, pc, l, rr, h);
    } else {
      Apply1(env, DecideOps(i, pc, l, rr)[0], h);
    }
  }

  lemma BranchOperandsRefine(env: Env, rc: Cache, i: Ir, pc: Word, h: Host, r: Regs)
    requires A64(rc) && Ok(rc) && Represents(rc, h.x, h.m.c.r, r) && IsBranch(i.op)
    ensures
      var (ops, l, rr, rc1) := BranchOperands(rc, i);
      var h1 := ApplyAll(env, ops, h);
      && Decided(i, pc, Get(h1, l), Get(h1, rr)) == Decided(i, pc, r[i.left], r[i.right])
      && A64(rc1) && Ok(rc1) && Represents(rc1, h1.x, h1.m.c.r, r) && Scratched(h, h1)
  {
    hide Ok, Represents, Read, OnlyLoaded, Taken;
    if i.op.IJumpr? {
      OneRead(env, rc, i.left, 1, h, r);
    } else if IsCondBranch(i.op) {
      BothReads(env, rc, i.left, i.right, h, r);
    }
  }

  /** The branch register holds the destination, and registers follow the link write. */
  predicate Branches(rc: Cache, h: Host, h1: Host, r: Regs, v: Word) {
    && Ok(rc) && Represents(rc, h1.x, h1.m.c.r, r)
    && h1 == h.(x := h1.x, flags := h1.flags, m := h.m.(c := h.m.c.(r := h1.m.c.r)))
    && Low(h1.x[TARGET]) == v && h1.x[BUDGET] == h.x[BUDGET]
  }

  predicate Branched(rc: Cache, h: Host, h1: Host, r: Regs, v: Word) {
    A64(rc) && Branches(rc, h, h1, r, v)
  }

  lemma DecidedRepresents(rc: Cache, h: Host, h1: Host, v: Word, r: Regs)
    requires A64(rc) && Ok(rc) && Represents(rc, h.x, h.m.c.r, r) && BranchDecided(h, h1, v)
    ensures Represents(rc, h1.x, h1.m.c.r, r)
  {
    hide Ok;
    RepresentsFrame(rc, h.x, h1.x, h.m.c.r, r);
  }

  lemma LinkRefines(env: Env, rc: Cache, g: Reg, v: Word, h: Host, r: Regs)
    requires A64(rc) && Ok(rc) && Represents(rc, h.x, h.m.c.r, r) && g != 0
    ensures
      var (d, rc1) := WriteReg(rc, g, 3);
      Settled(rc1, h, ApplyAll(env, [MovImm(d, v)] + Written(rc1, g, d), h), SetReg(r, g, v))
  {
    hide Ok, Represents, ApplyAll, WriteReg, Written;
    var (d, rc1) := WriteReg(rc, g, 3);
    WriteRegHost(rc, g, 3);
    Apply1(env, MovImm(d, v), h);
    WriteSettles(env, rc, g, 3, h, [MovImm(d, v)], v, r);
  }

  lemma BranchRefines(env: Env, rc: Cache, i: Ir, pc: Word, h: Host, r: Regs)
    requires A64(rc) && Ok(rc) && Represents(rc, h.x, h.m.c.r, r) && IsBranch(i.op)
    ensures
      var (ops, rc1) := BranchCode(rc, i, pc);
      Branched(rc1, h, ApplyAll(env, ops, h), SetReg(r, i.dst, Add(pc, 8)),
               Decided(i, pc, r[i.left], r[i.right]))
  {
    hide Ok, Represents, ApplyAll, BranchOperands, DecideOps, Decided, WriteReg, Written;
    var (ops, l, rr, rc1) := BranchOperands(rc, i);
    var decide := DecideOps(i, pc, l, rr);
    var v := Decided(i, pc, r[i.left], r[i.right]);
    var h1 := ApplyAll(env, ops, h);
    var h2 := ApplyAll(env, decide, h1);
    BranchOperandsRefine(env, rc, i, pc, h, r);
    DecideRefines(env, i, pc, l, rr, h1);
    DecidedRepresents(rc1, h1, h2, v, r);
    ApplyConcat(env, ops, decide, h);
    if i.dst != 0 {
      var (d, rc2) := WriteReg(rc1, i.dst, 3);
      var link := [MovImm(d, Add(pc, 8))] + Written(rc2, i.dst, d);
      LinkRefines(env, rc1, i.dst, Add(pc, 8), h2, r);
      ApplyConcat(env, ops + decide, link, h);
      assert ops + decide + link == BranchCode(rc, i, pc).0;
    }
  }

  /** The machine after a branch that goes to `goes`. */
  function BranchRetired(b: Block, k: nat, m: Machine, goes: Word): Machine
    requires k < |b.ir|
  {
    Machine(m.c.(curPc := m.c.pc, inDelay := false, branchPending := true,
                 pc := m.c.nextPc, nextPc := goes,
                 r := SetReg(m.c.r, b.ir[k].dst, Add(Pc(b, k), 8)),
                 insns := m.c.insns + 1, cycles := m.c.cycles + 1),
            m.busReads + 1, m.busWrites)
  }

  lemma BranchAdvances(b: Block, k: nat, m: Machine, target: Word, goes: Word)
    requires CanStep(b, k, m, target) && IsBranch(b.ir[k].op)
    ensures Before(b, k + 1, BranchRetired(b, k, m, goes), goes) && !Left(m, BranchRetired(b, k, m, goes))
  {
    PcNext(b, k);
    ZeroStays(m.c.r, b.ir[k].dst, Add(Pc(b, k), 8));
  }

  lemma BranchPlace(b: Block, k: nat, m: Machine, target: Word)
    requires CanStep(b, k, m, target) && IsBranch(b.ir[k].op)
    ensures m.c.pc == Pc(b, k) && m.c.nextPc == Pc(b, k + 1) && !m.c.branchPending
  {
    hide Decode;
  }

  lemma BranchGoes(b: Block, k: nat, m: Machine, target: Word)
    requires CanStep(b, k, m, target) && IsBranch(b.ir[k].op)
    ensures BranchTarget(b.ir[k], Advance(m.c)) ==
            Decided(b.ir[k], Pc(b, k), m.c.r[b.ir[k].left], m.c.r[b.ir[k].right])
    ensures Advance(m.c).nextPc == Add(Pc(b, k), 8) && !m.c.branchPending
  {
    BranchPlace(b, k, m, target);
    PcNext(b, k);
    PcNext(b, k + 1);
    hide Decode, Taken, Valid, Before, Add, Pc, BranchTarget, Decided;
    BranchSame(b.ir[k], Advance(m.c), Pc(b, k));
  }

  /** The reference computes the destination from the delay slot's address. */
  lemma BranchSame(i: Ir, c: Cpu, pc: Word)
    requires IsBranch(i.op) && c.pc == Add(pc, 4) && c.nextPc == Add(pc, 8)
    ensures BranchTarget(i, c) == Decided(i, pc, c.r[i.left], c.r[i.right])
  {
    hide Taken, Add;
  }

  lemma RetireBranch(env: Env, b: Block, k: nat, m: Machine, target: Word)
    requires CanStep(b, k, m, target) && IsBranch(b.ir[k].op)
    ensures
      var goes := Decided(b.ir[k], Pc(b, k), m.c.r[b.ir[k].left], m.c.r[b.ir[k].right]);
      Retire(env, b.words[k], m) == BranchRetired(b, k, m, goes)
  {
    hide Exec, Decode, IrExec, Decided, BranchTarget;
    var i := b.ir[k];
    DecodePreserves(env, b.words[k], Advance(m.c));
    BranchMeaning(env, i, Advance(m.c));
    BranchGoes(b, k, m, target);
    ZeroStays(m.c.r, i.dst, Add(Pc(b, k), 8));
  }

  lemma BranchStep(env: Env, b: Block, k: nat, rc: Cache, h: Host, m: Machine, target: Word, budget: nat)
    requires Sim(b, k, rc, h, m, target, budget) && CanStep(b, k, m, target) && IsBranch(b.ir[k].op)
    ensures
      var i := b.ir[k];
      var (ops, rc1) := BranchCode(rc, i, Pc(b, k));
      var m' := Retire(env, b.words[k], m);
      var goes := Decided(i, Pc(b, k), m.c.r[i.left], m.c.r[i.right]);
      Sim(b, k + 1, rc1, ApplyAll(env, ops, h), m', goes, budget)
      && Before(b, k + 1, m', goes) && !Left(m, m')
  {
    hide Ok, Represents, ApplyAll, BranchCode, Retire, Decided;
    BranchRefines(env, rc, b.ir[k], Pc(b, k), h, m.c.r);
    RetireBranch(env, b, k, m, target);
    BranchAdvances(b, k, m, target, Decided(b.ir[k], Pc(b, k), m.c.r[b.ir[k].left], m.c.r[b.ir[k].right]));
  }
}
