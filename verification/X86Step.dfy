/** One instruction of an x86-64 block without a helper: registers, hi/lo and branches. Two
    kinds of entry are not always right; for each, in which states exactly. */
module X86Step {
  import opened Words
  import opened Mips
  import opened MipsIr
  import opened NativeBlock
  import opened HostCode
  import opened RegCache
  import opened A64Code
  import opened A64Proof
  import opened A64Step
  import opened A64Helper
  import opened X86Code
  import opened X86Alu

  /** What native code does against one reference step, on this host. */
  predicate XStepResult(b: Block, k: nat, rc: Cache, res: Result, m: Machine, m': Machine,
                        target: Word, budget: nat)
    requires k < |b.words|
  {
    if Left(m, m') then LeavesAfter(b, k, res, m', budget)
    else
      && res.Fall? && X86(rc) && Simulates(b, k + 1, rc, res.h, m', target, budget)
      && Before(b, k + 1, m', target)
  }

  /** The step this host's code takes for one instruction: the reference's, except that an
      AND it skips leaves the left operand, and a branch goes where `XDecided` says. */
  function XRetire(env: Env, b: Block, k: nat, m: Machine): Machine
    requires k < |b.words| && |b.ir| == |b.words|
  {
    var i := b.ir[k];
    if IsBranch(i.op) then BranchRetired(b, k, m, XDecided(i, Pc(b, k), m.c.r[i.left], m.c.r[i.right]))
    else
      var m' := Retire(env, b.words[k], m);
      if SkipsAnd(i) then m'.(c := m'.c.(r := SetReg(m.c.r, i.dst, m.c.r[i.left]))) else m'
  }

  // ------------------------------------------------------------ arithmetic

  lemma XAluStep(env: Env, b: Block, k: nat, rc: Cache, h: Host, m: Machine, target: Word, budget: nat)
    requires X86(rc) && Simulates(b, k, rc, h, m, target, budget) && CanStep(b, k, m, target) && IsAlu(b.ir[k].op)
    ensures
      var (ops, rc1) := XAluCode(rc, b.ir[k]);
      XStepResult(b, k, rc1, Fall(ApplyAll(env, ops, h)), m, XRetire(env, b, k, m), target, budget)
  {
    hide Ok, Represents, ApplyAll, XAluCode, XValue, Settles, Before, Left, Decode, SetReg, XRetire, PlainRetire;
    var i := b.ir[k];
    var (ops, rc1) := XAluCode(rc, i);
    var v := XValue(i, m.c.r[i.left], m.c.r[i.right]);
    XAluRefines(env, rc, i, h, m.c.r);
    XAluRetires(env, b, k, m, target);
    SettlesSim(b, k, rc, rc1, h, ApplyAll(env, ops, h), m, XRetire(env, b, k, m), SetReg(m.c.r, i.dst, v),
               target, budget);
  }

  lemma XAluRetires(env: Env, b: Block, k: nat, m: Machine, target: Word)
    requires CanStep(b, k, m, target) && IsAlu(b.ir[k].op)
    ensures
      var v := XValue(b.ir[k], m.c.r[b.ir[k].left], m.c.r[b.ir[k].right]);
      PlainRetire(m, XRetire(env, b, k, m), SetReg(m.c.r, b.ir[k].dst, v), m.c.hi, m.c.lo, m.c.mem, 0, 0)
  {
    hide XValue, AluValue, Retire, Decode, SkipsAnd;
    var i := b.ir[k];
    AluRetires(env, b, k, m, target, AluValue(i.op, m.c.r[i.left], RightValue(i, m.c.r)));
    assert m.c.r[0] == 0 by { BeforeZero(b, k, m, target); }
    if SkipsAnd(i) {
      SkippedValue(i, m.c.r[i.left], m.c.r[i.right]);
    } else {
      AluRightAt(i, m.c.r);
    }
  }

  lemma AluRetires(env: Env, b: Block, k: nat, m: Machine, target: Word, v: Word)
    requires CanStep(b, k, m, target) && IsAlu(b.ir[k].op)
    requires v == AluValue(b.ir[k].op, m.c.r[b.ir[k].left], RightValue(b.ir[k], m.c.r))
    ensures
      var m' := Retire(env, b.words[k], m);
      && PlainRetire(m, m', SetReg(m.c.r, b.ir[k].dst, v), m.c.hi, m.c.lo, m.c.mem, 0, 0)
      && m'.c.r == SetReg(m.c.r, b.ir[k].dst, v) && !Left(m, m')
  {
    hide AluValue, Retire, Decode;
    var i := b.ir[k];
    DecodeWellFormed(b.words[k]);
    AluMeaning(env, i, Advance(m.c));
    RetirePlain(env, b, k, m, target, i.dst, v, m.c.hi, m.c.lo, m.c.mem, 0, 0);
    ZeroStays(m.c.r, i.dst, v);
    PlainAdvances(b, k, m, Retire(env, b.words[k], m), target, SetReg(m.c.r, i.dst, v), m.c.hi, m.c.lo, m.c.mem, 0, 0);
  }

  lemma XConstStep(env: Env, b: Block, k: nat, rc: Cache, h: Host, m: Machine, target: Word, budget: nat)
    requires X86(rc) && Simulates(b, k, rc, h, m, target, budget) && CanStep(b, k, m, target)
    requires b.ir[k].op.IConst? || b.ir[k].op.IMfhi? || b.ir[k].op.IMflo?
    ensures
      var (ops, rc1) := XConstCode(rc, b.ir[k]);
      XStepResult(b, k, rc1, Fall(ApplyAll(env, ops, h)), m, Retire(env, b.words[k], m), target, budget)
  {
    hide Ok, Represents, ApplyAll, XConstCode, Retire, Settles, Decode, Before, Left;
    var i := b.ir[k];
    var (ops, rc1) := XConstCode(rc, i);
    var v := if i.op.IConst? then i.value else if i.op.IMfhi? then m.c.hi else m.c.lo;
    XConstRefines(env, rc, i, h, m.c.r);
    ConstRetires(env, b, k, m, target, v);
    SettlesSim(b, k, rc, rc1, h, ApplyAll(env, ops, h), m, Retire(env, b.words[k], m),
               SetReg(m.c.r, i.dst, v), target, budget);
  }

  lemma ConstRetires(env: Env, b: Block, k: nat, m: Machine, target: Word, v: Word)
    requires CanStep(b, k, m, target)
    requires b.ir[k].op.IConst? || b.ir[k].op.IMfhi? || b.ir[k].op.IMflo?
    requires v == if b.ir[k].op.IConst? then b.ir[k].value else if b.ir[k].op.IMfhi? then m.c.hi else m.c.lo
    ensures PlainRetire(m, Retire(env, b.words[k], m), SetReg(m.c.r, b.ir[k].dst, v), m.c.hi, m.c.lo, m.c.mem, 0, 0)
  {
    hide Retire, PlainRetire, Decode;
    DecodeWellFormed(b.words[k]);
    RetirePlain(env, b, k, m, target, b.ir[k].dst, v, m.c.hi, m.c.lo, m.c.mem, 0, 0);
  }

  // ------------------------------------------------------------ hi and lo

  lemma ProductApplies(env: Env, rc: Cache, signed: bool, rr: HReg, h: Host, r: Regs)
    requires X86(rc) && Ok(rc) && Represents(rc, h.x, h.m.c.r, r)
    ensures
      var p := Product(signed, Get(h, RAX), Get(h, rr));
      HiLoWrites(rc, h, ApplyAll(env, [Two(XMultiply(signed, rr)), StField(RAX, FLo), StField(RDX, FHi)], h), r,
                 HighWord(p), LowWord(p))
  {
    hide Ok, Represents, ApplyAll, Product, HighWord, LowWord;
    var ops: seq<HOp> := [Two(XMultiply(signed, rr)), StField(RAX, FLo), StField(RDX, FHi)];
    Apply3(env, ops[0], ops[1], ops[2], h);
    var h1 := ApplyAll(env, ops, h);
    RepresentsFrame(rc, h.x, h1.x, h.m.c.r, r);
  }

  lemma ZeroProduct(i: Ir, r: Regs)
    requires r[0] == 0 && (i.left == 0 || i.right == 0)
    ensures
      var p := Product(i.op.IMult?, r[i.left], r[i.right]);
      HighWord(p) == 0 && LowWord(p) == 0
  {
    assert Product(i.op.IMult?, r[i.left], r[i.right]) == 0;
  }

  /** Reading both factors, the left one into eax. */
  lemma FactorsRefine(env: Env, rc: Cache, a: Reg, b: Reg, h: Host, r: Regs)
    requires X86(rc) && Ok(rc) && Represents(rc, h.x, h.m.c.r, r)
    ensures
      var (aops, ah, rc1) := XRead(rc, a, RAX);
      var (bops, bh, rc2) := XRead(rc1, b, RDX);
      var h1 := ApplyAll(env, aops + [MovReg(RAX, ah)] + bops, h);
      && Low(h1.x[RAX]) == r[a] && Get(h1, bh) == r[b] && Scratched(h, h1)
      && X86(rc2) && Ok(rc2) && Represents(rc2, h1.x, h1.m.c.r, r) && XHost(bh, RDX)
  {
    hide Ok, Represents, ApplyAll, OnlyLoaded, XRead;
    var (aops, ah, rc1) := XRead(rc, a, RAX);
    var (bops, bh, rc2) := XRead(rc1, b, RDX);
    var h0 := ApplyAll(env, aops, h);
    var h1 := ApplyAll(env, [MovReg(RAX, ah)], h0);
    XOneRead(env, rc, a, RAX, h, r);
    Apply1(env, MovReg(RAX, ah), h0);
    LowScratch(rc1, h0, h1, r);
    XOneRead(env, rc1, b, RDX, h1, r);
    LoadedElsewhere(rc1, h1.x, ApplyAll(env, bops, h1).x, RDX);
    ApplyConcat(env, aops, [MovReg(RAX, ah)], h);
    ApplyConcat(env, aops + [MovReg(RAX, ah)], bops, h);
  }

  lemma XHiLoRefines(env: Env, rc: Cache, i: Ir, h: Host, r: Regs)
    requires X86(rc) && Ok(rc) && Represents(rc, h.x, h.m.c.r, r)
    requires i.op.IMult? || i.op.IMultu? || i.op.IMthi? || i.op.IMtlo?
    ensures
      var (ops, rc1) := XHiLoCode(rc, i);
      var p := Product(i.op.IMult?, r[i.left], r[i.right]);
      X86(rc1) && HiLoWrites(rc1, h, ApplyAll(env, ops, h), r,
                  if i.op.IMthi? then r[i.left] else if i.op.IMtlo? then h.m.c.hi else HighWord(p),
                  if i.op.IMtlo? then r[i.left] else if i.op.IMthi? then h.m.c.lo else LowWord(p))
  {
    hide Ok, Represents, ApplyAll, XHiLoCode, HiLoWrites, Product, HighWord, LowWord;
    if i.op.IMthi? || i.op.IMtlo? {
      MoveRefines(env, rc, i, h, r);
    } else if i.left == 0 || i.right == 0 {
      NoProductRefines(env, rc, i, h, r);
    } else {
      ProductRefines(env, rc, i, h, r);
    }
  }

  lemma MoveRefines(env: Env, rc: Cache, i: Ir, h: Host, r: Regs)
    requires X86(rc) && Ok(rc) && Represents(rc, h.x, h.m.c.r, r) && (i.op.IMthi? || i.op.IMtlo?)
    ensures
      var (ops, rc1) := XHiLoCode(rc, i);
      X86(rc1) && HiLoWrites(rc1, h, ApplyAll(env, ops, h), r,
                             if i.op.IMthi? then r[i.left] else h.m.c.hi, if i.op.IMtlo? then r[i.left] else h.m.c.lo)
  {
    hide Ok, Represents, ApplyAll, XRead, OnlyLoaded;
    var (lops, l, rc1) := XRead(rc, i.left, RAX);
    var store: HOp := StField(l, if i.op.IMthi? then FHi else FLo);
    XOneRead(env, rc, i.left, RAX, h, r);
    ApplyConcat(env, lops, [store], h);
    Apply1(env, store, ApplyAll(env, lops, h));
  }

  lemma NoProductRefines(env: Env, rc: Cache, i: Ir, h: Host, r: Regs)
    requires X86(rc) && Ok(rc) && Represents(rc, h.x, h.m.c.r, r)
    requires (i.op.IMult? || i.op.IMultu?) && (i.left == 0 || i.right == 0)
    ensures
      var (ops, rc1) := XHiLoCode(rc, i);
      var p := Product(i.op.IMult?, r[i.left], r[i.right]);
      X86(rc1) && HiLoWrites(rc1, h, ApplyAll(env, ops, h), r, HighWord(p), LowWord(p))
  {
    assert r[0] == 0 by { ZeroIsZero(rc, h.x, h.m.c.r, r); }
    hide Ok, Represents, ApplyAll, Product, HighWord, LowWord;
    ZeroProduct(i, r);
    Apply2(env, Two(XStoreField(FHi, 0)), Two(XStoreField(FLo, 0)), h);
  }

  lemma ProductRefines(env: Env, rc: Cache, i: Ir, h: Host, r: Regs)
    requires X86(rc) && Ok(rc) && Represents(rc, h.x, h.m.c.r, r)
    requires (i.op.IMult? || i.op.IMultu?) && i.left != 0 && i.right != 0
    ensures
      var (ops, rc1) := XHiLoCode(rc, i);
      var p := Product(i.op.IMult?, r[i.left], r[i.right]);
      X86(rc1) && HiLoWrites(rc1, h, ApplyAll(env, ops, h), r, HighWord(p), LowWord(p))
  {
    hide Ok, Represents, ApplyAll, XRead, Product, OnlyLoaded, HighWord, LowWord;
    var (lops, l, rc1) := XRead(rc, i.left, RAX);
    var (rops, rr, rc2) := XRead(rc1, i.right, RDX);
    var ops := lops + [MovReg(RAX, l)] + rops;
    var tail: seq<HOp> := [Two(XMultiply(i.op.IMult?, rr)), StField(RAX, FLo), StField(RDX, FHi)];
    FactorsRefine(env, rc, i.left, i.right, h, r);
    ProductApplies(env, rc2, i.op.IMult?, rr, ApplyAll(env, ops, h), r);
    ApplyConcat(env, ops, tail, h);
    assert XHiLoCode(rc, i) == (ops + tail, rc2);
  }

  lemma XHiLoStep(env: Env, b: Block, k: nat, rc: Cache, h: Host, m: Machine, target: Word, budget: nat)
    requires X86(rc) && Simulates(b, k, rc, h, m, target, budget) && CanStep(b, k, m, target)
    requires var op := b.ir[k].op; op.IMult? || op.IMultu? || op.IMthi? || op.IMtlo?
    ensures
      var (ops, rc1) := XHiLoCode(rc, b.ir[k]);
      XStepResult(b, k, rc1, Fall(ApplyAll(env, ops, h)), m, Retire(env, b.words[k], m), target, budget)
  {
    hide Ok, Represents, ApplyAll, XHiLoCode, Retire, Product, HighWord, LowWord, HiLoWrites, Decode, Before, Left;
    var i := b.ir[k];
    var (ops, rc1) := XHiLoCode(rc, i);
    var p := Product(i.op.IMult?, m.c.r[i.left], m.c.r[i.right]);
    var hi := if i.op.IMthi? then m.c.r[i.left] else if i.op.IMtlo? then m.c.hi else HighWord(p);
    var lo := if i.op.IMtlo? then m.c.r[i.left] else if i.op.IMthi? then m.c.lo else LowWord(p);
    XHiLoRefines(env, rc, i, h, m.c.r);
    HiLoRetires(env, b, k, m, target, hi, lo);
    HiLoSim(b, k, rc, rc1, h, ApplyAll(env, ops, h), m, Retire(env, b.words[k], m), hi, lo, target, budget);
  }

  lemma HiLoRetires(env: Env, b: Block, k: nat, m: Machine, target: Word, hi: Word, lo: Word)
    requires CanStep(b, k, m, target)
    requires var op := b.ir[k].op; op.IMult? || op.IMultu? || op.IMthi? || op.IMtlo?
    requires
      var i := b.ir[k];
      var p := Product(i.op.IMult?, m.c.r[i.left], m.c.r[i.right]);
      && hi == (if i.op.IMthi? then m.c.r[i.left] else if i.op.IMtlo? then m.c.hi else HighWord(p))
      && lo == (if i.op.IMtlo? then m.c.r[i.left] else if i.op.IMthi? then m.c.lo else LowWord(p))
    ensures PlainRetire(m, Retire(env, b.words[k], m), m.c.r, hi, lo, m.c.mem, 0, 0)
  {
    hide Retire, PlainRetire, Product, HighWord, LowWord, Decode;
    NoImmediate(b.words[k]);
    RetirePlain(env, b, k, m, target, 0, 0, hi, lo, m.c.mem, 0, 0);
  }

  // ------------------------------------------------------------ branches

  /** The constant for one of the two destinations is zero, so the comparison is lost. */
  predicate FlagsLost(i: Ir, pc: Word) {
    Add(pc, 8) == 0 || Add(Add(pc, 4), i.value) == 0
  }

  /** Which way a lost comparison goes: as for equal operands. */
  predicate WhenEqual(op: IrOp) {
    op.IBeq? || op.IBlez? || op.IBgez?
  }

  /** Where the emitted branch goes. */
  function XDecided(i: Ir, pc: Word, l: Word, r: Word): Word
    requires IsBranch(i.op)
  {
    if !IsCondBranch(i.op) then Decided(i, pc, l, r)
    else if (if FlagsLost(i, pc) then WhenEqual(i.op) else Taken(i.op, l, r)) then Add(Add(pc, 4), i.value)
    else Add(pc, 8)
  }

  lemma LostFlags(op: IrOp)
    requires IsCondBranch(op)
    ensures Holds(Flags(false, true, true, false), CondOf(op)) <==> WhenEqual(op)
  {
  }

  /** Only the branch register, the flags and scratch registers changed. */
  predicate XSelected(h: Host, h1: Host, v: Word) {
    && h1 == h.(x := h1.x, flags := h1.flags)
    && Low(h1.x[TARGET]) == v
    && forall j :: 3 <= j < 32 && j != TARGET ==> h1.x[j] == h.x[j]
  }

  /** The comparison's flags reach the select unless a zero constant comes between. */
  lemma XSelectRefines(env: Env, i: Ir, pc: Word, l: HReg, rr: HReg, h: Host)
    requires IsCondBranch(i.op) && l < 31 && rr < 31
    ensures XSelected(h, ApplyAll(env, XSelectOps(i, pc, l, rr), h),
                      XDecided(i, pc, Get(h, l), if i.right == 0 then 0 else Get(h, rr)))
  {
    hide ApplyAll, MovI, FlagsOf, Holds, CondOf, Taken, WhenEqual;
    var fall, jump := Add(pc, 8), Add(Add(pc, 4), i.value);
    var cmp: HOp := if i.right == 0 then CmpImm(l, 0) else ArithFlags(true, ZR, l, rr);
    var select: HOp := CSel(TARGET, RCX, TARGET, CondOf(i.op));
    var h1 := ApplyAll(env, [cmp], h);
    Apply1(env, cmp, h);
    ConstantApplies(env, TARGET, fall, h1);
    var h2 := ApplyAll(env, MovI(TARGET, fall), h1);
    ConstantApplies(env, RCX, jump, h2);
    var h3 := ApplyAll(env, MovI(RCX, jump), h2);
    Apply1(env, select, h3);
    ApplyConcat(env, [cmp], MovI(TARGET, fall), h);
    ApplyConcat(env, [cmp] + MovI(TARGET, fall), MovI(RCX, jump), h);
    ApplyConcat(env, [cmp] + MovI(TARGET, fall) + MovI(RCX, jump), [select], h);
    LostFlags(i.op);
    CondMeans(i.op, Get(h, l), if i.right == 0 then 0 else Get(h, rr));
  }

  lemma SelectedKeeps(rc: Cache, h: Host, h1: Host, v: Word, r: Regs)
    requires X86(rc) && Ok(rc) && Represents(rc, h.x, h.m.c.r, r) && XSelected(h, h1, v)
    ensures Represents(rc, h1.x, h1.m.c.r, r) && h1.x[BUDGET] == h.x[BUDGET]
  {
    hide Ok, Represents;
    RepresentsFrame(rc, h.x, h1.x, h.m.c.r, r);
  }

  /** The destination is in the branch register, the guest registers as they were. */
  predicate Gone(rc: Cache, h: Host, h1: Host, r: Regs, v: Word) {
    && X86(rc) && Ok(rc) && Represents(rc, h1.x, h1.m.c.r, r)
    && h1 == h.(x := h1.x, flags := h1.flags)
    && Low(h1.x[TARGET]) == v && h1.x[BUDGET] == h.x[BUDGET]
  }

  lemma XJumpRefines(env: Env, rc: Cache, i: Ir, pc: Word, h: Host, r: Regs)
    requires X86(rc) && Ok(rc) && Represents(rc, h.x, h.m.c.r, r) && (i.op.IJump? || i.op.IJumpr?)
    ensures
      var (ops, rc1) := XGoOps(rc, i, pc);
      Gone(rc1, h, ApplyAll(env, ops, h), r, XDecided(i, pc, r[i.left], r[i.right]))
  {
    hide Ok, Represents, ApplyAll, XRead, OnlyLoaded, MovI, Apply;
    if i.op.IJump? {
      ConstantApplies(env, TARGET, JumpGoes(pc, i.value), h);
      SelectedKeeps(rc, h, ApplyAll(env, MovI(TARGET, JumpGoes(pc, i.value)), h), JumpGoes(pc, i.value), r);
    } else {
      var (lops, l, rc1) := XRead(rc, i.left, RAX);
      XOneRead(env, rc, i.left, RAX, h, r);
      var h1 := ApplyAll(env, lops, h);
      MovedTarget(env, l, h1);
      ApplyConcat(env, lops, [MovReg(TARGET, l)], h);
      SelectedKeeps(rc1, h1, ApplyAll(env, [MovReg(TARGET, l)], h1), r[i.left], r);
    }
  }

  lemma MovedTarget(env: Env, l: HReg, h: Host)
    ensures XSelected(h, ApplyAll(env, [MovReg(TARGET, l)], h), Get(h, l))
  {
    hide ApplyAll;
    Apply1(env, MovReg(TARGET, l), h);
  }

  lemma XGoRefines(env: Env, rc: Cache, i: Ir, pc: Word, h: Host, r: Regs)
    requires X86(rc) && Ok(rc) && Represents(rc, h.x, h.m.c.r, r) && IsBranch(i.op)
    ensures
      var (ops, rc1) := XGoOps(rc, i, pc);
      Gone(rc1, h, ApplyAll(env, ops, h), r, XDecided(i, pc, r[i.left], r[i.right]))
  {
    if !IsCondBranch(i.op) {
      XJumpRefines(env, rc, i, pc, h, r);
    } else {
      assert r[0] == 0 by { ZeroIsZero(rc, h.x, h.m.c.r, r); }
      hide Ok, Represents, ApplyAll, XRead, OnlyLoaded, XSelectOps, XSelected, XDecided;
      var (lops, l, rc1) := XRead(rc, i.left, RAX);
      if i.right == 0 {
        XOneRead(env, rc, i.left, RAX, h, r);
        SelectGoes(env, rc1, i, pc, l, l, h, lops, r);
      } else {
        var (rops, rr, rc2) := XRead(rc1, i.right, RDX);
        XBothReads(env, rc, i.left, i.right, RDX, h, r);
        SelectGoes(env, rc2, i, pc, l, rr, h, lops + rops, r);
      }
    }
  }

  lemma SelectGoes(env: Env, rc: Cache, i: Ir, pc: Word, l: HReg, rr: HReg, h: Host, ops: seq<HOp>, r: Regs)
    requires X86(rc) && Ok(rc) && IsCondBranch(i.op) && r[0] == 0 && l < 31 && rr < 31
    requires
      var h1 := ApplyAll(env, ops, h);
      && Represents(rc, h1.x, h1.m.c.r, r) && Scratched(h, h1)
      && Get(h1, l) == r[i.left] && (i.right != 0 ==> Get(h1, rr) == r[i.right])
    ensures Gone(rc, h, ApplyAll(env, ops + XSelectOps(i, pc, l, rr), h), r, XDecided(i, pc, r[i.left], r[i.right]))
  {
    hide Ok, Represents, ApplyAll, XSelectOps, XDecided;
    var h1 := ApplyAll(env, ops, h);
    XSelectRefines(env, i, pc, l, rr, h1);
    ApplyConcat(env, ops, XSelectOps(i, pc, l, rr), h);
    SelectedKeeps(rc, h1, ApplyAll(env, XSelectOps(i, pc, l, rr), h1), XDecided(i, pc, r[i.left], r[i.right]), r);
  }

  lemma XLinkRefines(env: Env, rc: Cache, g: Reg, v: Word, h: Host, r: Regs)
    requires X86(rc) && Ok(rc) && Represents(rc, h.x, h.m.c.r, r)
    ensures
      var (d, rc1) := WriteReg(rc, g, RAX);
      X86(rc1) && Settles(rc1, h, ApplyAll(env, MovI(d, v) + Written(rc1, g, d), h), SetReg(r, g, v))
  {
    hide Ok, Represents, ApplyAll, WriteReg, Written, MovI;
    var (d, rc1) := WriteReg(rc, g, RAX);
    WriteHostX(rc, g, RAX);
    ConstantApplies(env, d, v, h);
    XWriteSettles(env, rc, g, RAX, h, MovI(d, v), v, r);
  }

  lemma XBranchRefines(env: Env, rc: Cache, i: Ir, pc: Word, h: Host, r: Regs)
    requires X86(rc) && Ok(rc) && Represents(rc, h.x, h.m.c.r, r) && IsBranch(i.op)
    ensures
      var (ops, rc1) := XBranchCode(rc, i, pc);
      X86(rc1) && Branches(rc1, h, ApplyAll(env, ops, h), SetReg(r, i.dst, Add(pc, 8)),
                           XDecided(i, pc, r[i.left], r[i.right]))
  {
    hide Ok, Represents, ApplyAll, XGoOps, XDecided, WriteReg, Written, MovI;
    var (ops, rc1) := XGoOps(rc, i, pc);
    var h1 := ApplyAll(env, ops, h);
    XGoRefines(env, rc, i, pc, h, r);
    if i.dst != 0 {
      var (d, rc2) := WriteReg(rc1, i.dst, RAX);
      XLinkRefines(env, rc1, i.dst, Add(pc, 8), h1, r);
      ApplyConcat(env, ops, MovI(d, Add(pc, 8)) + Written(rc2, i.dst, d), h);
    }
  }

  /** In one state: the emitted branch goes where the entry says. */
  predicate BranchRightAt(i: Ir, pc: Word, l: Word, r: Word)
    requires IsBranch(i.op)
  {
    IsCondBranch(i.op) ==>
      !FlagsLost(i, pc) || Add(pc, 8) == Add(Add(pc, 4), i.value) || (Taken(i.op, l, r) <==> WhenEqual(i.op))
  }

  lemma BranchRight(i: Ir, pc: Word, l: Word, r: Word)
    requires IsBranch(i.op)
    ensures XDecided(i, pc, l, r) == Decided(i, pc, l, r) <==> BranchRightAt(i, pc, l, r)
  {
    hide Taken, WhenEqual;
  }

  lemma XBranchStep(env: Env, b: Block, k: nat, rc: Cache, h: Host, m: Machine, target: Word, budget: nat)
    requires X86(rc) && Simulates(b, k, rc, h, m, target, budget) && CanStep(b, k, m, target) && IsBranch(b.ir[k].op)
    ensures
      var i := b.ir[k];
      var (ops, rc1) := XBranchCode(rc, i, Pc(b, k));
      var goes := XDecided(i, Pc(b, k), m.c.r[i.left], m.c.r[i.right]);
      XStepResult(b, k, rc1, Fall(ApplyAll(env, ops, h)), m, XRetire(env, b, k, m), goes, budget)
  {
    hide Ok, Represents, ApplyAll, XBranchCode, XDecided, Decode;
    var i, pc := b.ir[k], Pc(b, k);
    XBranchRefines(env, rc, i, pc, h, m.c.r);
    BranchAdvances(b, k, m, target, XDecided(i, pc, m.c.r[i.left], m.c.r[i.right]));
  }

  // ------------------------------------------------------------ when it is right

  /** In one state: the step this host's code takes is the reference's. */
  predicate RightAt(b: Block, k: nat, m: Machine)
    requires k < |b.ir|
  {
    var i := b.ir[k];
    if IsBranch(i.op) then BranchRightAt(i, Pc(b, k), m.c.r[i.left], m.c.r[i.right])
    else !(SkipsAnd(i) && m.c.r[i.left] != 0)
  }

  /** The code's step is the reference's in exactly those states. */
  lemma StepExact(env: Env, b: Block, k: nat, m: Machine, target: Word)
    requires CanStep(b, k, m, target)
    ensures XRetire(env, b, k, m) == Retire(env, b.words[k], m) <==> RightAt(b, k, m)
  {
    hide Retire, Decode, XDecided, Decided, BranchRightAt, AluValue, SkipsAnd, XValue;
    var i := b.ir[k];
    assert m.c.r[0] == 0 by { BeforeZero(b, k, m, target); }
    if IsBranch(i.op) {
      RetireBranch(env, b, k, m, target);
      BranchRight(i, Pc(b, k), m.c.r[i.left], m.c.r[i.right]);
    } else if SkipsAnd(i) {
      SkippedValue(i, m.c.r[i.left], m.c.r[i.right]);
      AluRetires(env, b, k, m, target, AluValue(i.op, m.c.r[i.left], RightValue(i, m.c.r)));
      AluRightAt(i, m.c.r);
    }
  }

  /** Both destinations are non-zero, or they coincide, or the comparison is of a register
      with itself. */
  predicate BranchSafe(i: Ir, pc: Word) {
    !FlagsLost(i, pc) || Add(pc, 8) == Add(Add(pc, 4), i.value) || i.left == i.right
  }

  /** Over all register states: the emitted branch goes where the entry says exactly under
      that condition. */
  lemma BranchExact(i: Ir, pc: Word)
    requires IsCondBranch(i.op) && WellFormed(i)
    ensures (forall r: Regs :: r[0] == 0 ==>
               XDecided(i, pc, r[i.left], r[i.right]) == Decided(i, pc, r[i.left], r[i.right]))
            <==> BranchSafe(i, pc)
  {
    if BranchSafe(i, pc) {
      forall r: Regs | r[0] == 0
        ensures XDecided(i, pc, r[i.left], r[i.right]) == Decided(i, pc, r[i.left], r[i.right])
      {
        SafeBranchRight(i, pc, r);
        BranchRight(i, pc, r[i.left], r[i.right]);
      }
    } else {
      var flipped := FlippingValue(i.op);
      var zero: Regs := seq(32, _ => 0);
      var r := if i.left != 0 then zero[i.left := flipped] else zero[i.right := flipped];
      assert r[0] == 0 && (Taken(i.op, r[i.left], r[i.right]) <==> !WhenEqual(i.op));
      BranchRight(i, pc, r[i.left], r[i.right]);
    }
  }

  lemma SafeBranchRight(i: Ir, pc: Word, r: Regs)
    requires IsCondBranch(i.op) && BranchSafe(i, pc)
    ensures BranchRightAt(i, pc, r[i.left], r[i.right])
  {
  }

  /** A value whose comparison with zero goes the other way from equality's. */
  function FlippingValue(op: IrOp): Word {
    if op.IBltz? || op.IBgez? then 0xFFFF_FFFF else 1
  }

  /** A taken `beq` to address 0 from 0x100 that compares unequal registers. */
  lemma BranchToZeroExample()
    ensures
      var i := Decode(0x1022_FFBF);
      && i.op.IBeq? && i.left == 1 && i.right == 2 && !BranchSafe(i, 0x100)
      && XDecided(i, 0x100, 1, 2) == 0 && Decided(i, 0x100, 1, 2) == 0x108
  {
  }
}
