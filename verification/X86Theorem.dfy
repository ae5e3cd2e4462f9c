/** Whole blocks on x86-64. The code of every block computes exactly the run in which
    skipped ANDs copy and branches that lost their comparison go as for equal operands; it
    computes the reference run when no step of it is such a one. */
module X86Theorem {
  import opened Words
  import opened Mips
  import opened MipsIr
  import opened NativeBlock
  import opened HostCode
  import opened RegCache
  import opened A64Code
  import opened A64Proof
  import opened A64Step
  import opened Sampling
  import opened A64Helper
  import opened A64Memory
  import opened A64Block
  import opened A64Theorem
  import opened X86Code
  import opened X86Alu
  import opened X86Step
  import opened X86Memory

  // ------------------------------------------------------------ any instruction

  function XNextTarget(b: Block, k: nat, m: Machine, target: Word): Word
    requires k < |b.ir|
  {
    var i := b.ir[k];
    if IsBranch(i.op) then XDecided(i, Pc(b, k), m.c.r[i.left], m.c.r[i.right]) else target
  }

  lemma OrdinaryRetires(env: Env, b: Block, k: nat, m: Machine)
    requires k < |b.words| && |b.ir| == |b.words| && !IsBranch(b.ir[k].op) && !IsAlu(b.ir[k].op)
    ensures XRetire(env, b, k, m) == Retire(env, b.words[k], m)
  {
    hide Retire;
  }

  /** Every entry's code takes the step `XRetire`. */
  lemma XInsnStep(env: Env, b: Block, k: nat, rc: Cache, h: Host, m: Machine, target: Word, budget: nat)
    requires X86(rc) && Simulates(b, k, rc, h, m, target, budget) && CanStep(b, k, m, target)
    requires Safe(m.c.sys, |m.c.mem|) && TablesMatch(h.rd, h.wr, m.c.sys)
    ensures
      var (code, rc1) := XInsnCode(b, k, rc);
      XStepResult(b, k, rc1, Eval(env, code, h), m, XRetire(env, b, k, m), XNextTarget(b, k, m, target), budget)
  {
    hide Ok, Represents, Simulates, Retire, XRetire, XBranchCode, XMemoryCode, XTrappingCode, XHelper, XHiLoCode,
         XAluCode,
         XConstCode, ApplyAll, Safe, TablesMatch, Before, Left, XDecided, Decode, XStepResult;
    var i := b.ir[k];
    if IsBranch(i.op) {
      XBranchStep(env, b, k, rc, h, m, target, budget);
    } else if IsAlu(i.op) {
      XAluStep(env, b, k, rc, h, m, target, budget);
    } else {
      OrdinaryRetires(env, b, k, m);
      if IsAccess(i.op) {
        XMemoryStep(env, b, k, rc, h, m, target, budget);
      } else if i.op.IAddOv? || i.op.ISubOv? {
        XTrappingStep(env, b, k, rc, h, m, target, budget);
      } else if i.op.IExec? {
        XHelperRefines(env, b, k, rc, h, m, target, budget);
      } else if i.op.IMult? || i.op.IMultu? || i.op.IMthi? || i.op.IMtlo? {
        XHiLoStep(env, b, k, rc, h, m, target, budget);
      } else {
        XConstStep(env, b, k, rc, h, m, target, budget);
      }
    }
  }

  lemma XSafeAfter(env: Env, b: Block, k: nat, m: Machine, target: Word)
    requires CanStep(b, k, m, target) && Safe(m.c.sys, |m.c.mem|)
    requires !(b.ir[k].op.IExec? && b.ir[k].endsBlock)
    requires !Left(m, XRetire(env, b, k, m))
    ensures MayGoOn(m, XRetire(env, b, k, m))
  {
    hide Retire, Safe, Decode, XDecided, SkipsAnd, XValue, AluValue;
    if !IsBranch(b.ir[k].op) {
      if IsAlu(b.ir[k].op) {
        XAluRetires(env, b, k, m, target);
      } else {
        OrdinaryRetires(env, b, k, m);
        SafeAfter(env, b, k, m, target);
      }
    }
  }

  lemma XTargetChosen(b: Block, k: nat, m: Machine, target: Word)
    requires Valid(b) && k < |b.words| && TargetOk(b, k, target)
    ensures TargetOk(b, k + 1, XNextTarget(b, k, m, target))
  {
    hide Decode, Taken, FlagsLost, WhenEqual;
  }

  // ------------------------------------------------------------ the body

  /** The run this host's code makes of the block's words. */
  function XRunWords(env: Env, b: Block, k: nat, m: Machine): Trace
    requires k <= |b.words| && |b.ir| == |b.words|
    decreases |b.words| - k
  {
    if k == |b.words| then Trace(m, k, false)
    else
      var m' := XRetire(env, b, k, m);
      if Left(m, m') then Trace(m', k + 1, true) else XRunWords(env, b, k + 1, m')
  }

  lemma XFinalWriteback(env: Env, b: Block, rc: Cache, h: Host, m: Machine, target: Word, budget: nat)
    requires Valid(b) && Simulates(b, |b.words|, rc, h, m, target, budget) && Before(b, |b.words|, m, target)
    ensures
      var res := Eval(env, Ops(Writeback(rc, 1)), h);
      res.Fall? && BodyEnd(b, res.h, m, budget) && (b.branch > 0 ==> target == EndTarget(b, m))
  {
    hide Ok, Writeback, ApplyAll, Represents;
    WritebackAll(env, rc, h, m.c.r);
  }

  /** From any instruction on, the code makes that run. */
  lemma {:induction false} XBodyRefines(env: Env, b: Block, k: nat, rc: Cache, h: Host, m: Machine,
                                        target: Word, budget: nat)
    requires Valid(b) && k <= |b.words|
    requires X86(rc) && Simulates(b, k, rc, h, m, target, budget) && Before(b, k, m, target) && TargetOk(b, k, target)
    requires (k == |b.words| && NeedsCheck(b)) || (Safe(m.c.sys, |m.c.mem|) && TablesMatch(h.rd, h.wr, m.c.sys))
    ensures BodyResult(b, Eval(env, XBodyCode(b, k, rc), h), XRunWords(env, b, k, m), budget)
    decreases |b.words| - k
  {
    hide Simulates, Before, TargetOk, Safe, TablesMatch, XRetire, XInsnCode, ApplyAll, Writeback, BodyEnd, Left,
         NeedsCheck, Decode;
    if k == |b.words| {
      XFinalWriteback(env, b, rc, h, m, target, budget);
      if b.branch == 0 {
        TargetIrrelevant(b, m, target);
      }
    } else {
      assert CanStep(b, k, m, target);
      var (code, rc1) := XInsnCode(b, k, rc);
      var m' := XRetire(env, b, k, m);
      XInsnStep(env, b, k, rc, h, m, target, budget);
      if !Left(m, m') {
        var res := Eval(env, code, h);
        XTargetChosen(b, k, m, target);
        TablesKept(env, code, h);
        if b.ir[k].op.IExec? && b.ir[k].endsBlock {
          EndsOnlyLast(b, k);
        } else {
          XSafeAfter(env, b, k, m, target);
          TablesPersist(h.rd, h.wr, m.c.sys, m'.c.sys);
        }
        XBodyRefines(env, b, k + 1, rc1, res.h, m', XNextTarget(b, k, m, target), budget);
      }
    }
  }

  // ------------------------------------------------------------ the way out

  /** `h1` is `h` with machine `hm`; flags and the branch register may differ. */
  predicate XStepped(h: Host, h1: Host, hm: Machine) {
    && h1 == h.(x := h1.x, flags := h1.flags, m := hm)
    && h1.x[BUDGET] == h.x[BUDGET]
  }

  lemma XCountersRefine(env: Env, b: Block, h: Host)
    requires Valid(b)
    ensures
      var n := |b.words|;
      var h1 := ApplyAll(env, XCounterOps(b), h);
      && XStepped(h, h1, Machine(h.m.c.(curPc := Pc(b, n - 1), insns := h.m.c.insns + n, cycles := h.m.c.cycles + n),
                                 h.m.busReads + n, h.m.busWrites))
      && h1.x == h.x
  {
    hide Valid, Decode, ApplyAll;
    assert 0 < |b.words| by { ValidLength(b); }
    var n := |b.words|;
    var first: HOp := Two(XStoreField(FCurPc, Pc(b, n - 1)));
    var rest: seq<HOp> := [Two(XAddCounter(CInsns, n)), Two(XAddCounter(CCycles, n)), Two(XAddCounter(CReads, n))];
    assert XCounterOps(b) == [first] + rest;
    ApplyConcat(env, [first], rest, h);
    Apply1(env, first, h);
    XCountsUp(env, n, ApplyAll(env, [first], h));
  }

  lemma XCountsUp(env: Env, n: nat, h: Host)
    ensures
      var ops := [Two(XAddCounter(CInsns, n)), Two(XAddCounter(CCycles, n)), Two(XAddCounter(CReads, n))];
      var h1 := ApplyAll(env, ops, h);
      && XStepped(h, h1, Machine(h.m.c.(insns := h.m.c.insns + n, cycles := h.m.c.cycles + n),
                                 h.m.busReads + n, h.m.busWrites))
      && h1.x == h.x
  {
    hide ApplyAll;
    Apply3(env, Two(XAddCounter(CInsns, n)), Two(XAddCounter(CCycles, n)), Two(XAddCounter(CReads, n)), h);
  }

  lemma XStraightPc(env: Env, b: Block, h: Host)
    requires b.branch == 0
    ensures XStepped(h, ApplyAll(env, XPcOps(b), h),
                     h.m.(c := h.m.c.(pc := Pc(b, |b.words|), nextPc := Add(Pc(b, |b.words|), 4))))
  {
    hide ApplyAll, Pc, Add;
    var next := Pc(b, |b.words|);
    Apply2(env, Two(XStoreField(FPc, next)), Two(XStoreField(FNextPc, Add(next, 4))), h);
  }

  lemma XDelayPc(env: Env, b: Block, h: Host)
    requires b.branch > 0 && b.delay
    ensures
      var h1 := ApplyAll(env, XPcOps(b), h);
      var target := Low(h.x[TARGET]);
      && XStepped(h, h1, h.m.(c := h.m.c.(inDelay := true, pc := target, nextPc := Add(target, 4))))
      && h1.x[TARGET] == W(Add(target, 4))
  {
    hide ApplyAll, Add;
    var first: seq<HOp> := [Two(XStoreLatch(LInDelay, true)), StField(TARGET, FPc)];
    var second: seq<HOp> := [Two(XAluImm(AluAdd, TARGET, 4)), StField(TARGET, FNextPc)];
    assert XPcOps(b) == first + second;
    ApplyConcat(env, first, second, h);
    Apply2(env, first[0], first[1], h);
    XNextPc(env, ApplyAll(env, first, h));
  }

  lemma XNextPc(env: Env, h: Host)
    ensures
      var h1 := ApplyAll(env, [Two(XAluImm(AluAdd, TARGET, 4)), StField(TARGET, FNextPc)], h);
      var next := Add(Low(h.x[TARGET]), 4);
      h1 == h.(x := h.x[TARGET := W(next)], flags := h1.flags, m := h.m.(c := h.m.c.(nextPc := next)))
  {
    hide ApplyAll, Add, XFlags;
    Apply2(env, Two(XAluImm(AluAdd, TARGET, 4)), StField(TARGET, FNextPc), h);
  }

  lemma XPendingPc(env: Env, b: Block, h: Host)
    requires b.branch > 0 && !b.delay
    ensures XStepped(h, ApplyAll(env, XPcOps(b), h),
                     h.m.(c := h.m.c.(branchPending := true, pc := Pc(b, |b.words|), nextPc := Low(h.x[TARGET]))))
  {
    hide ApplyAll, Pc;
    var ops := XPcOps(b);
    Apply3(env, ops[0], ops[1], ops[2], h);
  }

  /** Counters and pipeline registers: the host structure becomes the machine of the run. */
  lemma XSettleUp(env: Env, b: Block, h: Host, m: Machine, budget: nat)
    requires Valid(b) && BodyEnd(b, h, m, budget) && Before(b, |b.words|, m, EndTarget(b, m))
    ensures
      var h1 := ApplyAll(env, XCounterOps(b) + XPcOps(b), h);
      XStepped(h, h1, m) && (b.branch > 0 && b.delay ==> h1.x[TARGET] == W(Add(EndTarget(b, m), 4)))
  {
    hide ApplyAll, XCounterOps, XPcOps, Decode;
    var h1 := ApplyAll(env, XCounterOps(b), h);
    XCountersRefine(env, b, h);
    ApplyConcat(env, XCounterOps(b), XPcOps(b), h);
    PcNext(b, |b.words|);
    if b.branch == 0 {
      XStraightPc(env, b, h1);
    } else if b.delay {
      XDelayPc(env, b, h1);
    } else {
      XPendingPc(env, b, h1);
    }
  }

  lemma AddCancels(a: Word, b: Word)
    ensures Add(a, 4) == Add(b, 4) <==> a == b
    ensures Sub(Add(a, 4), 4) == a
  {
  }

  lemma GoalPlus4(pc: Word, v: Word)
    ensures Add(Add(pc, 8), v) == Add(Add(Add(pc, 4), v), 4)
  {
    WrapsOnce(pc + 8, v);
    WrapsOnce(pc + 4, v);
    WrapsOnce(pc + 4 + v, 4);
  }

  lemma WrapsOnce(a: int, b: int)
    ensures Wrap(Wrap(a) + b) == Wrap(a + b)
  {
    var q, s := a / TWO32, Wrap(a) + b;
    assert TWO32 * (q + s / TWO32) == TWO32 * q + TWO32 * (s / TWO32);
    ModUnique(a + b, TWO32, q + s / TWO32, s % TWO32);
  }

  /** The two arms of a conditional branch compare the destination plus 4. */
  lemma XArmsRefine(env: Env, b: Block, h: Host, m: Machine)
    requires Valid(b) && b.branch > 0 && b.delay && !NeedsCheck(b) && IsCondBranch(b.ir[b.branch - 1].op)
    requires h.x[TARGET] == W(Add(m.c.pc, 4))
    ensures
      var res := Eval(env, XEndCode(b), h);
      res.Out? && res.exit == EndExit(b, m) && res.h == h.(x := res.h.x, flags := res.h.flags) && res.h.x == h.x
  {
    assert 0 < |b.words| <= MAX_INSNS && |b.ir| == |b.words| && b.branch <= |b.words| by { ValidLength(b); }
    hide Decode, ApplyAll, Valid, Add, NeedsCheck;
    var br, pc := b.ir[b.branch - 1], Pc(b, b.branch - 1);
    GoalPlus4(pc, br.value);
    AddCancels(m.c.pc, Add(Add(pc, 4), br.value));
    ArmsGo(env, Add(m.c.pc, 4), Add(Add(pc, 8), br.value), h);
  }

  lemma ArmsGo(env: Env, v: Word, goal: Word, h: Host)
    requires h.x[TARGET] == W(v)
    ensures
      var code := Then(Ops([CmpImm(TARGET, goal)]), Then(ExitIf(OnFlags(EQ), Link(0)), Exits(Link(1))));
      var res := Eval(env, code, h);
      && res == Out(if v == goal then Link(0) else Link(1), res.h)
      && res.h == h.(flags := res.h.flags)
  {
    hide ApplyAll, FlagsOf;
    var cmp: HOp := CmpImm(TARGET, goal);
    var h1 := ApplyAll(env, [cmp], h);
    Apply1(env, cmp, h);
    Compares(v, goal);
    assert Eval(env, Ops([cmp]), h) == Fall(h1);
    var arms := Then(ExitIf(OnFlags(EQ), Link(0)), Exits(Link(1)));
    assert Eval(env, ExitIf(OnFlags(EQ), Link(0)), h1) ==
           if Passes(h1, OnFlags(EQ)) then Out(Link(0), h1) else Fall(h1);
    assert Eval(env, arms, h1) == Out(if Passes(h1, OnFlags(EQ)) then Link(0) else Link(1), h1);
    assert Eval(env, Then(Ops([cmp]), arms), h) == Eval(env, arms, h1);
  }

  /** A register jump restores its destination before the search. */
  lemma XSearchRefines(env: Env, b: Block, h: Host, m: Machine)
    requires Valid(b) && b.branch > 0 && b.delay && !NeedsCheck(b) && b.ir[b.branch - 1].op.IJumpr?
    requires h.x[TARGET] == W(Add(m.c.pc, 4))
    ensures
      var res := Eval(env, XEndCode(b), h);
      res.Out? && res.exit == Search && res.h == h.(x := res.h.x, flags := res.h.flags)
      && res.h.x[BUDGET] == h.x[BUDGET] && Low(res.h.x[TARGET]) == m.c.pc
  {
    assert 0 < |b.words| <= MAX_INSNS && |b.ir| == |b.words| && b.branch <= |b.words| by { ValidLength(b); }
    hide Decode, ApplyAll, Valid, XFlags;
    var op: HOp := Two(XAluImm(AluSub, TARGET, 4));
    Apply1(env, op, h);
    AddCancels(m.c.pc, m.c.pc);
    assert XEndCode(b) == Then(Ops([op]), Exits(Search));
    assert Eval(env, Ops([op]), h) == Fall(ApplyAll(env, [op], h));
  }

  lemma XEndRefines(env: Env, b: Block, h: Host, m: Machine, budget: nat)
    requires Valid(b)
    requires h.m == m && !h.fault && h.x[BUDGET] == W(Wrap(budget))
    requires b.branch > 0 && b.delay ==> h.x[TARGET] == W(Add(m.c.pc, 4))
    ensures Finished(b, Eval(env, XEndCode(b), h), m, budget)
  {
    hide Decode, ApplyAll, Add;
    if b.branch > 0 && b.delay && !NeedsCheck(b) {
      if IsCondBranch(b.ir[b.branch - 1].op) {
        XArmsRefine(env, b, h, m);
      } else if b.ir[b.branch - 1].op.IJumpr? {
        XSearchRefines(env, b, h, m);
      }
    } else {
      assert XEndCode(b).Exits?;
    }
  }

  lemma XTailRefines(env: Env, b: Block, h: Host, m: Machine, budget: nat)
    requires Valid(b) && BodyEnd(b, h, m, budget)
    requires Before(b, |b.words|, m, EndTarget(b, m)) && TargetOk(b, |b.words|, EndTarget(b, m))
    ensures Finished(b, Eval(env, XTailCode(b), h), m, budget)
  {
    assert 0 < |b.words| <= MAX_INSNS && |b.ir| == |b.words| && b.branch <= |b.words| by { ValidLength(b); }
    hide Valid, Before, TargetOk, ApplyAll, XCounterOps, XPcOps, XEndCode, EndExit, Lags, Add;
    XSettleUp(env, b, h, m, budget);
    XEndRefines(env, b, ApplyAll(env, XCounterOps(b) + XPcOps(b), h), m, budget);
  }

  // ------------------------------------------------------------ the way in

  lemma WordRefines(env: Env, b: Block, k: nat, h: Host)
    requires k < |b.words| && b.guest + 4 * |b.words| <= |h.m.c.mem|
    ensures
      var res := Eval(env, XWordCode(b, k), h);
      && res.h.m == h.m && res.h.fault == h.fault && res.h.x == h.x
      && (if LoadBE(h.m.c.mem, b.guest + 4 * k, 4) == b.words[k] then res.Fall? else res.Out? && res.exit.Stale?)
  {
    hide LoadLE, LoadBE, Reverse, ApplyAll, FlagsOf;
    var op: HOp := Two(XCmpGuest(b.guest + 4 * k, Reverse(b.words[k])));
    Apply1(env, op, h);
    OpsThenExit(env, [op], OnFlags(NE), Stale, h);
    Compares(LoadLE(h.m.c.mem, b.guest + 4 * k, 4), Reverse(b.words[k]));
    GuardWord(h.m.c.mem, b.guest + 4 * k, b.words[k]);
  }

  /** The guard falls through exactly when every word still matches. */
  lemma {:induction false} XGuardRefines(env: Env, b: Block, k: nat, h: Host)
    requires k <= |b.words| && b.guest + 4 * |b.words| <= |h.m.c.mem|
    ensures
      var res := Eval(env, XGuardCode(b, k), h);
      && res.h.m == h.m && res.h.fault == h.fault && res.h.x == h.x
      && (if GuardHolds(b, k, h.m.c.mem) then res.Fall? else res.Out? && res.exit.Stale?)
    decreases |b.words| - k
  {
    hide LoadBE, XWordCode, ApplyAll;
    if k == |b.words| {
      ApplyNone(env, h);
    } else {
      WordRefines(env, b, k, h);
      var res := Eval(env, XWordCode(b, k), h);
      if res.Fall? {
        XGuardRefines(env, b, k + 1, res.h);
      }
      assert GuardHolds(b, k, h.m.c.mem) <==>
             LoadBE(h.m.c.mem, b.guest + 4 * k, 4) == b.words[k] && GuardHolds(b, k + 1, h.m.c.mem);
    }
  }

  lemma XClaimTakes(env: Env, n: nat, h: Host)
    requires n <= MAX_INSNS
    ensures
      var h1 := ApplyAll(env, [Two(XAluImm(AluSub, BUDGET, n)), Two(XStoreLatch(LInDelay, false))], h);
      && h1.fault == h.fault && h1.m == h.m.(c := h.m.c.(inDelay := false))
      && h1.x[BUDGET] == W(Sub(Low(h.x[BUDGET]), n))
  {
    hide ApplyAll, XFlags;
    Apply2(env, Two(XAluImm(AluSub, BUDGET, n)), Two(XStoreLatch(LInDelay, false)), h);
  }

  /** The budget is claimed whole or not at all. */
  lemma XClaimRefines(env: Env, b: Block, h: Host, budget: Word)
    requires 0 < |b.words| <= MAX_INSNS && h.x[BUDGET] == W(budget)
    ensures
      var res := Eval(env, XClaimCode(b), h);
      && res.h.fault == h.fault
      && (if budget < |b.words| then
            res.Out? && res.exit.Budget? && res.h.m == h.m && res.h.x[BUDGET] == h.x[BUDGET]
          else
            res.Fall? && res.h.m == h.m.(c := h.m.c.(inDelay := false))
            && res.h.x[BUDGET] == W(Sub(budget, |b.words|)))
  {
    hide ApplyAll, FlagsOf;
    var n := |b.words|;
    var h1 := Apply(env, CmpImm(BUDGET, n), h);
    Apply1(env, CmpImm(BUDGET, n), h);
    XClaimTakes(env, n, h1);
    var claim: seq<HOp> := [Two(XAluImm(AluSub, BUDGET, n)), Two(XStoreLatch(LInDelay, false))];
    assert Eval(env, Ops([CmpImm(BUDGET, n)]), h) == Fall(h1);
    assert Eval(env, Then(ExitIf(OnFlags(CC), Budget), Ops(claim)), h1) ==
           if Passes(h1, OnFlags(CC)) then Out(Budget, h1) else Fall(ApplyAll(env, claim, h1));
    Compares(budget, n);
  }

  // ------------------------------------------------------------ the theorem

  lemma XEntrySim(b: Block, h: Host, m: Machine, budget: nat)
    requires Valid(b) && AtEntry(b, m) && !h.fault
    requires budget + |b.words| < TWO32
    requires h.m == m.(c := m.c.(inDelay := false)) && h.x[BUDGET] == W(budget)
    ensures Simulates(b, 0, XEmpty(), h, m, 0, budget) && Before(b, 0, m, 0) && TargetOk(b, 0, 0) && X86(XEmpty())
  {
    hide Ok, Decode;
    XEmptyOk();
    XEmptyRepresents(h.x, m.c.r);
    PcNext(b, 0);
  }

  lemma {:induction false} XRetiredBound(env: Env, b: Block, k: nat, m: Machine)
    requires k <= |b.words| && |b.ir| == |b.words|
    ensures k <= XRunWords(env, b, k, m).retired <= |b.words|
    ensures XRunWords(env, b, k, m).left ==> k < XRunWords(env, b, k, m).retired
    decreases |b.words| - k
  {
    hide XRetire;
    if k < |b.words| && !Left(m, XRetire(env, b, k, m)) {
      XRetiredBound(env, b, k + 1, XRetire(env, b, k, m));
    }
  }

  lemma XEntryReady(b: Block)
    requires Valid(b)
    ensures 0 < |b.words| <= MAX_INSNS && |b.ir| == |b.words| && b.branch <= |b.words| && X86(XEmpty())
  {
    ValidLength(b);
    XEmptyOk();
  }

  /** The code of every block computes that run, exit and budget included. */
  lemma XBlockComputes(env: Env, b: Block, h: Host, m: Machine, budget: Word)
    requires Valid(b) && AtEntry(b, m) && EntryHost(b, h, m, budget)
    ensures BlockMatches(b, Eval(env, XBlockCode(b), h), m, budget, XRunWords(env, b, 0, m))
  {
    hide Valid, Safe, TablesMatch, XGuardCode, XClaimCode, XBodyCode, XTailCode, Simulates, Before, TargetOk, Finished,
         GuardHolds, BodyEnd, XRunWords, NeedsCheck, XEmpty;
    XEntryReady(b);
    XGuardRefines(env, b, 0, h);
    if GuardHolds(b, 0, m.c.mem) {
      var h1 := Eval(env, XGuardCode(b, 0), h).h;
      XClaimRefines(env, b, h1, budget);
      if |b.words| <= budget {
        var h2 := Eval(env, XClaimCode(b), h1).h;
        TablesKept(env, XGuardCode(b, 0), h);
        TablesKept(env, XClaimCode(b), h1);
        XEntrySim(b, h2, m, budget - |b.words|);
        XBodyRefines(env, b, 0, XEmpty(), h2, m, 0, budget - |b.words|);
        XRetiredBound(env, b, 0, m);
        var t := XRunWords(env, b, 0, m);
        if !t.left {
          XTailRefines(env, b, Eval(env, XBodyCode(b, 0, XEmpty()), h2).h, t.m, budget - |b.words|);
        }
      }
    }
  }

  // ------------------------------------------------------------ when it is the reference

  /** Every step of the reference run is one whose code is right. */
  predicate RightRun(env: Env, b: Block, k: nat, m: Machine)
    requires k <= |b.words| && |b.ir| == |b.words|
    decreases |b.words| - k
  {
    k < |b.words| ==>
      RightAt(b, k, m)
      && var m' := Retire(env, b.words[k], m);
         (Left(m, m') || RightRun(env, b, k + 1, m'))
  }

  /** A step that does not leave the line stands before the next instruction. */
  lemma StepGoesOn(env: Env, b: Block, k: nat, m: Machine, target: Word)
    requires CanStep(b, k, m, target) && !Left(m, Retire(env, b.words[k], m))
    ensures Before(b, k + 1, Retire(env, b.words[k], m), NextTarget(b, k, m, target))
  {
    hide Exec, Decode, Decided, Left;
    var i := b.ir[k];
    if IsBranch(i.op) {
      RetireBranch(env, b, k, m, target);
      BranchAdvances(b, k, m, target, NextTarget(b, k, m, target));
    } else {
      LineGoesOn(env, b, k, m, target);
    }
  }

  lemma LineGoesOn(env: Env, b: Block, k: nat, m: Machine, target: Word)
    requires CanStep(b, k, m, target) && !IsBranch(b.ir[k].op) && !Left(m, Retire(env, b.words[k], m))
    ensures Before(b, k + 1, Retire(env, b.words[k], m), target)
  {
    hide Exec, Decode, IrExec;
    var c := Advance(m.c);
    PcNext(b, k);
    PcNext(b, k + 1);
    if NeedsHelper(b, k) {
      HelperKeeps(env, b.words[k], c);
    } else {
      DecodePreserves(env, b.words[k], c);
      PlainLine(env, b.ir[k], c);
    }
  }

  lemma PlainLine(env: Env, i: Ir, c: Cpu)
    requires WellFormed(i) && !IsBranch(i.op)
    requires !(i.op.IExec? || IsAccess(i.op) || i.op.IAddOv? || i.op.ISubOv?)
    ensures
      var e := IrExec(env, i, c).c;
      e.pc == c.pc && e.nextPc == c.nextPc && e.curPc == c.curPc && e.branchPending == c.branchPending
      && e.inDelay == c.inDelay && e.sys == c.sys
  {
    hide AluValue, Product;
  }

  /** Then the two runs are the same. */
  lemma {:induction false} RightRunsAgree(env: Env, b: Block, k: nat, m: Machine, target: Word)
    requires Valid(b) && k <= |b.words| && Before(b, k, m, target) && RightRun(env, b, k, m)
    ensures XRunWords(env, b, k, m) == RunWords(env, b, k, m)
    decreases |b.words| - k
  {
    hide Valid, Retire, XRetire, Before, Left, RightAt;
    assert |b.ir| == |b.words| by { ValidLength(b); }
    if k < |b.words| {
      StepExact(env, b, k, m, target);
      var m' := Retire(env, b.words[k], m);
      if !Left(m, m') {
        StepGoesOn(env, b, k, m, target);
        RightRunsAgree(env, b, k + 1, m', NextTarget(b, k, m, target));
      }
    }
  }

  /** Block translation preserves meaning on x86-64 too, along every run of right steps. */
  lemma XBlockRefines(env: Env, b: Block, h: Host, m: Machine, budget: Word)
    requires Valid(b) && AtEntry(b, m) && EntryHost(b, h, m, budget)
    requires |b.ir| == |b.words| && RightRun(env, b, 0, m)
    ensures BlockResult(env, b, Eval(env, XBlockCode(b), h), m, budget)
  {
    hide Valid, Safe, RightRun, XRunWords, RunWords, XBlockCode, BlockMatches, EntryHost;
    XBlockComputes(env, b, h, m, budget);
    assert Before(b, 0, m, 0) by { EntryBefore(b, m); }
    RightRunsAgree(env, b, 0, m, 0);
  }

  lemma EntryBefore(b: Block, m: Machine)
    requires Valid(b) && AtEntry(b, m)
    ensures Before(b, 0, m, 0)
  {
    hide Decode;
    PcNext(b, 0);
  }

  /** Conversely a block whose run ends in another machine than the reference's is wrong:
      its code, entered with live words and enough budget, leaves that other machine. */
  lemma XBlockWrong(env: Env, b: Block, h: Host, m: Machine, budget: Word)
    requires Valid(b) && AtEntry(b, m) && EntryHost(b, h, m, budget)
    requires |b.ir| == |b.words| && GuardHolds(b, 0, m.c.mem) && |b.words| <= budget
    requires XRunWords(env, b, 0, m).m != RunWords(env, b, 0, m).m
    ensures Eval(env, XBlockCode(b), h).h.m == XRunWords(env, b, 0, m).m
    ensures !BlockResult(env, b, Eval(env, XBlockCode(b), h), m, budget)
  {
    hide Valid, AtEntry, EntryHost, XRunWords, RunWords, XBlockCode, GuardHolds, Before, TargetOk, Safe, NeedsCheck;
    XBlockComputes(env, b, h, m, budget);
  }

  /** A block none of whose entries can go wrong, told from its instructions alone. */
  predicate Sound(b: Block) {
    forall k :: 0 <= k < |b.ir| ==>
      !SkipsAnd(b.ir[k]) && (IsCondBranch(b.ir[k].op) ==> BranchSafe(b.ir[k], Pc(b, k)))
  }

  lemma SoundRightAt(b: Block, k: nat, m: Machine)
    requires Sound(b) && k < |b.ir|
    ensures RightAt(b, k, m)
  {
    if IsCondBranch(b.ir[k].op) {
      SafeBranchRight(b.ir[k], Pc(b, k), m.c.r);
    }
  }

  lemma {:induction false} SoundRuns(env: Env, b: Block, k: nat, m: Machine)
    requires Sound(b) && k <= |b.words| && |b.ir| == |b.words|
    ensures RightRun(env, b, k, m)
    decreases |b.words| - k
  {
    hide Sound, RightAt, Retire, Left;
    if k < |b.words| {
      SoundRightAt(b, k, m);
      SoundRuns(env, b, k + 1, Retire(env, b.words[k], m));
    }
  }

  /** For the code as it is laid out: a sound block gives the reference's state, exit and
      budget from every entry state. */
  lemma XFlatBlockRefines(env: Env, b: Block, rest: seq<Insn>, h: Host, m: Machine, budget: Word)
    requires Valid(b) && AtEntry(b, m) && EntryHost(b, h, m, budget) && Sound(b)
    ensures BlockResult(env, b, Run(env, Flatten(XBlockCode(b)) + rest, h), m, budget)
  {
    XEntryReady(b);
    SoundRuns(env, b, 0, m);
    XBlockRefines(env, b, h, m, budget);
    hide Valid, AtEntry, EntryHost, XBlockCode, Flatten, Run, BlockMatches, RunWords, Sound;
    FlattenRuns(env, XBlockCode(b), rest, h);
    assert BlockMatches(b, Eval(env, XBlockCode(b), h), m, budget, RunWords(env, b, 0, m));
    OutRuns(env, b, Eval(env, XBlockCode(b), h), rest, m, budget, RunWords(env, b, 0, m));
  }

  /** A block always leaves, so what follows its code does not matter. */
  lemma OutRuns(env: Env, b: Block, res: Result, rest: seq<Insn>, m: Machine, budget: Word, t: Trace)
    requires Valid(b) && b.guest + 4 * |b.words| <= |m.c.mem| && BlockMatches(b, res, m, budget, t)
    ensures Continue(env, res, rest) == res
  {
    hide Valid, GuardHolds, Before, TargetOk, Safe, NeedsCheck, EndExit;
  }

  /** A one-instruction block of the skipped kind: r2 ends up as r1 instead of 0. */
  lemma SkippedAndBlock(env: Env, b: Block, m: Machine)
    requires Valid(b) && b.words == [0x3022_0000] && Before(b, 0, m, 0)
    ensures |b.ir| == 1 && XRunWords(env, b, 0, m).m.c.r[2] == m.c.r[1]
    ensures RunWords(env, b, 0, m).m.c.r[2] == 0
  {
    ValidLength(b);
    SkippedAndExample();
    assert b.ir[0] == Decode(b.words[0]);
    SkippedRetires(env, b, m);
  }

  lemma SkippedRetires(env: Env, b: Block, m: Machine)
    requires CanStep(b, 0, m, 0) && |b.ir| == |b.words| == 1
    requires SkipsAnd(b.ir[0]) && b.ir[0].dst == 2 && b.ir[0].left == 1
    ensures XRunWords(env, b, 0, m).m.c.r[2] == m.c.r[1] && RunWords(env, b, 0, m).m.c.r[2] == 0
  {
    hide Retire, Decode, Left, Valid, Before;
    var i := b.ir[0];
    assert AluValue(i.op, m.c.r[1], RightValue(i, m.c.r)) == 0 by { BitAndZero(m.c.r[1]); }
    AluRetires(env, b, 0, m, 0, 0);
  }
}
