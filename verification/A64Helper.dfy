/** Helper calls and the entries that may need one: the helper runs the reference on the
    reference's own state, leaves the block exactly when the reference leaves the line,
    and otherwise rejoins with nothing cached or with the fast path's registers live. */
module A64Helper {
  import opened Words
  import opened BusMap
  import opened Mips
  import opened MipsIr
  import opened NativeBlock
  import opened HostCode
  import opened RegCache
  import opened A64Code
  import opened A64Proof
  import opened A64Step
  import opened Sampling

  function HelperCall(env: Env, b: Block, k: nat, hm: Machine, target: Word): (bool, Machine)
    requires k < |b.words|
  {
    if InDelaySlot(b, k) then JitExecDelay(env, hm, b.words[k], Pc(b, k), k, target)
    else JitExec(env, hm, b.words[k], Pc(b, k), k)
  }

  predicate NeedsHelper(b: Block, k: nat)
    requires k < |b.ir|
  {
    var op := b.ir[k].op;
    op.IExec? || IsAccess(op) || op.IAddOv? || op.ISubOv?
  }

  /** The pipeline state a helper sets up is the one the reference step sets up. */
  lemma CallSetsUp(b: Block, k: nat, hm: Machine, m: Machine, target: Word)
    requires CanStep(b, k, m, target) && NeedsHelper(b, k)
    requires Lags(hm, m, k) && hm.c.r == m.c.r && !hm.c.branchPending && !hm.c.inDelay
    ensures
      var pc := Pc(b, k);
      Advance(m.c) ==
      if InDelaySlot(b, k) then
        hm.c.(curPc := pc, inDelay := true, pc := target, nextPc := Add(target, 4),
              insns := hm.c.insns + k, cycles := hm.c.cycles + k)
      else
        hm.c.(curPc := pc, pc := Add(pc, 4), nextPc := Add(pc, 8),
              insns := hm.c.insns + k, cycles := hm.c.cycles + k)
  {
    PcNext(b, k);
    PcNext(b, k + 1);
    assert !IsBranch(b.ir[k].op);
  }

  /** The result of a helper call against one reference step. */
  lemma CallMatches(env: Env, b: Block, k: nat, hm: Machine, m: Machine, target: Word)
    requires CanStep(b, k, m, target) && NeedsHelper(b, k)
    requires Lags(hm, m, k) && hm.c.r == m.c.r && !hm.c.branchPending && !hm.c.inDelay
    ensures
      var (leave, hm') := HelperCall(env, b, k, hm, target);
      var m' := Retire(env, b.words[k], m);
      && leave == Left(m, m')
      && (leave ==> hm' == m')
      && (!leave ==> Lags(hm', m', k + 1) && hm'.c.r == m'.c.r && !hm'.c.branchPending
                     && (hm'.c.inDelay ==> InDelaySlot(b, k)) && Before(b, k + 1, m', target))
  {
    hide Exec, Decode;
    var c := Advance(m.c);
    CallSetsUp(b, k, hm, m, target);
    HelperKeeps(env, b.words[k], c);
    var e := Exec(env, b.words[k], c);
    PcNext(b, k);
    PcNext(b, k + 1);
    assert !IsBranch(b.ir[k].op);
    assert e.c.branchPending == false;
    var m' := Retire(env, b.words[k], m);
    var (leave, hm') := HelperCall(env, b, k, hm, target);
    assert leave == Left(m, m');
    if !leave {
      assert e.c.nextPc == c.nextPc;
    }
  }

  /** Arguments in place, guest registers written back. */
  lemma ArgsRefine(env: Env, b: Block, k: nat, h: Host)
    requires k < |b.words|
    ensures
      var h1 := ApplyAll(env, ArgOps(b, k), h);
      && h1 == h.(x := h1.x)
      && Get(h1, 1) == b.words[k] && Get(h1, 2) == Pc(b, k) && Get(h1, 3) == Wrap(k)
      && (InDelaySlot(b, k) ==> Get(h1, 4) == Low(h.x[TARGET]))
      && (forall j :: 18 < j < 32 ==> h1.x[j] == h.x[j])
  {
    var first := [MovReg(0, 19), MovImm(1, b.words[k])];
    var second := [MovImm(2, Pc(b, k)), MovImm(3, Wrap(k))];
    var third: seq<HOp> := if InDelaySlot(b, k) then [MovReg(4, TARGET)] else [];
    assert ArgOps(b, k) == first + second + third;
    ApplyConcat(env, first + second, third, h);
    ApplyConcat(env, first, second, h);
    Apply2(env, MovReg(0, 19), MovImm(1, b.words[k]), h);
    Apply2(env, MovImm(2, Pc(b, k)), MovImm(3, Wrap(k)), ApplyAll(env, first, h));
    if InDelaySlot(b, k) {
      Apply1(env, MovReg(4, TARGET), ApplyAll(env, first + second, h));
    }
  }

  lemma CallDoes(env: Env, b: Block, k: nat, h: Host, target: Word)
    requires k < |b.words| <= MAX_INSNS
    requires Get(h, 1) == b.words[k] && Get(h, 2) == Pc(b, k) && Get(h, 3) == k
    requires InDelaySlot(b, k) ==> Get(h, 4) == target
    ensures
      var h1 := ApplyAll(env, [Call(InDelaySlot(b, k))], h);
      var (leave, hm') := HelperCall(env, b, k, h.m, target);
      && h1.m == hm' && h1.x[0] == W(Flag(leave)) && h1.fault == h.fault
      && forall j :: 18 < j < 32 ==> h1.x[j] == h.x[j]
  {
    hide JitExec, JitExecDelay, ApplyAll, Pc;
    Apply1(env, Call(InDelaySlot(b, k)), h);
  }

  /** Writeback and call together. */
  lemma CallRefines(env: Env, b: Block, k: nat, rc: Cache, h: Host, m: Machine, target: Word, budget: nat)
    requires Sim(b, k, rc, h, m, target, budget) && CanStep(b, k, m, target) && NeedsHelper(b, k)
    ensures
      var h1 := ApplyAll(env, Writeback(rc, 1) + CallOps(b, k), h);
      var (leave, hm') := HelperCall(env, b, k, h.m.(c := h.m.c.(r := m.c.r)), target);
      && h1.m == hm' && h1.x[0] == W(Flag(leave)) && !h1.fault
      && h1.x[TARGET] == h.x[TARGET] && h1.x[BUDGET] == h.x[BUDGET]
  {
    hide Exec, Finish, Ok, Represents, ArgOps, Writeback, ApplyAll, JitExec, JitExecDelay, HelperCall;
    var ops := ArgOps(b, k);
    var h0 := ApplyAll(env, Writeback(rc, 1), h);
    WritebackAll(env, rc, h, m.c.r);
    ArgsRefine(env, b, k, h0);
    var h1 := ApplyAll(env, ops, h0);
    ApplyConcat(env, Writeback(rc, 1), CallOps(b, k), h);
    ApplyConcat(env, ops, [Call(InDelaySlot(b, k))], h0);
    assert Wrap(k) == k;
    CallDoes(env, b, k, h1, target);
    if InDelaySlot(b, k) {
      assert !IsBranch(b.ir[k].op);
    }
  }

  lemma WritebackAll(env: Env, rc: Cache, h: Host, r: Regs)
    requires Ok(rc) && Represents(rc, h.x, h.m.c.r, r)
    ensures ApplyAll(env, Writeback(rc, 1), h) == WithCpu(h, h.m.c.(r := r))
  {
    WritebackRefines(env, rc, 1, h, r);
  }

  lemma EmptyRepresents(x: Vals, r: Regs)
    requires r[0] == 0
    ensures Represents(Empty(), x, r, r)
  {
    EmptyOk();
  }

  /** What native code does against one reference step: exit exactly when the reference
      leaves, with the whole state equal and the unspent budget handed back. */
  predicate StepResult(b: Block, k: nat, rc: Cache, res: Result, m: Machine, m': Machine,
                       target: Word, budget: nat)
    requires k < |b.words|
  {
    if Left(m, m') then LeavesAfter(b, k, res, m', budget)
    else res.Fall? && Sim(b, k + 1, rc, res.h, m', target, budget) && Before(b, k + 1, m', target)
  }

  predicate LeavesAfter(b: Block, k: nat, res: Result, m': Machine, budget: nat) {
    res.Out? && res.exit == Done && res.h.m == m' && !res.h.fault
    && res.h.x[BUDGET] == W(Wrap(budget + |b.words| - (k + 1)))
  }

  lemma ExitRefines(env: Env, n: nat, retired: nat, h: Host, budget: nat)
    requires retired <= n && budget + n < TWO32 && h.x[BUDGET] == W(budget)
    ensures
      var res := Eval(env, ExitBlock(n, retired), h);
      res.Out? && res.exit == Done && res.h.m == h.m && res.h.fault == h.fault
      && res.h.x[BUDGET] == W(Wrap(budget + n - retired))
  {
    if n != retired {
      var ops := AddImm32(BUDGET, BUDGET, Wrap(n - retired));
      AddImm32Computes(env, BUDGET, BUDGET, Wrap(n - retired), h);
      if |ops| == 1 {
        Apply1(env, ops[0], h);
      } else {
        Apply2(env, ops[0], ops[1], h);
      }
    }
  }

  lemma HelperRefines(env: Env, b: Block, k: nat, rc: Cache, h: Host, m: Machine, target: Word, budget: nat)
    requires Sim(b, k, rc, h, m, target, budget) && CanStep(b, k, m, target) && NeedsHelper(b, k)
    ensures StepResult(b, k, Empty(), Eval(env, Helper(b, k, rc), h), m, Retire(env, b.words[k], m), target, budget)
  {
    hide Exec, Ok, CallOps, Writeback, ApplyAll, Retire, HelperCall, ExitBlock, Represents, Before, Left;
    var hm := h.m.(c := h.m.c.(r := m.c.r));
    var h1 := ApplyAll(env, Writeback(rc, 1) + CallOps(b, k), h);
    var m' := Retire(env, b.words[k], m);
    CallRefines(env, b, k, rc, h, m, target, budget);
    CallMatches(env, b, k, hm, m, target);
    EmptyOk();
    if Left(m, m') {
      ExitRefines(env, |b.words|, k + 1, h1, budget);
    } else {
      assert m'.c.r[0] == 0 by {
        assert Before(b, k + 1, m', target);
        BeforeZero(b, k + 1, m', target);
      }
      EmptyRepresents(h1.x, m'.c.r);
    }
  }

  lemma BeforeZero(b: Block, k: nat, m: Machine, target: Word)
    requires Before(b, k, m, target)
    ensures m.c.r[0] == 0
  {
  }

  /** A slow path that rejoins reloads the fast path's live registers. */
  lemma SlowPathRefines(env: Env, b: Block, k: nat, at: Cache, join: Cache, h: Host, m: Machine,
                        target: Word, budget: nat)
    requires Sim(b, k, at, h, m, target, budget) && CanStep(b, k, m, target) && NeedsHelper(b, k)
    requires A64(join) && Ok(join)
    ensures StepResult(b, k, join, Eval(env, SlowPath(b, k, at, join), h), m, Retire(env, b.words[k], m),
                       target, budget)
  {
    hide Exec, Ok, ApplyAll, Retire, Helper, Restore, Represents, Before, Left;
    HelperRefines(env, b, k, at, h, m, target, budget);
    var res := Eval(env, Helper(b, k, at), h);
    var m' := Retire(env, b.words[k], m);
    if !Left(m, m') {
      RestoreRefines(env, join, 1, res.h);
      RestoreRepresents(env, join, res.h, m'.c.r);
    }
  }

  lemma RestoreRepresents(env: Env, join: Cache, h: Host, r: Regs)
    requires A64(join) && Ok(join) && Represents(Empty(), h.x, h.m.c.r, r)
    ensures
      var h1 := ApplyAll(env, Restore(join, 1), h);
      && h1 == h.(x := h1.x) && Represents(join, h1.x, h1.m.c.r, r)
      && h1.x[TARGET] == h.x[TARGET] && h1.x[BUDGET] == h.x[BUDGET]
  {
    hide Ok, Restore, ApplyAll;
    RestoreRefines(env, join, 1, h);
    assert h.m.c.r == r by {
      assert Empty().host == seq(32, _ => -1);
    }
    assert forall g :: 1 <= g < 32 && join.host[g] >= 0 ==> join.host[g] in join.regs by {
      HostsInRegs(join);
    }
  }

  lemma HostsInRegs(rc: Cache)
    requires Ok(rc)
    ensures forall g :: 0 <= g < 32 && rc.host[g] >= 0 ==> rc.host[g] in rc.regs
  {
  }
}
