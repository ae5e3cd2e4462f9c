/** The whole block: guard, budget claim, body and the way out. */
module A64Theorem {
  import opened Words
  import opened Mips
  import opened MipsIr
  import opened NativeBlock
  import opened HostCode
  import opened RegCache
  import opened A64Code
  import opened A64Proof
  import opened A64Step
  import opened Sampling
  import opened A64Helper
  import opened A64Memory
  import opened A64Block

  // ------------------------------------------------------------ the way out

  /** The successor each link site was emitted for. */
  function LinkAddress(b: Block, n: nat): Word
    requires Valid(b)
  {
    if b.branch == 0 then Pc(b, |b.words|)
    else
      var br, pc := b.ir[b.branch - 1], Pc(b, b.branch - 1);
      if br.op.IJump? then JumpGoes(pc, br.value)
      else if n == 0 then Add(Add(pc, 4), br.value)
      else Add(pc, 8)
  }

  /** How a completed block leaves, told from where the reference stands. */
  function EndExit(b: Block, m: Machine): Exit
    requires Valid(b)
  {
    if NeedsCheck(b) then Done
    else if b.branch == 0 then Link(0)
    else if !b.delay then Done
    else
      var br := b.ir[b.branch - 1];
      if br.op.IJumpr? then Search
      else if br.op.IJump? || m.c.pc == LinkAddress(b, 0) then Link(0)
      else Link(1)
  }

  /** A block leaves through a link site only for the successor that site was emitted for. */
  lemma LinkGoesToSuccessor(b: Block, m: Machine)
    requires Valid(b) && Before(b, |b.words|, m, EndTarget(b, m)) && TargetOk(b, |b.words|, EndTarget(b, m))
    requires EndExit(b, m).Link?
    ensures m.c.pc == LinkAddress(b, EndExit(b, m).n)
    ensures !m.c.branchPending && m.c.nextPc == Add(m.c.pc, 4)
  {
    hide Decode;
    PcNext(b, |b.words|);
  }

  lemma SearchIsReady(b: Block, m: Machine)
    requires Valid(b) && Before(b, |b.words|, m, EndTarget(b, m)) && EndExit(b, m).Search?
    ensures !m.c.branchPending && m.c.nextPc == Add(m.c.pc, 4)
  {
    hide Decode;
  }

  /** `h1` is `h` with scratch register 9 changed and machine `hm`. */
  predicate Stepped(h: Host, h1: Host, hm: Machine) {
    && h1 == h.(x := h1.x, m := hm)
    && forall j :: 0 <= j < 32 && j != 9 && j != 17 ==> h1.x[j] == h.x[j]
  }

  lemma CountersRefine(env: Env, b: Block, h: Host)
    requires Valid(b)
    ensures
      var n := |b.words|;
      Stepped(h, ApplyAll(env, CounterOps(b), h),
              Machine(h.m.c.(curPc := Pc(b, n - 1), insns := h.m.c.insns + n, cycles := h.m.c.cycles + n),
                      h.m.busReads + n, h.m.busWrites))
  {
    hide Valid, Decode, ApplyAll;
    assert 0 < |b.words| by { ValidLength(b); }
    var n := |b.words|;
    var first := [MovImm(9, Pc(b, n - 1)), StField(9, FCurPc)];
    var second := [AddCounter(CInsns, n), AddCounter(CCycles, n), AddCounter(CReads, n)];
    assert CounterOps(b) == first + second;
    ApplyConcat(env, first, second, h);
    SetsCurPc(env, Pc(b, n - 1), h);
    Counts(env, n, ApplyAll(env, first, h));
  }

  lemma SetsCurPc(env: Env, at: Word, h: Host)
    ensures
      var h1 := ApplyAll(env, [MovImm(9, at), StField(9, FCurPc)], h);
      Stepped(h, h1, h.m.(c := h.m.c.(curPc := at)))
  {
    hide ApplyAll;
    Apply2(env, MovImm(9, at), StField(9, FCurPc), h);
  }

  lemma Counts(env: Env, n: nat, h: Host)
    ensures
      var h1 := ApplyAll(env, [AddCounter(CInsns, n), AddCounter(CCycles, n), AddCounter(CReads, n)], h);
      Stepped(h, h1, Machine(h.m.c.(insns := h.m.c.insns + n, cycles := h.m.c.cycles + n),
                             h.m.busReads + n, h.m.busWrites))
  {
    hide ApplyAll;
    Apply3(env, AddCounter(CInsns, n), AddCounter(CCycles, n), AddCounter(CReads, n), h);
  }

  lemma ValidLength(b: Block)
    requires Valid(b)
    ensures 0 < |b.words| <= MAX_INSNS && |b.ir| == |b.words| && b.branch <= |b.words|
  {
  }

  /** Storing `register 9 = source + 4` as next_pc. */
  lemma NextPcRefines(env: Env, s: HReg, h: Host)
    requires s != 17
    ensures Stepped(h, ApplyAll(env, AddImm32(9, s, 4) + [StField(9, FNextPc)], h),
                    h.m.(c := h.m.c.(nextPc := Add(Get(h, s), 4))))
  {
    hide ApplyAll, AddImm32, Add;
    AddImm32Computes(env, 9, s, 4, h);
    var h1 := ApplyAll(env, AddImm32(9, s, 4), h);
    ApplyConcat(env, AddImm32(9, s, 4), [StField(9, FNextPc)], h);
    Apply1(env, StField(9, FNextPc), h1);
    FlagsSame(env, s, h);
  }

  lemma FlagsSame(env: Env, s: HReg, h: Host)
    ensures ApplyAll(env, AddImm32(9, s, 4), h).flags == h.flags
  {
    Apply1(env, AddImm32(9, s, 4)[0], h);
  }

  lemma StraightPcRefines(env: Env, b: Block, h: Host)
    requires Valid(b) && b.branch == 0
    ensures Stepped(h, ApplyAll(env, PcOps(b), h),
                    h.m.(c := h.m.c.(pc := Pc(b, |b.words|), nextPc := Add(Pc(b, |b.words|), 4))))
  {
    hide Valid, ApplyAll, AddImm32;
    var first := [MovImm(9, Pc(b, |b.words|)), StField(9, FPc)];
    var rest := AddImm32(9, 9, 4) + [StField(9, FNextPc)];
    var h1 := ApplyAll(env, first, h);
    assert PcOps(b) == first + rest;
    ApplyConcat(env, first, rest, h);
    Apply2(env, MovImm(9, Pc(b, |b.words|)), StField(9, FPc), h);
    NextPcRefines(env, 9, h1);
  }

  lemma DelayPcRefines(env: Env, b: Block, h: Host)
    requires Valid(b) && b.branch > 0 && b.delay
    ensures Stepped(h, ApplyAll(env, PcOps(b), h),
                    h.m.(c := h.m.c.(inDelay := true, pc := Get(h, TARGET), nextPc := Add(Get(h, TARGET), 4))))
  {
    hide Valid, ApplyAll, AddImm32;
    var first := [MovImm(9, 1), StLatch(9, LInDelay), StField(TARGET, FPc)];
    var rest := AddImm32(9, TARGET, 4) + [StField(9, FNextPc)];
    var h1 := ApplyAll(env, first, h);
    assert PcOps(b) == first + rest;
    ApplyConcat(env, first, rest, h);
    Apply3(env, MovImm(9, 1), StLatch(9, LInDelay), StField(TARGET, FPc), h);
    NextPcRefines(env, TARGET, h1);
  }

  lemma PendingPcRefines(env: Env, b: Block, h: Host)
    requires Valid(b) && b.branch > 0 && !b.delay
    ensures Stepped(h, ApplyAll(env, PcOps(b), h),
                    h.m.(c := h.m.c.(branchPending := true, pc := Pc(b, |b.words|), nextPc := Get(h, TARGET))))
  {
    hide Valid, ApplyAll;
    var first := [MovImm(9, 1), StLatch(9, LBranchPending)];
    var rest := [MovImm(9, Pc(b, |b.words|)), StField(9, FPc), StField(TARGET, FNextPc)];
    assert PcOps(b) == first + rest;
    ApplyConcat(env, first, rest, h);
    Apply2(env, MovImm(9, 1), StLatch(9, LBranchPending), h);
    Apply3(env, MovImm(9, Pc(b, |b.words|)), StField(9, FPc), StField(TARGET, FNextPc), ApplyAll(env, first, h));
  }

  /** Counters and pipeline registers: the host structure becomes the reference machine. */
  lemma SettleUp(env: Env, b: Block, h: Host, m: Machine, budget: nat)
    requires Valid(b) && BodyEnd(b, h, m, budget) && Before(b, |b.words|, m, EndTarget(b, m))
    ensures Stepped(h, ApplyAll(env, CounterOps(b) + PcOps(b), h), m)
  {
    hide ApplyAll, CounterOps, PcOps, Decode;
    var h1 := ApplyAll(env, CounterOps(b), h);
    CountersRefine(env, b, h);
    ApplyConcat(env, CounterOps(b), PcOps(b), h);
    PcNext(b, |b.words|);
    if b.branch == 0 {
      StraightPcRefines(env, b, h1);
    } else if b.delay {
      DelayPcRefines(env, b, h1);
    } else {
      PendingPcRefines(env, b, h1);
    }
  }

  /** A finished block is out with the reference state, its exit and its budget. */
  predicate Finished(b: Block, res: Result, m: Machine, budget: nat)
    requires Valid(b)
  {
    && res.Out? && res.exit == EndExit(b, m) && res.h.m == m && !res.h.fault
    && res.h.x[BUDGET] == W(Wrap(budget))
    && (res.exit.Search? ==> Low(res.h.x[TARGET]) == m.c.pc)
  }

  /** Straight-line operations and a conditional exit. */
  lemma OpsThenExit(env: Env, ops: seq<HOp>, t: Test, e: Exit, h: Host)
    ensures
      var h1 := ApplyAll(env, ops, h);
      Eval(env, Then(Ops(ops), ExitIf(t, e)), h) == if Passes(h1, t) then Out(e, h1) else Fall(h1)
  {
    hide ApplyAll, Passes;
    var h1 := ApplyAll(env, ops, h);
    assert Eval(env, Ops(ops), h) == Fall(h1);
  }

  /** The two arms of a conditional branch, each with its own link site. */
  lemma ArmsRefine(env: Env, b: Block, h: Host, m: Machine)
    requires Valid(b) && b.branch > 0 && b.delay && !NeedsCheck(b) && IsCondBranch(b.ir[b.branch - 1].op)
    requires Low(h.x[TARGET]) == m.c.pc
    ensures
      var res := Eval(env, EndCode(b), h);
      res.Out? && res.exit == EndExit(b, m) && res.h == h.(x := res.h.x, flags := res.h.flags)
      && forall j :: 0 <= j < 32 && j != 9 ==> res.h.x[j] == h.x[j]
  {
    hide Decode, ApplyAll, Valid;
    assert 0 < |b.words| <= MAX_INSNS && |b.ir| == |b.words| && b.branch <= |b.words| by { ValidLength(b); }
    var br := b.ir[b.branch - 1];
    var goal := Add(Add(Pc(b, b.branch - 1), 4), br.value);
    var ops: seq<HOp> := [MovImm(9, goal), ArithFlags(true, ZR, TARGET, 9)];
    var h1 := ApplyAll(env, ops, h);
    Apply2(env, MovImm(9, goal), ArithFlags(true, ZR, TARGET, 9), h);
    Compares(Low(h.x[TARGET]), goal);
    var arms := Then(SkipIf(OnFlags(NE), Exits(Link(0))), Exits(Link(1)));
    assert EndCode(b) == Then(Ops(ops), arms);
    assert Eval(env, Ops(ops), h) == Fall(h1);
    assert Eval(env, SkipIf(OnFlags(NE), Exits(Link(0))), h1) ==
           if Passes(h1, OnFlags(NE)) then Fall(h1) else Out(Link(0), h1);
    assert Eval(env, arms, h1) == Out(if Passes(h1, OnFlags(NE)) then Link(1) else Link(0), h1);
  }

  lemma EndRefines(env: Env, b: Block, h: Host, m: Machine, budget: nat)
    requires Valid(b)
    requires h.m == m && !h.fault && h.x[BUDGET] == W(Wrap(budget))
    requires b.branch > 0 ==> Low(h.x[TARGET]) == EndTarget(b, m)
    ensures Finished(b, Eval(env, EndCode(b), h), m, budget)
  {
    hide Decode, ApplyAll;
    if b.branch > 0 && b.delay && !NeedsCheck(b) && IsCondBranch(b.ir[b.branch - 1].op) {
      ArmsRefine(env, b, h, m);
    } else {
      assert EndCode(b).Exits?;
    }
  }

  lemma TailRefines(env: Env, b: Block, h: Host, m: Machine, budget: nat)
    requires Valid(b) && BodyEnd(b, h, m, budget)
    requires Before(b, |b.words|, m, EndTarget(b, m)) && TargetOk(b, |b.words|, EndTarget(b, m))
    ensures Finished(b, Eval(env, TailCode(b), h), m, budget)
  {
    hide Valid, Before, TargetOk, ApplyAll, CounterOps, PcOps, EndCode, EndExit, Lags;
    assert 0 < |b.words| <= MAX_INSNS && |b.ir| == |b.words| && b.branch <= |b.words| by { ValidLength(b); }
    SettleUp(env, b, h, m, budget);
    EndRefines(env, b, ApplyAll(env, CounterOps(b) + PcOps(b), h), m, budget);
  }

  // ------------------------------------------------------------ the way in

  predicate GuardHolds(b: Block, k: nat, mem: seq<Byte>)
    requires b.guest + 4 * |b.words| <= |mem|
  {
    forall j :: k <= j < |b.words| ==> LoadBE(mem, b.guest + 4 * j, 4) == b.words[j]
  }

  lemma ReverseTwice(w: Word)
    ensures Reverse(Reverse(w)) == w
  {
    ByteOfJoin(ByteOf(w, 3), ByteOf(w, 2), ByteOf(w, 1), ByteOf(w, 0));
    BytesMakeWord(w);
  }

  lemma BytesMakeWord(w: Word)
    ensures Join(ByteOf(w, 0), ByteOf(w, 1), ByteOf(w, 2), ByteOf(w, 3)) == w
  {
    var q1 := w / 0x100;
    var q2 := q1 / 0x100;
    assert w == w % 0x100 + 0x100 * q1 && q1 == q1 % 0x100 + 0x100 * q2;
    assert w / 0x1_0000 == q2 && w / 0x100_0000 == q2 / 0x100;
  }

  /** Comparing byte-swapped words compares the big-endian ones. */
  lemma GuardWord(mem: seq<Byte>, at: nat, w: Word)
    requires at + 4 <= |mem|
    ensures LoadLE(mem, at, 4) == Reverse(w) <==> LoadBE(mem, at, 4) == w
  {
    LoadReverses(mem, at);
    ReverseTwice(w);
    ReverseTwice(LoadLE(mem, at, 4));
  }

  lemma PairRefines(env: Env, b: Block, k: nat, h: Host)
    requires k + 1 < |b.words| && b.guest + 4 * |b.words| <= |h.m.c.mem|
    ensures
      var res := Eval(env, PairCode(b, k), h);
      && res.h.m == h.m && res.h.fault == h.fault && res.h.x[BUDGET] == h.x[BUDGET]
      && (if LoadBE(h.m.c.mem, b.guest + 4 * k, 4) == b.words[k]
             && LoadBE(h.m.c.mem, b.guest + 4 * (k + 1), 4) == b.words[k + 1]
          then res.Fall? else res.Out? && res.exit.Stale?)
  {
    hide LoadLE, LoadBE, Reverse, ApplyAll;
    var op: HOp := LdGuest(10, b.guest + 4 * k, 2);
    Apply1(env, op, h);
    OpsThenExit(env, [op], Differs(10, Wide(Reverse(b.words[k + 1]), Reverse(b.words[k]))), Stale, h);
    GuardWord(h.m.c.mem, b.guest + 4 * k, b.words[k]);
    GuardWord(h.m.c.mem, b.guest + 4 * (k + 1), b.words[k + 1]);
  }

  lemma LastRefines(env: Env, b: Block, k: nat, h: Host)
    requires k < |b.words| && b.guest + 4 * |b.words| <= |h.m.c.mem|
    ensures
      var res := Eval(env, LastCode(b, k), h);
      && res.h.m == h.m && res.h.fault == h.fault && res.h.x[BUDGET] == h.x[BUDGET]
      && (if LoadBE(h.m.c.mem, b.guest + 4 * k, 4) == b.words[k] then res.Fall? else res.Out? && res.exit.Stale?)
  {
    hide LoadLE, LoadBE, Reverse, ApplyAll;
    var op: HOp := LdGuest(10, b.guest + 4 * k, 1);
    Apply1(env, op, h);
    OpsThenExit(env, [op], Differs(10, W(Reverse(b.words[k]))), Stale, h);
    GuardWord(h.m.c.mem, b.guest + 4 * k, b.words[k]);
  }

  /** The guard falls through exactly when every word still matches, touching nothing
      the block uses. */
  lemma {:induction false} GuardRefines(env: Env, b: Block, k: nat, h: Host)
    requires k <= |b.words| && b.guest + 4 * |b.words| <= |h.m.c.mem|
    ensures
      var res := Eval(env, GuardCode(b, k), h);
      && res.h.m == h.m && res.h.fault == h.fault && res.h.x[BUDGET] == h.x[BUDGET]
      && (if GuardHolds(b, k, h.m.c.mem) then res.Fall? else res.Out? && res.exit.Stale?)
    decreases |b.words| - k
  {
    hide LoadBE, PairCode, LastCode, ApplyAll;
    var mem := h.m.c.mem;
    if k == |b.words| {
      ApplyNone(env, h);
    } else if k + 1 < |b.words| {
      PairRefines(env, b, k, h);
      var res := Eval(env, PairCode(b, k), h);
      if res.Fall? {
        GuardRefines(env, b, k + 2, res.h);
      }
      assert GuardHolds(b, k, mem) <==>
             LoadBE(mem, b.guest + 4 * k, 4) == b.words[k]
             && LoadBE(mem, b.guest + 4 * (k + 1), 4) == b.words[k + 1] && GuardHolds(b, k + 2, mem);
    } else {
      LastRefines(env, b, k, h);
      var res := Eval(env, LastCode(b, k), h);
      if res.Fall? {
        GuardRefines(env, b, k + 1, res.h);
      }
      assert GuardHolds(b, k, mem) <==>
             LoadBE(mem, b.guest + 4 * k, 4) == b.words[k] && GuardHolds(b, k + 1, mem);
    }
  }

  lemma ClaimTakes(env: Env, n: nat, h: Host)
    requires n <= MAX_INSNS
    ensures
      var h1 := ApplyAll(env, [SubImm(BUDGET, BUDGET, n), StLatch(ZR, LInDelay)], h);
      && h1.fault == h.fault && h1.m == h.m.(c := h.m.c.(inDelay := false))
      && h1.x[BUDGET] == W(Sub(Low(h.x[BUDGET]), n))
  {
    hide ApplyAll;
    Apply2(env, SubImm(BUDGET, BUDGET, n), StLatch(ZR, LInDelay), h);
  }

  lemma ClaimRefines(env: Env, b: Block, h: Host, budget: Word)
    requires 0 < |b.words| <= MAX_INSNS && h.x[BUDGET] == W(budget)
    ensures
      var res := Eval(env, ClaimCode(b), h);
      && res.h.fault == h.fault
      && (if budget < |b.words| then
            res.Out? && res.exit.Budget? && res.h.m == h.m && res.h.x[BUDGET] == h.x[BUDGET]
          else
            res.Fall? && res.h.m == h.m.(c := h.m.c.(inDelay := false))
            && res.h.x[BUDGET] == W(Sub(budget, |b.words|)))
  {
    hide ApplyAll;
    var n := |b.words|;
    var h1 := Apply(env, CmpImm(BUDGET, n), h);
    Apply1(env, CmpImm(BUDGET, n), h);
    ClaimTakes(env, n, h1);
    var claim: seq<HOp> := [SubImm(BUDGET, BUDGET, n), StLatch(ZR, LInDelay)];
    assert Eval(env, Ops([CmpImm(BUDGET, n)]), h) == Fall(h1);
    assert Eval(env, Then(ExitIf(OnFlags(CC), Budget), Ops(claim)), h1) ==
           if Passes(h1, OnFlags(CC)) then Out(Budget, h1) else Fall(ApplyAll(env, claim, h1));
    Compares(budget, n);
  }

  // ------------------------------------------------------------ the theorem

  /** The machine at a block's chain entry. */
  predicate AtEntry(b: Block, m: Machine) {
    && m.c.pc == b.va && m.c.nextPc == Add(b.va, 4) && !m.c.branchPending && m.c.r[0] == 0
    && Running(m) && Safe(m.c.sys, |m.c.mem|)
  }

  predicate EntryHost(b: Block, h: Host, m: Machine, budget: Word) {
    && h.m == m && !h.fault && h.x[BUDGET] == W(budget)
    && TablesMatch(h.rd, h.wr, m.c.sys)
    && b.guest + 4 * |b.words| <= |m.c.mem|
  }

  /** What one traversal of a block does, given the run of its words. */
  predicate BlockMatches(b: Block, res: Result, m: Machine, budget: Word, t: Trace)
    requires Valid(b) && b.guest + 4 * |b.words| <= |m.c.mem|
  {
    if !GuardHolds(b, 0, m.c.mem) then
      res.Out? && res.exit.Stale? && res.h.m == m && !res.h.fault && res.h.x[BUDGET] == W(budget)
    else if budget < |b.words| then
      res.Out? && res.exit.Budget? && res.h.m == m && !res.h.fault && res.h.x[BUDGET] == W(budget)
    else if t.left then
      res.Out? && res.exit.Done? && res.h.m == t.m && !res.h.fault && t.retired <= |b.words|
      && res.h.x[BUDGET] == W(Sub(budget, t.retired))
    else
      && Finished(b, res, t.m, budget - |b.words|)
      && t.retired == |b.words|
      && Before(b, |b.words|, t.m, EndTarget(b, t.m))
      && TargetOk(b, |b.words|, EndTarget(b, t.m))
      && (NeedsCheck(b) || Safe(t.m.c.sys, |t.m.c.mem|))
  }

  predicate BlockResult(env: Env, b: Block, res: Result, m: Machine, budget: Word)
    requires Valid(b) && b.guest + 4 * |b.words| <= |m.c.mem|
  {
    BlockMatches(b, res, m, budget, RunWords(env, b, 0, m))
  }

  lemma EntrySim(b: Block, h: Host, m: Machine, budget: nat)
    requires Valid(b) && AtEntry(b, m) && !h.fault
    requires budget + |b.words| < TWO32
    requires h.m == m.(c := m.c.(inDelay := false)) && h.x[BUDGET] == W(budget)
    ensures Sim(b, 0, Empty(), h, m, 0, budget) && Before(b, 0, m, 0) && TargetOk(b, 0, 0)
  {
    hide Ok, Decode;
    EmptyOk();
    EmptyRepresents(h.x, m.c.r);
    PcNext(b, 0);
  }

  lemma {:induction false} RetiredBound(env: Env, b: Block, k: nat, m: Machine)
    requires k <= |b.words|
    ensures k <= RunWords(env, b, k, m).retired <= |b.words|
    ensures RunWords(env, b, k, m).left ==> k < RunWords(env, b, k, m).retired
    decreases |b.words| - k
  {
    hide Retire;
    if k < |b.words| && !Left(m, Retire(env, b.words[k], m)) {
      RetiredBound(env, b, k + 1, Retire(env, b.words[k], m));
    }
  }

  lemma BlockRefines(env: Env, b: Block, h: Host, m: Machine, budget: Word)
    requires Valid(b) && AtEntry(b, m) && EntryHost(b, h, m, budget)
    ensures BlockResult(env, b, Eval(env, BlockCode(b), h), m, budget)
    ensures Eval(env, BlockCode(b), h).h.rd == h.rd && Eval(env, BlockCode(b), h).h.wr == h.wr
  {
    hide Valid, Safe, TablesMatch, GuardCode, ClaimCode, BodyCode, TailCode, Sim, Before, TargetOk, Finished,
         GuardHolds, BodyEnd, RunWords, NeedsCheck;
    assert 0 < |b.words| <= MAX_INSNS && |b.ir| == |b.words| && b.branch <= |b.words| by { ValidLength(b); }
    TablesKept(env, BlockCode(b), h);
    GuardRefines(env, b, 0, h);
    if GuardHolds(b, 0, m.c.mem) {
      var h1 := Eval(env, GuardCode(b, 0), h).h;
      ClaimRefines(env, b, h1, budget);
      if |b.words| <= budget {
        var h2 := Eval(env, ClaimCode(b), h1).h;
        TablesKept(env, GuardCode(b, 0), h);
        TablesKept(env, ClaimCode(b), h1);
        EntrySim(b, h2, m, budget - |b.words|);
        assert A64(Empty()) by { EmptyOk(); }
        BodyRefines(env, b, 0, Empty(), h2, m, 0, budget - |b.words|);
        RetiredBound(env, b, 0, m);
        var t := RunWords(env, b, 0, m);
        if !t.left {
          TailRefines(env, b, Eval(env, BodyCode(b, 0, Empty()), h2).h, t.m, budget - |b.words|);
        }
      }
    }
  }

  /** Block translation preserves meaning, for the code as it is laid out: running the
      flat code from the chain entry gives the reference's state, exit and budget. */
  lemma FlatBlockRefines(env: Env, b: Block, rest: seq<Insn>, h: Host, m: Machine, budget: Word)
    requires Valid(b) && AtEntry(b, m) && EntryHost(b, h, m, budget)
    ensures BlockResult(env, b, Run(env, Flatten(BlockCode(b)) + rest, h), m, budget)
  {
    hide Valid, AtEntry, EntryHost, BlockCode, Flatten, Run, RunWords, GuardHolds, Before, TargetOk, Safe;
    assert 0 < |b.words| <= MAX_INSNS && |b.ir| == |b.words| && b.branch <= |b.words| by { ValidLength(b); }
    BlockRefines(env, b, h, m, budget);
    FlattenRuns(env, BlockCode(b), rest, h);
  }
}
