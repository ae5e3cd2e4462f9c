/** The x86-64 entries that may call a helper: the call itself, loads and stores, and
    arithmetic that can trap. */
module X86Memory {
  import opened Words
  import opened Wrappers
  import opened BusMap
  import opened Mips
  import opened MipsIr
  import opened NativeBlock
  import opened HostCode
  import opened RegCache
  import opened A64Code
  import opened A64Proof
  import opened A64Step
  import opened Sampling
  import opened A64Helper
  import opened A64Memory
  import opened A64Block
  import opened X86Code
  import opened X86Alu
  import opened X86Step

  // ------------------------------------------------------------ the call

  /** Registers up to 18 and the flags may differ. */
  predicate Passing(h: Host, h1: Host) {
    && h1 == h.(x := h1.x, flags := h1.flags)
    && forall j :: 18 < j < 32 ==> h1.x[j] == h.x[j]
  }

  lemma ArgumentSet(env: Env, d: HReg, v: Word, h: Host)
    requires d <= 18
    ensures
      var h1 := ApplyAll(env, MovI(d, v), h);
      Passing(h, h1) && h1.x == h.x[d := W(v)]
  {
    hide ApplyAll;
    ConstantApplies(env, d, v, h);
  }

  /** The four constant arguments. */
  lemma ConstantArgs(env: Env, b: Block, k: nat, h: Host)
    requires k < |b.words|
    ensures
      var ops := [MovReg(RDI, RBX)] + MovI(RSI, b.words[k]) + MovI(RDX, Pc(b, k)) + MovI(RCX, Wrap(k));
      var h1 := ApplyAll(env, ops, h);
      Passing(h, h1) && Get(h1, RSI) == b.words[k] && Get(h1, RDX) == Pc(b, k) && Get(h1, RCX) == Wrap(k)
  {
    hide ApplyAll, MovI, Pc;
    var o0: seq<HOp> := [MovReg(RDI, RBX)];
    var o1, o2, o3 := MovI(RSI, b.words[k]), MovI(RDX, Pc(b, k)), MovI(RCX, Wrap(k));
    var h1 := ApplyAll(env, o0, h);
    Apply1(env, MovReg(RDI, RBX), h);
    var h2 := ApplyAll(env, o1, h1);
    ArgumentSet(env, RSI, b.words[k], h1);
    var h3 := ApplyAll(env, o2, h2);
    ArgumentSet(env, RDX, Pc(b, k), h2);
    ArgumentSet(env, RCX, Wrap(k), h3);
    ApplyConcat(env, o0, o1, h);
    ApplyConcat(env, o0 + o1, o2, h);
    ApplyConcat(env, o0 + o1 + o2, o3, h);
  }

  lemma XArgsRefine(env: Env, b: Block, k: nat, h: Host)
    requires k < |b.words|
    ensures
      var h1 := ApplyAll(env, XArgOps(b, k), h);
      && Passing(h, h1)
      && Get(h1, RSI) == b.words[k] && Get(h1, RDX) == Pc(b, k) && Get(h1, RCX) == Wrap(k)
      && (InDelaySlot(b, k) ==> Get(h1, R8) == Low(h.x[TARGET]))
  {
    hide ApplyAll, MovI, Pc;
    var ops := [MovReg(RDI, RBX)] + MovI(RSI, b.words[k]) + MovI(RDX, Pc(b, k)) + MovI(RCX, Wrap(k));
    ConstantArgs(env, b, k, h);
    if InDelaySlot(b, k) {
      ApplyConcat(env, ops, [MovReg(R8, TARGET)], h);
      Apply1(env, MovReg(R8, TARGET), ApplyAll(env, ops, h));
    } else {
      assert ops + [] == ops;
    }
  }

  lemma XCallDoes(env: Env, b: Block, k: nat, h: Host, target: Word)
    requires k < |b.words| <= MAX_INSNS
    requires Get(h, RSI) == b.words[k] && Get(h, RDX) == Pc(b, k) && Get(h, RCX) == k
    requires InDelaySlot(b, k) ==> Get(h, R8) == target
    ensures
      var h1 := ApplyAll(env, [Two(XCall(InDelaySlot(b, k)))], h);
      var (leave, hm') := HelperCall(env, b, k, h.m, target);
      && h1.m == hm' && h1.x[0] == W(Flag(leave)) && h1.fault == h.fault
      && forall j :: 18 < j < 32 ==> h1.x[j] == h.x[j]
  {
    hide JitExec, JitExecDelay, ApplyAll, Pc;
    Apply1(env, Two(XCall(InDelaySlot(b, k))), h);
  }

  lemma XCallRefines(env: Env, b: Block, k: nat, rc: Cache, h: Host, m: Machine, target: Word, budget: nat)
    requires X86(rc) && Simulates(b, k, rc, h, m, target, budget) && CanStep(b, k, m, target) && NeedsHelper(b, k)
    ensures
      var h1 := ApplyAll(env, Writeback(rc, 1) + XCallOps(b, k), h);
      var (leave, hm') := HelperCall(env, b, k, h.m.(c := h.m.c.(r := m.c.r)), target);
      && h1.m == hm' && h1.x[0] == W(Flag(leave)) && !h1.fault
      && h1.x[TARGET] == h.x[TARGET] && h1.x[BUDGET] == h.x[BUDGET]
  {
    hide Exec, Finish, Ok, Represents, XArgOps, Writeback, ApplyAll, JitExec, JitExecDelay, HelperCall;
    var ops := XArgOps(b, k);
    var h0 := ApplyAll(env, Writeback(rc, 1), h);
    WritebackAll(env, rc, h, m.c.r);
    XArgsRefine(env, b, k, h0);
    var h1 := ApplyAll(env, ops, h0);
    ApplyConcat(env, Writeback(rc, 1), XCallOps(b, k), h);
    ApplyConcat(env, ops, [Two(XCall(InDelaySlot(b, k)))], h0);
    assert Wrap(k) == k;
    XCallDoes(env, b, k, h1, target);
    if InDelaySlot(b, k) {
      assert !IsBranch(b.ir[k].op);
    }
  }

  lemma XEmptyOk()
    ensures Ok(XEmpty()) && X86(XEmpty())
  {
    ResetOk(X86_REGS);
  }

  lemma XEmptyRepresents(x: Vals, r: Regs)
    requires r[0] == 0
    ensures Represents(XEmpty(), x, r, r)
  {
    XEmptyOk();
  }

  lemma XExitRefines(env: Env, n: nat, retired: nat, h: Host, budget: nat)
    requires retired <= n && budget + n < TWO32 && h.x[BUDGET] == W(budget)
    ensures
      var res := Eval(env, XExitBlock(n, retired), h);
      res.Out? && res.exit == Done && res.h.m == h.m && res.h.fault == h.fault
      && res.h.x[BUDGET] == W(Wrap(budget + n - retired))
  {
    hide ApplyAll, XFlags;
    var v := Wrap(n - retired);
    if v != 0 {
      Apply1(env, Two(XAluImm(AluAdd, BUDGET, v)), h);
    } else {
      ApplyNone(env, h);
    }
  }

  /** A helper runs the reference instruction on the reference's own state. */
  lemma XHelperRefines(env: Env, b: Block, k: nat, rc: Cache, h: Host, m: Machine, target: Word, budget: nat)
    requires X86(rc) && Simulates(b, k, rc, h, m, target, budget) && CanStep(b, k, m, target) && NeedsHelper(b, k)
    ensures XStepResult(b, k, XEmpty(), Eval(env, XHelper(b, k, rc), h), m, Retire(env, b.words[k], m), target, budget)
  {
    hide Exec, Ok, XCallOps, Writeback, ApplyAll, Retire, HelperCall, XExitBlock, Represents, Before, Left;
    var hm := h.m.(c := h.m.c.(r := m.c.r));
    var h1 := ApplyAll(env, Writeback(rc, 1) + XCallOps(b, k), h);
    var m' := Retire(env, b.words[k], m);
    XCallRefines(env, b, k, rc, h, m, target, budget);
    CallMatches(env, b, k, hm, m, target);
    XEmptyOk();
    if Left(m, m') {
      XExitRefines(env, |b.words|, k + 1, h1, budget);
    } else {
      assert m'.c.r[0] == 0 by {
        assert Before(b, k + 1, m', target);
        BeforeZero(b, k + 1, m', target);
      }
      XEmptyRepresents(h1.x, m'.c.r);
    }
  }

  lemma XRestoreRepresents(env: Env, join: Cache, h: Host, r: Regs)
    requires X86(join) && Ok(join) && Represents(XEmpty(), h.x, h.m.c.r, r)
    ensures
      var h1 := ApplyAll(env, Restore(join, 1), h);
      && h1 == h.(x := h1.x) && Represents(join, h1.x, h1.m.c.r, r)
      && h1.x[TARGET] == h.x[TARGET] && h1.x[BUDGET] == h.x[BUDGET]
  {
    hide Ok, Restore, ApplyAll;
    RestoreRefines(env, join, 1, h);
    assert h.m.c.r == r by {
      assert XEmpty().host == seq(32, _ => -1);
    }
    HostsCached(join);
  }

  /** A slow path rejoins with the fast path's registers live. */
  lemma XSlowPathRefines(env: Env, b: Block, k: nat, at: Cache, join: Cache, h: Host, m: Machine,
                         target: Word, budget: nat)
    requires X86(at) && Simulates(b, k, at, h, m, target, budget) && CanStep(b, k, m, target) && NeedsHelper(b, k)
    requires X86(join) && Ok(join)
    ensures XStepResult(b, k, join, Eval(env, XSlowPath(b, k, at, join), h), m, Retire(env, b.words[k], m),
                        target, budget)
  {
    hide Exec, Ok, ApplyAll, Retire, XHelper, Restore, Represents, Before, Left;
    XHelperRefines(env, b, k, at, h, m, target, budget);
    var res := Eval(env, XHelper(b, k, at), h);
    var m' := Retire(env, b.words[k], m);
    if !Left(m, m') {
      XRestoreRepresents(env, join, res.h, m'.c.r);
    }
  }

  // ------------------------------------------------------------ the address

  lemma XAddressComputes(env: Env, v: Word, base: HReg, h: Host)
    requires base < 31
    ensures
      var h1 := ApplyAll(env, [MovReg(RCX, base)] + AluImm(AluAdd, RCX, v), h);
      && h1 == h.(x := h1.x, flags := h1.flags) && Low(h1.x[RCX]) == Add(Get(h, base), v)
      && forall j :: 0 <= j < 32 && j != RCX ==> h1.x[j] == h.x[j]
  {
    hide ApplyAll, XFlags;
    if v != 0 {
      assert [MovReg(RCX, base)] + AluImm(AluAdd, RCX, v) == [MovReg(RCX, base), Two(XAluImm(AluAdd, RCX, v))];
      Apply2(env, MovReg(RCX, base), Two(XAluImm(AluAdd, RCX, v)), h);
    } else {
      assert [MovReg(RCX, base)] + AluImm(AluAdd, RCX, v) == [MovReg(RCX, base)];
      Apply1(env, MovReg(RCX, base), h);
    }
  }

  lemma LowPrepares(rc: Cache, h: Host, h1: Host, r: Regs)
    requires X86(rc) && Ok(rc) && Represents(rc, h.x, h.m.c.r, r)
    requires h1 == h.(x := h1.x, flags := h1.flags)
    requires forall j :: 3 <= j < 32 ==> h1.x[j] == h.x[j]
    ensures Prepares(rc, h, h1, r)
  {
    hide Ok, Represents;
    LowScratch(rc, h, h1, r);
  }

  lemma XAddressRefines(env: Env, rc: Cache, i: Ir, base: HReg, h: Host, r: Regs)
    requires X86(rc) && Ok(rc) && Represents(rc, h.x, h.m.c.r, r) && AccessSize(i.size)
    requires Get(h, base) == r[i.left] && base < 31
    ensures
      var h1 := ApplyAll(env, XAddressOps(i, base), h);
      var va := Add(r[i.left], i.value);
      && Prepares(rc, h, h1, r) && Low(h1.x[RCX]) == va
      && (i.size > 1 ==> (h1.flags.z <==> va % i.size == 0))
  {
    hide Ok, Represents, ApplyAll, AluImm, Add;
    var first := [MovReg(RCX, base)] + AluImm(AluAdd, RCX, i.value);
    var second: seq<HOp> := if i.size > 1 then [TestLow(RCX, i.size)] else [];
    var h0 := ApplyAll(env, first, h);
    XAddressComputes(env, i.value, base, h);
    ApplyConcat(env, first, second, h);
    if i.size > 1 {
      Apply1(env, TestLow(RCX, i.size), h0);
    } else {
      ApplyNone(env, h0);
    }
    LowPrepares(rc, h, ApplyAll(env, XAddressOps(i, base), h), r);
  }

  /** Everything up to the alignment test. */
  lemma XPreRefines(env: Env, rc: Cache, i: Ir, h: Host, r: Regs)
    requires X86(rc) && Ok(rc) && Represents(rc, h.x, h.m.c.r, r) && AccessSize(i.size)
    ensures
      var (ops, base, rc1) := XRead(rc, i.left, RCX);
      var h1 := ApplyAll(env, ops + XAddressOps(i, base), h);
      var va := Add(r[i.left], i.value);
      && Prepares(rc1, h, h1, r) && Low(h1.x[RCX]) == va
      && (i.size > 1 ==> (h1.flags.z <==> va % i.size == 0))
  {
    hide Ok, Represents, XRead, ApplyAll, XAddressOps, OnlyLoaded, Add;
    var (ops, base, rc1) := XRead(rc, i.left, RCX);
    XOneRead(env, rc, i.left, RCX, h, r);
    XAddressRefines(env, rc1, i, base, ApplyAll(env, ops, h), r);
    ApplyConcat(env, ops, XAddressOps(i, base), h);
  }

  lemma XLookupRefines(env: Env, rc: Cache, write: bool, va: Word, h: Host, r: Regs)
    requires X86(rc) && Ok(rc) && Represents(rc, h.x, h.m.c.r, r) && Low(h.x[RCX]) == va
    ensures
      var h1 := ApplyAll(env, XLookup(write), h);
      && Prepares(rc, h, h1, r) && h1.x[RCX] == h.x[RCX]
      && h1.x[RAX] == Page(if write then h.wr[va / 0x1000] else h.rd[va / 0x1000])
  {
    hide Ok, Represents, ApplyAll, ShiftRight;
    PageNumber(va);
    Apply3(env, MovReg(RDX, RCX), Two(XShift(Lsr, RDX, 12)), LdTable(RAX, RDX, write), h);
    LowPrepares(rc, h, ApplyAll(env, XLookup(write), h), r);
  }

  /** Masking the low 12 bits of an address is its offset in the page. */
  lemma PageMask(va: Word)
    ensures And(va, 0xFFF) == va % 0x1000
  {
    assert Bitwise(BitAnd, 8, 7) == 0;
    assert Bitwise(BitAnd, 0x40, 0x3F) == 0;
    assert Bitwise(BitAnd, 0x200, 0x1FF) == 0;
    assert Bitwise(BitAnd, 0x1000, 0xFFF) == 0;
    MaskIsRemainder(va, 0x1000);
  }

  lemma XOffsetRefines(env: Env, rc: Cache, h: Host, r: Regs, va: Word, p: nat, size: nat)
    requires X86(rc) && Ok(rc) && Represents(rc, h.x, h.m.c.r, r)
    requires Low(h.x[RCX]) == va && h.x[RAX] == Page(Some(p)) && AccessSize(size)
    requires p + va % 0x1000 + size <= |h.m.c.mem|
    ensures
      var h1 := ApplyAll(env, [OFFSET], h);
      Prepares(rc, h, h1, r) && HostAt(h1, RAX, RCX, size) == Some(p + va % 0x1000)
      && h1.x[RAX] == h.x[RAX] && Low(h1.x[RCX]) == va % 0x1000
  {
    hide Ok, Represents, ApplyAll, And, XFlags;
    PageMask(va);
    Apply1(env, OFFSET, h);
    LowPrepares(rc, h, ApplyAll(env, [OFFSET], h), r);
  }

  // ------------------------------------------------------------ fast load

  lemma SwapLowReverses(mem: seq<Byte>, at: nat)
    requires at + 2 <= |mem|
    ensures SwapLow(LoadLE(mem, at, 2)) == LoadBE(mem, at, 2)
  {
    ByteOfJoin(mem[at], mem[at + 1], 0, 0);
  }

  lemma XLoadHalf(env: Env, i: Ir, d: HReg, h: Host, at: nat)
    requires i.size == 2 && d < 31 && HostAt(h, RAX, RCX, 2) == Some(at)
    ensures XComputed(h, ApplyAll(env, XLoadOps(i, d), h), d, Extend(2, i.sign, LoadBE(h.m.c.mem, at, 2)))
  {
    hide LoadBE, SignExtend16, ApplyAll, Apply;
    var first := [LdHost(d, RAX, RCX, 2, false), Two(XSwapLow(d))];
    HalfLoaded(env, d, h, at);
    if i.sign {
      ApplyConcat(env, first, [Sxth(d)], h);
      HalfSigned(env, d, ApplyAll(env, first, h));
    } else {
      assert first + [] == first;
    }
  }

  lemma HalfLoaded(env: Env, d: HReg, h: Host, at: nat)
    requires d < 31 && HostAt(h, RAX, RCX, 2) == Some(at)
    ensures
      var h1 := ApplyAll(env, [LdHost(d, RAX, RCX, 2, false), Two(XSwapLow(d))], h);
      h1 == h.(x := h.x[d := W(LoadBE(h.m.c.mem, at, 2))], flags := h1.flags)
  {
    hide LoadLE, LoadBE, ApplyAll, SwapLow;
    Apply2(env, LdHost(d, RAX, RCX, 2, false), Two(XSwapLow(d)), h);
    SwapLowReverses(h.m.c.mem, at);
  }

  lemma HalfSigned(env: Env, d: HReg, h: Host)
    requires d < 31
    ensures ApplyAll(env, [Sxth(d)], h) == h.(x := h.x[d := W(SignExtend16(Low(h.x[d])))])
  {
    hide ApplyAll, SignExtend16;
    Apply1(env, Sxth(d), h);
  }

  lemma XLoadWord(env: Env, i: Ir, d: HReg, h: Host, at: nat)
    requires i.size == 4 && d < 31 && HostAt(h, RAX, RCX, 4) == Some(at)
    ensures XComputed(h, ApplyAll(env, XLoadOps(i, d), h), d, LoadBE(h.m.c.mem, at, 4))
  {
    hide LoadLE, LoadBE, Reverse, ApplyAll;
    Apply2(env, LdHost(d, RAX, RCX, 4, false), Rev(d, d), h);
    LoadReverses(h.m.c.mem, at);
  }

  lemma XLoadByte(env: Env, i: Ir, d: HReg, h: Host, at: nat)
    requires i.size == 1 && d < 31 && HostAt(h, RAX, RCX, 1) == Some(at)
    ensures XComputed(h, ApplyAll(env, XLoadOps(i, d), h), d, Extend(1, i.sign, LoadBE(h.m.c.mem, at, 1)))
  {
    hide LoadLE, LoadBE, SignExtend8, ApplyAll;
    Apply1(env, LdHost(d, RAX, RCX, 1, i.sign), h);
    LoadByte(h.m.c.mem, at);
  }

  lemma XLoadComputes(env: Env, i: Ir, d: HReg, h: Host, at: nat)
    requires AccessSize(i.size) && d < 31 && HostAt(h, RAX, RCX, i.size) == Some(at)
    ensures XComputed(h, ApplyAll(env, XLoadOps(i, d), h), d, Extend(i.size, i.sign, LoadBE(h.m.c.mem, at, i.size)))
  {
    hide LoadLE, LoadBE, SignExtend8, SignExtend16, XComputed, ApplyAll, XLoadOps, HostAt;
    if i.size == 4 {
      XLoadWord(env, i, d, h, at);
    } else if i.size == 2 {
      XLoadHalf(env, i, d, h, at);
    } else {
      XLoadByte(env, i, d, h, at);
    }
  }

  lemma XCounts(env: Env, rc: Cache, h: Host, counter: Counter, r: Regs)
    requires X86(rc) && Ok(rc) && Represents(rc, h.x, h.m.c.r, r) && (counter.CReads? || counter.CWrites?)
    ensures
      var h1 := ApplyAll(env, [Two(XAddCounter(counter, 1))], h);
      Accesses(rc, h, h1, r, h.m.c.mem, if counter.CReads? then 1 else 0, if counter.CWrites? then 1 else 0)
  {
    hide Ok, Represents, ApplyAll;
    Apply1(env, Two(XAddCounter(counter, 1)), h);
  }

  lemma XLoadFastRefines(env: Env, rc: Cache, i: Ir, h: Host, r: Regs, va: Word, p: nat)
    requires X86(rc) && Ok(rc) && Represents(rc, h.x, h.m.c.r, r)
    requires Low(h.x[RCX]) == va && h.x[RAX] == Page(Some(p)) && AccessSize(i.size)
    requires p + va % 0x1000 + i.size <= |h.m.c.mem|
    ensures
      var (ops, rc1) := XLoadFast(i, rc);
      var v := Extend(i.size, i.sign, LoadBE(h.m.c.mem, p + va % 0x1000, i.size));
      Accesses(rc1, h, ApplyAll(env, ops, h), SetReg(r, i.dst, v), h.m.c.mem, 1, 0)
  {
    hide Ok, Represents, ApplyAll, XLoadOps, Written, WriteReg, Extend, LoadBE, HostAt, SetReg, Settles, Accesses, Add;
    var (d, rc1) := WriteReg(rc, i.dst, RDX);
    var v := Extend(i.size, i.sign, LoadBE(h.m.c.mem, p + va % 0x1000, i.size));
    var body := XLoadOps(i, d) + Written(rc1, i.dst, d);
    var h1 := ApplyAll(env, [OFFSET], h);
    var h2 := ApplyAll(env, body, h1);
    XOffsetRefines(env, rc, h, r, va, p, i.size);
    XLoadBody(env, rc, i, h1, r, p + va % 0x1000);
    CountedLoad(env, rc1, h, h1, h2, SetReg(r, i.dst, v));
    ApplyConcat(env, [OFFSET], body, h);
    ApplyConcat(env, [OFFSET] + body, [Two(XAddCounter(CReads, 1))], h);
    assert [OFFSET] + body + [Two(XAddCounter(CReads, 1))] == XLoadFast(i, rc).0;
  }

  lemma CountedLoad(env: Env, rc: Cache, h: Host, h1: Host, h2: Host, r: Regs)
    requires X86(rc) && Scratched(h, h1) && Settles(rc, h1, h2, r)
    ensures Accesses(rc, h, ApplyAll(env, [Two(XAddCounter(CReads, 1))], h2), r, h.m.c.mem, 1, 0)
  {
    hide Ok, Represents, ApplyAll;
    XCounts(env, rc, h2, CReads, r);
    LoadAccesses(rc, h, h1, h2, ApplyAll(env, [Two(XAddCounter(CReads, 1))], h2), r);
  }

  lemma XLoadBody(env: Env, rc: Cache, i: Ir, h: Host, r: Regs, at: nat)
    requires X86(rc) && Ok(rc) && Represents(rc, h.x, h.m.c.r, r)
    requires AccessSize(i.size) && HostAt(h, RAX, RCX, i.size) == Some(at)
    ensures
      var (d, rc1) := WriteReg(rc, i.dst, RDX);
      var v := Extend(i.size, i.sign, LoadBE(h.m.c.mem, at, i.size));
      X86(rc1) && Settles(rc1, h, ApplyAll(env, XLoadOps(i, d) + Written(rc1, i.dst, d), h), SetReg(r, i.dst, v))
  {
    WriteHostX(rc, i.dst, RDX);
    hide Ok, Represents, ApplyAll, XLoadOps, Written, WriteReg, Extend, LoadBE, HostAt, SetReg, XComputed, Settles;
    var (d, rc1) := WriteReg(rc, i.dst, RDX);
    XLoadComputes(env, i, d, h, at);
    XWriteSettles(env, rc, i.dst, RDX, h, XLoadOps(i, d), Extend(i.size, i.sign, LoadBE(h.m.c.mem, at, i.size)), r);
  }

  lemma LoadAccesses(rc: Cache, h: Host, h1: Host, h2: Host, h3: Host, r: Regs)
    requires Scratched(h, h1) && Settles(rc, h1, h2, r) && Accesses(rc, h2, h3, r, h2.m.c.mem, 1, 0)
    ensures Accesses(rc, h, h3, r, h.m.c.mem, 1, 0)
  {
    hide Ok, Represents;
  }

  // ------------------------------------------------------------ fast store

  /** `h1` is `h` with bytes stored, edx and the flags aside. */
  predicate XStored(h: Host, h1: Host, mem: seq<Byte>) {
    && h1 == h.(x := h1.x, flags := h1.flags, m := h.m.(c := h.m.c.(mem := mem)))
    && forall j :: 0 <= j < 32 && j != RDX ==> h1.x[j] == h.x[j]
  }

  lemma SwapLowStores(mem: seq<Byte>, at: nat, v: Word)
    requires at + 2 <= |mem|
    ensures StoreLE(mem, at, 2, SwapLow(v)) == StoreBE(mem, at, 2, v)
  {
    ByteOfJoin(ByteOf(v, 1), ByteOf(v, 0), ByteOf(v, 2), ByteOf(v, 3));
  }

  lemma XStoreWord(env: Env, i: Ir, v: HReg, h: Host, at: nat)
    requires i.size == 4 && v < 31 && HostAt(h, RAX, RCX, 4) == Some(at)
    ensures XStored(h, ApplyAll(env, XStoreOps(i, v), h), StoreBE(h.m.c.mem, at, 4, Get(h, v)))
  {
    hide StoreLE, StoreBE, Reverse, ApplyAll;
    Apply3(env, MovReg(RDX, v), Rev(RDX, RDX), StHost(RDX, RAX, RCX, 4), h);
    StoreReverses(h.m.c.mem, at, Get(h, v));
  }

  lemma XStoreHalf(env: Env, i: Ir, v: HReg, h: Host, at: nat)
    requires i.size == 2 && v < 31 && HostAt(h, RAX, RCX, 2) == Some(at)
    ensures XStored(h, ApplyAll(env, XStoreOps(i, v), h), StoreBE(h.m.c.mem, at, 2, Get(h, v)))
  {
    hide StoreLE, StoreBE, SwapLow, ApplyAll;
    var h1 := ApplyAll(env, [MovReg(RDX, v), Two(XSwapLow(RDX))], h);
    HalfSwapped(env, v, h);
    assert XStoreOps(i, v) == [MovReg(RDX, v), Two(XSwapLow(RDX))] + [StHost(RDX, RAX, RCX, 2)];
    ApplyConcat(env, [MovReg(RDX, v), Two(XSwapLow(RDX))], [StHost(RDX, RAX, RCX, 2)], h);
    Apply1(env, StHost(RDX, RAX, RCX, 2), h1);
    SwapLowStores(h.m.c.mem, at, Get(h, v));
  }

  lemma HalfSwapped(env: Env, v: HReg, h: Host)
    requires v < 31
    ensures
      var h1 := ApplyAll(env, [MovReg(RDX, v), Two(XSwapLow(RDX))], h);
      h1 == h.(x := h.x[RDX := W(SwapLow(Get(h, v)))], flags := h1.flags)
  {
    hide SwapLow, ApplyAll;
    Apply2(env, MovReg(RDX, v), Two(XSwapLow(RDX)), h);
  }

  lemma XStoreByte(env: Env, i: Ir, v: HReg, h: Host, at: nat)
    requires i.size == 1 && v < 31 && HostAt(h, RAX, RCX, 1) == Some(at)
    ensures XStored(h, ApplyAll(env, XStoreOps(i, v), h), StoreBE(h.m.c.mem, at, 1, Get(h, v)))
  {
    hide StoreLE, StoreBE, ApplyAll;
    Apply1(env, StHost(v, RAX, RCX, 1), h);
    StoreByte(h.m.c.mem, at, Get(h, v));
  }

  lemma XStoreComputes(env: Env, rc: Cache, i: Ir, v: HReg, h: Host, r: Regs, at: nat)
    requires X86(rc) && Ok(rc) && Represents(rc, h.x, h.m.c.r, r) && v < 31
    requires AccessSize(i.size) && HostAt(h, RAX, RCX, i.size) == Some(at)
    ensures
      var h1 := ApplyAll(env, XStoreOps(i, v), h);
      Accesses(rc, h, h1, r, StoreBE(h.m.c.mem, at, i.size, Get(h, v)), 0, 0)
  {
    hide Ok, Represents, StoreBE, ApplyAll, XStoreOps, HostAt;
    if i.size == 4 {
      XStoreWord(env, i, v, h, at);
    } else if i.size == 2 {
      XStoreHalf(env, i, v, h, at);
    } else {
      XStoreByte(env, i, v, h, at);
    }
    RepresentsFrame(rc, h.x, ApplyAll(env, XStoreOps(i, v), h).x, h.m.c.r, r);
  }

  lemma XStoreFastRefines(env: Env, rc: Cache, i: Ir, h: Host, r: Regs, va: Word, p: nat)
    requires X86(rc) && Ok(rc) && Represents(rc, h.x, h.m.c.r, r)
    requires Low(h.x[RCX]) == va && h.x[RAX] == Page(Some(p)) && AccessSize(i.size)
    requires p + va % 0x1000 + i.size <= |h.m.c.mem|
    ensures
      var (ops, rc1) := XStoreFast(i, rc);
      Accesses(rc1, h, ApplyAll(env, ops, h), r,
               StoreBE(h.m.c.mem, p + va % 0x1000, i.size, r[i.right]), 0, 1)
  {
    hide Ok, Represents, ApplyAll, XStoreOps, XRead, StoreBE, OnlyLoaded;
    var (ops, v, rc1) := XRead(rc, i.right, RDX);
    var at := p + va % 0x1000;
    var h1 := ApplyAll(env, [OFFSET], h);
    var h2 := ApplyAll(env, ops, h1);
    var h3 := ApplyAll(env, XStoreOps(i, v), h2);
    XOffsetRefines(env, rc, h, r, va, p, i.size);
    XOneRead(env, rc, i.right, RDX, h1, r);
    LoadedElsewhere(rc, h1.x, h2.x, RDX);
    XStoreComputes(env, rc1, i, v, h2, r, at);
    XCounts(env, rc1, h3, CWrites, r);
    ApplyConcat(env, [OFFSET], ops, h);
    ApplyConcat(env, [OFFSET] + ops, XStoreOps(i, v), h);
    ApplyConcat(env, [OFFSET] + ops + XStoreOps(i, v), [Two(XAddCounter(CWrites, 1))], h);
  }

  // ------------------------------------------------------------ the access

  lemma XLoadFastStep(env: Env, b: Block, k: nat, rc: Cache, h: Host, m: Machine, target: Word, budget: nat,
                      va: Word, p: nat)
    requires X86(rc) && Simulates(b, k, rc, h, m, target, budget) && CanStep(b, k, m, target) && b.ir[k].op.ILoad?
    requires va == Add(m.c.r[b.ir[k].left], b.ir[k].value) && AccessSize(b.ir[k].size)
    requires Low(h.x[RCX]) == va && h.x[RAX] == Page(Some(p))
    requires MemoryAt(m.c.sys, |m.c.mem|, va, b.ir[k].size) == Some(p + va % 0x1000)
    ensures
      var (ops, rc1) := XLoadFast(b.ir[k], rc);
      XStepResult(b, k, rc1, Eval(env, Ops(ops), h), m, Retire(env, b.words[k], m), target, budget)
  {
    hide Ok, Represents, ApplyAll, XLoadFast, Retire, MemoryAt, Extend, LoadBE, Before, Accesses, Left;
    var i := b.ir[k];
    var (ops, rc1) := XLoadFast(i, rc);
    var v := Extend(i.size, i.sign, LoadBE(m.c.mem, p + va % 0x1000, i.size));
    DecodeWellFormed(b.words[k]);
    XLoadFastRefines(env, rc, i, h, m.c.r, va, p);
    LoadMeaning(env, b, k, m, target, v, p + va % 0x1000);
    AccessesSim(b, k, rc, rc1, h, ApplyAll(env, ops, h), m, Retire(env, b.words[k], m),
                SetReg(m.c.r, i.dst, v), m.c.mem, 1, 0, target, budget);
  }

  lemma XStoreFastStep(env: Env, b: Block, k: nat, rc: Cache, h: Host, m: Machine, target: Word, budget: nat,
                       va: Word, p: nat)
    requires X86(rc) && Simulates(b, k, rc, h, m, target, budget) && CanStep(b, k, m, target) && b.ir[k].op.IStore?
    requires va == Add(m.c.r[b.ir[k].left], b.ir[k].value) && AccessSize(b.ir[k].size)
    requires Low(h.x[RCX]) == va && h.x[RAX] == Page(Some(p))
    requires MemoryAt(m.c.sys, |m.c.mem|, va, b.ir[k].size) == Some(p + va % 0x1000)
    requires RamAt(m.c.sys, va, b.ir[k].size)
    ensures
      var (ops, rc1) := XStoreFast(b.ir[k], rc);
      XStepResult(b, k, rc1, Eval(env, Ops(ops), h), m, Retire(env, b.words[k], m), target, budget)
  {
    hide Ok, Represents, ApplyAll, XStoreFast, Retire, MemoryAt, StoreBE, Before, Accesses, RamAt, Left;
    var i := b.ir[k];
    var (ops, rc1) := XStoreFast(i, rc);
    var at := p + va % 0x1000;
    DecodeWellFormed(b.words[k]);
    XStoreFastRefines(env, rc, i, h, m.c.r, va, p);
    StoreMeaning(env, b, k, m, target, at);
    AccessesSim(b, k, rc, rc1, h, ApplyAll(env, ops, h), m, Retire(env, b.words[k], m),
                m.c.r, StoreBE(m.c.mem, at, i.size, m.c.r[i.right]), 0, 1, target, budget);
  }

  lemma XFastCacheOk(rc: Cache, i: Ir)
    requires X86(rc) && Ok(rc)
    ensures Ok(XLoadFast(i, rc).1) && Ok(XStoreFast(i, rc).1)
  {
    hide Ok;
    WriteRegOk(rc, i.dst, RDX);
    ReadOk(rc, i.right, RDX);
  }

  /** Loads and stores: the fast path, or the reference through the helper. */
  lemma XMemoryStep(env: Env, b: Block, k: nat, rc: Cache, h: Host, m: Machine, target: Word, budget: nat)
    requires X86(rc) && Simulates(b, k, rc, h, m, target, budget) && CanStep(b, k, m, target) && IsAccess(b.ir[k].op)
    requires Safe(m.c.sys, |m.c.mem|) && TablesMatch(h.rd, h.wr, m.c.sys)
    ensures
      var (code, rc1) := XMemoryCode(b, k, rc);
      XStepResult(b, k, rc1, Eval(env, code, h), m, Retire(env, b.words[k], m), target, budget)
  {
    hide Ok, Represents, ApplyAll, Retire, MemoryAt, RamAt, Safe, XStepResult, XRead, XLoadFast, XStoreFast,
         XAddressOps, TableEntry, XSlowPath, Decode, Before, Add;
    var i := b.ir[k];
    DecodeWellFormed(b.words[k]);
    var (readOps, base, at) := XRead(rc, i.left, RCX);
    var (fast, join) := if i.op.IStore? then XStoreFast(i, at) else XLoadFast(i, at);
    var va := Add(m.c.r[i.left], i.value);
    var write := i.op.IStore?;
    var h1 := ApplyAll(env, readOps + XAddressOps(i, base), h);
    var h2 := ApplyAll(env, XLookup(write), h1);
    XPreRefines(env, rc, i, h, m.c.r);
    XLookupRefines(env, at, write, va, h1, m.c.r);
    XFastCacheOk(at, i);
    PreparesSim(b, k, rc, at, h, h1, m, target, budget);
    PreparesSim(b, k, at, at, h1, h2, m, target, budget);
    XSlowPathRefines(env, b, k, at, join, h1, m, target, budget);
    XSlowPathRefines(env, b, k, at, join, h2, m, target, budget);
    var entry := TableEntry(m.c.sys, va / 0x1000, write);
    assert h2.x[RAX] == Page(entry);
    if va % i.size == 0 && entry.Some? {
      TableAccess(m.c.sys, |m.c.mem|, va, i.size, write);
      if write {
        XStoreFastStep(env, b, k, at, h2, m, target, budget, va, entry.value);
      } else {
        XLoadFastStep(env, b, k, at, h2, m, target, budget, va, entry.value);
      }
    }
  }

  // ------------------------------------------------------------ trapping arithmetic

  /** The sum or difference in eax, with its overflow. */
  predicate Summed(i: Ir, h1: Host, a: Word, b: Word) {
    && Low(h1.x[RAX]) == (if i.op.ISubOv? then Sub(a, b) else Add(a, b))
    && h1.flags.v == FlagsOf(i.op.ISubOv?, a, b).v
  }

  lemma SumApplies(env: Env, rc: Cache, i: Ir, op: HOp, h: Host, b: Word, r: Regs)
    requires X86(rc) && Ok(rc) && Represents(rc, h.x, h.m.c.r, r)
    requires
      var alu := if i.op.ISubOv? then AluSub else AluAdd;
      op == Two(XAluImm(alu, RAX, b)) || (exists s: HReg :: op == Two(XAlu(alu, RAX, s)) && Get(h, s) == b)
    ensures
      var h1 := ApplyAll(env, [op], h);
      Prepares(rc, h, h1, r) && Summed(i, h1, Low(h.x[RAX]), b)
  {
    hide Ok, Represents, ApplyAll;
    Apply1(env, op, h);
    LowPrepares(rc, h, ApplyAll(env, [op], h), r);
  }

  lemma XTrapOperands(env: Env, rc: Cache, i: Ir, h: Host, r: Regs)
    requires X86(rc) && Ok(rc) && Represents(rc, h.x, h.m.c.r, r) && (i.op.IAddOv? || i.op.ISubOv?)
    ensures
      var (ops, rc1) := XTrapOps(rc, i);
      var h1 := ApplyAll(env, ops, h);
      X86(rc1) && Prepares(rc1, h, h1, r) && Summed(i, h1, r[i.left], RightValue(i, r))
  {
    hide Ok, Represents, ApplyAll, XRead, Summed, OnlyLoaded;
    var alu := if i.op.ISubOv? then AluSub else AluAdd;
    var (lops, l, rc1) := XRead(rc, i.left, RAX);
    if i.immediate {
      var ops := lops + [MovReg(RAX, l)];
      var h0 := ApplyAll(env, lops, h);
      XOneRead(env, rc, i.left, RAX, h, r);
      Apply1(env, MovReg(RAX, l), h0);
      ApplyConcat(env, lops, [MovReg(RAX, l)], h);
      LowScratch(rc1, h0, ApplyAll(env, ops, h), r);
      SumApplies(env, rc1, i, Two(XAluImm(alu, RAX, i.value)), ApplyAll(env, ops, h), i.value, r);
      ApplyConcat(env, ops, [Two(XAluImm(alu, RAX, i.value))], h);
    } else {
      var (rops, rr, rc2) := XRead(rc1, i.right, RDX);
      var ops := lops + [MovReg(RAX, l)] + rops;
      FactorsRefine(env, rc, i.left, i.right, h, r);
      SumApplies(env, rc2, i, Two(XAlu(alu, RAX, rr)), ApplyAll(env, ops, h), r[i.right], r);
      ApplyConcat(env, ops, [Two(XAlu(alu, RAX, rr))], h);
    }
  }

  lemma XTrapFast(env: Env, rc: Cache, g: Reg, h: Host, r: Regs)
    requires X86(rc) && Ok(rc) && Represents(rc, h.x, h.m.c.r, r)
    ensures
      var (d, rc1) := WriteReg(rc, g, RAX);
      X86(rc1) && Ok(rc1)
      && Settles(rc1, h, ApplyAll(env, [MovReg(d, RAX)] + Written(rc1, g, d), h), SetReg(r, g, Low(h.x[RAX])))
  {
    hide Ok, Represents, ApplyAll, Settles, Written, WriteReg;
    var (d, rc1) := WriteReg(rc, g, RAX);
    WriteHostX(rc, g, RAX);
    Apply1(env, MovReg(d, RAX), h);
    XWriteSettles(env, rc, g, RAX, h, [MovReg(d, RAX)], Low(h.x[RAX]), r);
  }

  /** ADD, SUB and ADDI take the reference path exactly on overflow. */
  lemma XTrappingStep(env: Env, b: Block, k: nat, rc: Cache, h: Host, m: Machine, target: Word, budget: nat)
    requires X86(rc) && Simulates(b, k, rc, h, m, target, budget) && CanStep(b, k, m, target)
    requires b.ir[k].op.IAddOv? || b.ir[k].op.ISubOv?
    ensures
      var (code, rc1) := XTrappingCode(b, k, rc);
      XStepResult(b, k, rc1, Eval(env, code, h), m, Retire(env, b.words[k], m), target, budget)
  {
    hide Ok, Represents, ApplyAll, Retire, XTrapOps, XSlowPath, AddOverflows, SubOverflows, FlagsOf,
         Settles, WriteReg, Written, Before, Left, Decode;
    var i := b.ir[k];
    var (ops, at) := XTrapOps(rc, i);
    var (d, join) := WriteReg(at, i.dst, RAX);
    var h1 := ApplyAll(env, ops, h);
    assert ApplyAll(env, [], h) == h by { ApplyNone(env, h); }
    XTrapOperands(env, rc, i, h, m.c.r);
    Overflows(m.c.r[i.left], RightValue(i, m.c.r));
    PreparesSim(b, k, rc, at, h, h1, m, target, budget);
    XTrapFast(env, at, i.dst, h1, m.c.r);
    XSlowPathRefines(env, b, k, at, join, h1, m, target, budget);
    if !h1.flags.v {
      TrapMeaning(env, b, k, m, target);
      SettlesSim(b, k, at, join, h1, ApplyAll(env, [MovReg(d, RAX)] + Written(join, i.dst, d), h1), m,
                 Retire(env, b.words[k], m), SetReg(m.c.r, i.dst, Low(h1.x[RAX])), target, budget);
    }
  }
}
