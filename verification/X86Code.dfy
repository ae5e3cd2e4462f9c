/** What the x86-64 back end emits for each part of a block (src/jit/x86_64.c), as a
    function of the register cache it emits under. Register numbers are names: the
    callee-saved registers keep the numbers of their AArch64 counterparts, so that r12d is
    `TARGET` and ebp is `BUDGET`. */
module X86Code {
  import opened Words
  import opened Wrappers
  import opened Mips
  import opened MipsIr
  import opened NativeBlock
  import opened HostCode
  import opened RegCache
  import opened A64Code

  const X86_REGS: seq<HReg> := [6, 7, 8, 9, 10, 11]
  const RAX: HReg := 0
  const RCX: HReg := 1
  const RDX: HReg := 2
  const RSI: HReg := 6
  const RDI: HReg := 7
  const R8: HReg := 8
  const RBX: HReg := 19

  function XEmpty(): Cache {
    Reset(X86_REGS)
  }

  predicate X86(rc: Cache) {
    Shape(rc) && rc.regs == X86_REGS
  }

  // ------------------------------------------------------------ instructions

  /** A constant; zero is made with `xor`, which sets the flags. */
  function MovI(d: HReg, v: Word): seq<HOp> {
    if v == 0 then [Two(XZero(d))] else [MovImm(d, v)]
  }

  function XRead(rc: Cache, g: Reg, scratch: HReg): (r: (seq<HOp>, HReg, Cache))
    requires Shape(rc)
    ensures Shape(r.2) && r.2.regs == rc.regs
  {
    if g == 0 then (MovI(scratch, 0), scratch, rc) else Read(rc, g, scratch)
  }

  /** `d = l op r` without clobbering `r`. */
  function Alu3(op: Alu, d: HReg, l: HReg, r: HReg): seq<HOp> {
    if d == l then [Two(XAlu(op, d, r))]
    else if d != r then [MovReg(d, l), Two(XAlu(op, d, r))]
    else if !op.AluSub? then [Two(XAlu(op, d, l))]
    else [MovReg(RAX, l), Two(XAlu(op, RAX, r)), MovReg(d, RAX)]
  }

  /** An immediate of zero is skipped, whatever the operation. */
  function AluImm(op: Alu, d: HReg, v: Word): seq<HOp> {
    if v != 0 then [Two(XAluImm(op, d, v))] else []
  }

  function XExitBlock(n: nat, retired: nat): Code
    requires retired <= n
  {
    Then(Ops(AluImm(AluAdd, BUDGET, Wrap(n - retired))), Exits(Done))
  }

  // ------------------------------------------------------------ helper calls

  /** Arguments of the helper for instruction `k` in edi, esi, edx, ecx and r8d. */
  function XArgOps(b: Block, k: nat): seq<HOp>
    requires k < |b.words|
  {
    [MovReg(RDI, RBX)] + MovI(RSI, b.words[k]) + MovI(RDX, Pc(b, k)) + MovI(RCX, Wrap(k))
    + (if InDelaySlot(b, k) then [MovReg(R8, TARGET)] else [])
  }

  function XCallOps(b: Block, k: nat): seq<HOp>
    requires k < |b.words|
  {
    XArgOps(b, k) + [Two(XCall(InDelaySlot(b, k)))]
  }

  function XHelper(b: Block, k: nat, rc: Cache): Code
    requires k < |b.words| && Shape(rc)
  {
    Then(Ops(Writeback(rc, 1) + XCallOps(b, k)),
         SkipIf(IsZero(RAX), XExitBlock(|b.words|, k + 1)))
  }

  function XSlowPath(b: Block, k: nat, atBranch: Cache, join: Cache): Code
    requires k < |b.words| && Shape(atBranch) && Shape(join)
  {
    Then(XHelper(b, k, atBranch), Ops(Restore(join, 1)))
  }

  // ------------------------------------------------------------ loads and stores

  /** Effective address in ecx, tested for alignment. */
  function XAddressOps(i: Ir, base: HReg): seq<HOp> {
    [MovReg(RCX, base)] + AluImm(AluAdd, RCX, i.value) + (if i.size > 1 then [TestLow(RCX, i.size)] else [])
  }

  /** Host page in rax. */
  function XLookup(write: bool): seq<HOp> {
    [MovReg(RDX, RCX), Two(XShift(Lsr, RDX, 12)), LdTable(RAX, RDX, write)]
  }

  function XLoadOps(i: Ir, d: HReg): seq<HOp> {
    if i.size == 4 then [LdHost(d, RAX, RCX, 4, false), Rev(d, d)]
    else if i.size == 2 then
      [LdHost(d, RAX, RCX, 2, false), Two(XSwapLow(d))] + (if i.sign then [Sxth(d)] else [])
    else [LdHost(d, RAX, RCX, 1, i.sign)]
  }

  function XStoreOps(i: Ir, v: HReg): seq<HOp> {
    if i.size == 4 then [MovReg(RDX, v), Rev(RDX, RDX), StHost(RDX, RAX, RCX, 4)]
    else if i.size == 2 then [MovReg(RDX, v), Two(XSwapLow(RDX)), StHost(RDX, RAX, RCX, 2)]
    else [StHost(v, RAX, RCX, 1)]
  }

  const OFFSET: HOp := Two(XAluImm(AluAnd, RCX, 0xFFF))

  function XLoadFast(i: Ir, rc: Cache): (r: (seq<HOp>, Cache))
    requires Shape(rc)
    ensures Shape(r.1) && r.1.regs == rc.regs
  {
    var (d, rc1) := WriteReg(rc, i.dst, RDX);
    ([OFFSET] + XLoadOps(i, d) + Written(rc1, i.dst, d) + [Two(XAddCounter(CReads, 1))], rc1)
  }

  function XStoreFast(i: Ir, rc: Cache): (r: (seq<HOp>, Cache))
    requires Shape(rc)
    ensures Shape(r.1) && r.1.regs == rc.regs
  {
    var (ops, v, rc1) := XRead(rc, i.right, RDX);
    ([OFFSET] + ops + XStoreOps(i, v) + [Two(XAddCounter(CWrites, 1))], rc1)
  }

  function XMemoryCode(b: Block, k: nat, rc: Cache): (r: (Code, Cache))
    requires k < |b.words| && |b.ir| == |b.words| && Shape(rc)
    ensures Shape(r.1) && r.1.regs == rc.regs
  {
    var i := b.ir[k];
    var (readOps, base, atBranch) := XRead(rc, i.left, RCX);
    var (fast, join) := if i.op.IStore? then XStoreFast(i, atBranch) else XLoadFast(i, atBranch);
    (Attempt(readOps + XAddressOps(i, base), if i.size > 1 then Some(OnFlags(NE)) else None,
             XLookup(i.op.IStore?), NoPage(RAX), Ops(fast), XSlowPath(b, k, atBranch, join)), join)
  }

  // ------------------------------------------------------------ arithmetic

  function HostAlu(op: IrOp): Alu {
    match op
    case IAdd => AluAdd
    case ISub => AluSub
    case IAnd => AluAnd
    case IXor => AluEor
    case _ => AluOrr
  }

  predicate IsSimple(op: IrOp) {
    op.IAdd? || op.ISub? || op.IAnd? || op.IOr? || op.IXor? || op.INor?
  }

  predicate IsCompare(op: IrOp) {
    op.ISlt? || op.ISltu?
  }

  /** Operands read before the destination is chosen: the right one into `scratch` when it
      is not cached. */
  function XOperands(rc: Cache, i: Ir, scratch: HReg): (r: (seq<HOp>, HReg, HReg, Cache))
    requires Shape(rc)
    ensures Shape(r.3) && r.3.regs == rc.regs
  {
    var (lops, l, rc1) := XRead(rc, i.left, RAX);
    if i.immediate then (lops, l, scratch, rc1)
    else
      var (rops, r, rc2) := XRead(rc1, i.right, scratch);
      (lops + rops, l, r, rc2)
  }

  /** A logical AND with $zero is known to be zero. */
  predicate ZeroAnd(i: Ir) {
    i.op.IAnd? && !i.immediate && (i.left == 0 || i.right == 0)
  }

  function SimpleOps(i: Ir, d: HReg, l: HReg, r: HReg): seq<HOp> {
    (if i.immediate then [MovReg(d, l)] + AluImm(HostAlu(i.op), d, i.value) else Alu3(HostAlu(i.op), d, l, r))
    + (if i.op.INor? then [Mvn(d, d)] else [])
  }

  /** The comparison, made before the destination is chosen. */
  function CompareOps(i: Ir, l: HReg, r: HReg): seq<HOp> {
    [if i.immediate then CmpImm(l, i.value) else ArithFlags(true, ZR, l, r), CSet(RAX, if i.op.ISlt? then LT else CC)]
  }

  function XShiftOps(i: Ir, d: HReg, l: HReg): seq<HOp> {
    [MovReg(d, l)]
    + (if !i.immediate then [Two(XShiftCl(ShiftKind(i.op), d))]
       else if i.value != 0 then [Two(XShift(ShiftKind(i.op), d, i.value))]
       else [])
  }

  /** Everything up to the choice of the destination, and the code that fills it. */
  function XBefore(rc: Cache, i: Ir): (r: (seq<HOp>, HReg, HReg, Cache))
    requires Shape(rc)
    ensures Shape(r.3) && r.3.regs == rc.regs
  {
    if ZeroAnd(i) then ([], RAX, RDX, rc)
    else
      var (ops, l, r, rc1) := XOperands(rc, i, if IsSimple(i.op) || IsCompare(i.op) then RDX else RCX);
      if IsSimple(i.op) then (ops, l, r, rc1)
      else if IsCompare(i.op) then (ops + CompareOps(i, l, r), RAX, r, rc1)
      else (ops + (if i.immediate then [] else [MovReg(RCX, r)]), l, RCX, rc1)
  }

  function XCompute(i: Ir, d: HReg, l: HReg, r: HReg): seq<HOp> {
    if ZeroAnd(i) then MovI(d, 0)
    else if IsSimple(i.op) then SimpleOps(i, d, l, r)
    else if IsCompare(i.op) then [MovReg(d, RAX)]
    else XShiftOps(i, d, l)
  }

  function XAluCode(rc: Cache, i: Ir): (r: (seq<HOp>, Cache))
    requires Shape(rc)
    ensures Shape(r.1) && r.1.regs == rc.regs
  {
    if i.dst == 0 then ([], rc)
    else
      var (ops, l, r, rc1) := XBefore(rc, i);
      var (d, rc2) := WriteReg(rc1, i.dst, RAX);
      (ops + XCompute(i, d, l, r) + Written(rc2, i.dst, d), rc2)
  }

  function XConstOps(i: Ir, d: HReg): seq<HOp> {
    match i.op
    case IConst => MovI(d, i.value)
    case IMfhi => [LdField(d, FHi)]
    case _ => [LdField(d, FLo)]
  }

  function XConstCode(rc: Cache, i: Ir): (r: (seq<HOp>, Cache))
    requires Shape(rc)
    ensures Shape(r.1) && r.1.regs == rc.regs
  {
    if i.dst == 0 then ([], rc)
    else
      var (d, rc1) := WriteReg(rc, i.dst, RAX);
      (XConstOps(i, d) + Written(rc1, i.dst, d), rc1)
  }

  function XHiLoCode(rc: Cache, i: Ir): (r: (seq<HOp>, Cache))
    requires Shape(rc)
    ensures Shape(r.1) && r.1.regs == rc.regs
  {
    if (i.op.IMult? || i.op.IMultu?) && (i.left == 0 || i.right == 0) then
      ([Two(XStoreField(FHi, 0)), Two(XStoreField(FLo, 0))], rc)
    else
      var (lops, l, rc1) := XRead(rc, i.left, RAX);
      if i.op.IMthi? || i.op.IMtlo? then (lops + [StField(l, if i.op.IMthi? then FHi else FLo)], rc1)
      else
        var (rops, r, rc2) := XRead(rc1, i.right, RDX);
        (lops + [MovReg(RAX, l)] + rops
         + [Two(XMultiply(i.op.IMult?, r)), StField(RAX, FLo), StField(RDX, FHi)], rc2)
  }

  /** ADD, SUB and ADDI: the sum is made in eax and the reference path taken on overflow. */
  function XTrapOps(rc: Cache, i: Ir): (r: (seq<HOp>, Cache))
    requires Shape(rc)
    ensures Shape(r.1) && r.1.regs == rc.regs
  {
    var op := if i.op.ISubOv? then AluSub else AluAdd;
    var (lops, l, rc1) := XRead(rc, i.left, RAX);
    if i.immediate then (lops + [MovReg(RAX, l)] + [Two(XAluImm(op, RAX, i.value))], rc1)
    else
      var (rops, r, rc2) := XRead(rc1, i.right, RDX);
      (lops + [MovReg(RAX, l)] + rops + [Two(XAlu(op, RAX, r))], rc2)
  }

  function XTrappingCode(b: Block, k: nat, rc: Cache): (r: (Code, Cache))
    requires k < |b.words| && |b.ir| == |b.words| && Shape(rc)
    ensures Shape(r.1) && r.1.regs == rc.regs
  {
    var i := b.ir[k];
    var (ops, atBranch) := XTrapOps(rc, i);
    var (d, join) := WriteReg(atBranch, i.dst, RAX);
    (Attempt([], None, ops, OnFlags(VS), Ops([MovReg(d, RAX)] + Written(join, i.dst, d)),
             XSlowPath(b, k, atBranch, join)), join)
  }

  // ------------------------------------------------------------ branches

  /** The comparison, both destinations and the select between them. */
  function XSelectOps(i: Ir, pc: Word, l: HReg, r: HReg): seq<HOp> {
    [if i.right == 0 then CmpImm(l, 0) else ArithFlags(true, ZR, l, r)]
    + MovI(TARGET, Add(pc, 8)) + MovI(RCX, Add(Add(pc, 4), i.value)) + [CSel(TARGET, RCX, TARGET, CondOf(i.op))]
  }

  /** The destination into r12d. */
  function XGoOps(rc: Cache, i: Ir, pc: Word): (r: (seq<HOp>, Cache))
    requires Shape(rc)
    ensures Shape(r.1) && r.1.regs == rc.regs
  {
    if i.op.IJump? then (MovI(TARGET, JumpGoes(pc, i.value)), rc)
    else
      var (lops, l, rc1) := XRead(rc, i.left, RAX);
      if i.op.IJumpr? then (lops + [MovReg(TARGET, l)], rc1)
      else if i.right == 0 then (lops + XSelectOps(i, pc, l, l), rc1)
      else
        var (rops, r, rc2) := XRead(rc1, i.right, RDX);
        (lops + rops + XSelectOps(i, pc, l, r), rc2)
  }

  function XBranchCode(rc: Cache, i: Ir, pc: Word): (r: (seq<HOp>, Cache))
    requires Shape(rc)
    ensures Shape(r.1) && r.1.regs == rc.regs
  {
    var (ops, rc1) := XGoOps(rc, i, pc);
    if i.dst == 0 then (ops, rc1)
    else
      var (d, rc2) := WriteReg(rc1, i.dst, RAX);
      (ops + (MovI(d, Add(pc, 8)) + Written(rc2, i.dst, d)), rc2)
  }

  // ------------------------------------------------------------ blocks

  function XInsnCode(b: Block, k: nat, rc: Cache): (r: (Code, Cache))
    requires k < |b.words| && |b.ir| == |b.words| && X86(rc)
    ensures X86(r.1)
  {
    var i := b.ir[k];
    if IsBranch(i.op) then Straight(XBranchCode(rc, i, Pc(b, k)))
    else if IsAccess(i.op) then XMemoryCode(b, k, rc)
    else if i.op.IAddOv? || i.op.ISubOv? then XTrappingCode(b, k, rc)
    else if i.op.IExec? then (XHelper(b, k, rc), XEmpty())
    else if i.op.IMult? || i.op.IMultu? || i.op.IMthi? || i.op.IMtlo? then Straight(XHiLoCode(rc, i))
    else if IsAlu(i.op) then Straight(XAluCode(rc, i))
    else Straight(XConstCode(rc, i))
  }

  function XBodyCode(b: Block, k: nat, rc: Cache): Code
    requires k <= |b.words| && |b.ir| == |b.words| && X86(rc)
    decreases |b.words| - k
  {
    if k == |b.words| then Ops(Writeback(rc, 1))
    else
      var (code, rc1) := XInsnCode(b, k, rc);
      Then(code, XBodyCode(b, k + 1, rc1))
  }

  function XCounterOps(b: Block): seq<HOp>
    requires |b.words| > 0
  {
    var n := |b.words|;
    [Two(XStoreField(FCurPc, Pc(b, n - 1))), Two(XAddCounter(CInsns, n)), Two(XAddCounter(CCycles, n)),
     Two(XAddCounter(CReads, n))]
  }

  function XPcOps(b: Block): seq<HOp> {
    var next := Pc(b, |b.words|);
    if b.branch == 0 then [Two(XStoreField(FPc, next)), Two(XStoreField(FNextPc, Add(next, 4)))]
    else if b.delay then
      [Two(XStoreLatch(LInDelay, true)), StField(TARGET, FPc), Two(XAluImm(AluAdd, TARGET, 4)),
       StField(TARGET, FNextPc)]
    else [Two(XStoreLatch(LBranchPending, true)), Two(XStoreField(FPc, next)), StField(TARGET, FNextPc)]
  }

  /** Where the block goes when it has run to its end; r12d holds the destination plus 4. */
  function XEndCode(b: Block): Code
    requires |b.words| > 0 && |b.ir| == |b.words| && b.branch <= |b.words|
  {
    if b.branch == 0 then Exits(if NeedsCheck(b) then Done else Link(0))
    else if !b.delay || NeedsCheck(b) then Exits(Done)
    else
      var br := b.ir[b.branch - 1];
      if br.op.IJump? then Exits(Link(0))
      else if br.op.IJumpr? then Then(Ops([Two(XAluImm(AluSub, TARGET, 4))]), Exits(Search))
      else
        Then(Ops([CmpImm(TARGET, Add(Add(Pc(b, b.branch - 1), 8), br.value))]),
             Then(ExitIf(OnFlags(EQ), Link(0)), Exits(Link(1))))
  }

  function XTailCode(b: Block): Code
    requires |b.words| > 0 && |b.ir| == |b.words| && b.branch <= |b.words|
  {
    Then(Ops(XCounterOps(b) + XPcOps(b)), XEndCode(b))
  }

  function XWordCode(b: Block, k: nat): Code
    requires k < |b.words|
  {
    Then(Ops([Two(XCmpGuest(b.guest + 4 * k, Reverse(b.words[k])))]), ExitIf(OnFlags(NE), Stale))
  }

  /** Compare the live words from index `k` with the compiled ones. */
  function XGuardCode(b: Block, k: nat): Code
    requires k <= |b.words|
    decreases |b.words| - k
  {
    if k == |b.words| then Ops([]) else Then(XWordCode(b, k), XGuardCode(b, k + 1))
  }

  function XClaimCode(b: Block): Code
    requires 0 < |b.words| <= MAX_INSNS
  {
    Then(Ops([CmpImm(BUDGET, |b.words|)]),
         Then(ExitIf(OnFlags(CC), Budget),
              Ops([Two(XAluImm(AluSub, BUDGET, |b.words|)), Two(XStoreLatch(LInDelay, false))])))
  }

  /** Everything from the chain entry on. */
  function XBlockCode(b: Block): Code
    requires 0 < |b.words| <= MAX_INSNS && |b.ir| == |b.words| && b.branch <= |b.words|
  {
    Then(Then(XGuardCode(b, 0), XClaimCode(b)), Then(XBodyCode(b, 0, XEmpty()), XTailCode(b)))
  }
}
