/** What the AArch64 back end emits for each part of a block, as a function of the
    register cache it emits under. `A64Emitter` writes this code out. */
module A64Code {
  import opened Words
  import opened Wrappers
  import opened Mips
  import opened MipsIr
  import opened NativeBlock
  import opened HostCode
  import opened RegCache

  const CACHE_REGS: seq<HReg> := [4, 5, 6, 7, 8, 10, 11, 12, 13, 14, 15]
  const ZR: HReg := 31
  const TARGET: HReg := 23
  const BUDGET: HReg := 24

  function Empty(): Cache {
    Reset(CACHE_REGS)
  }

  predicate A64(rc: Cache) {
    Shape(rc) && rc.regs == CACHE_REGS
  }

  /** `w[d] = w[s] + v` in the shortest form; register 31 is no source of the immediate
      forms. */
  function AddImm32(d: HReg, s: HReg, v: Word): seq<HOp> {
    if s == ZR then [MovImm(d, v)]
    else if v < 4096 then [AddImm(d, s, v)]
    else if Sub(0, v) < 4096 then [SubImm(d, s, Sub(0, v))]
    else [MovImm(17, v), Arith(AluAdd, d, s, 17)]
  }

  function Move(d: HReg, s: HReg): seq<HOp> {
    if d == s then [] else [MovReg(d, s)]
  }

  function ExitBlock(n: nat, retired: nat): Code
    requires retired <= n
  {
    Then(Ops(if n == retired then [] else AddImm32(BUDGET, BUDGET, Wrap(n - retired))), Exits(Done))
  }

  predicate InDelaySlot(b: Block, k: nat) {
    b.delay && k == |b.words| - 1
  }

  /** Arguments of the helper for instruction `k`: the word, its address, the number of
      instructions done, and the branch destination for a delay slot. */
  function ArgOps(b: Block, k: nat): seq<HOp>
    requires k < |b.words|
  {
    [MovReg(0, 19), MovImm(1, b.words[k]), MovImm(2, Pc(b, k)), MovImm(3, Wrap(k))]
    + (if InDelaySlot(b, k) then [MovReg(4, TARGET)] else [])
  }

  function CallOps(b: Block, k: nat): seq<HOp>
    requires k < |b.words|
  {
    ArgOps(b, k) + [Call(InDelaySlot(b, k))]
  }

  /** Write everything back, call, and leave the block when told to. */
  function Helper(b: Block, k: nat, rc: Cache): Code
    requires k < |b.words| && Shape(rc)
  {
    Then(Ops(Writeback(rc, 1) + CallOps(b, k)),
         SkipIf(IsZero(0), ExitBlock(|b.words|, k + 1)))
  }

  /** The helper under the cache state of the branch, then the fast path's live registers. */
  function SlowPath(b: Block, k: nat, atBranch: Cache, join: Cache): Code
    requires k < |b.words| && Shape(atBranch) && Shape(join)
  {
    Then(Helper(b, k, atBranch), Ops(Restore(join, 1)))
  }

  // ------------------------------------------------------------ loads and stores

  function AddressOps(i: Ir, base: HReg): seq<HOp> {
    (if i.value != 0 then AddImm32(1, base, i.value) else Move(1, base))
    + (if i.size > 1 then [TestLow(1, i.size)] else [])
  }

  function LoadOps(i: Ir, d: HReg): seq<HOp> {
    if i.size == 4 then [LdHost(d, 3, 1, 4, false), Rev(d, d)]
    else if i.size == 2 then
      [LdHost(d, 3, 1, 2, false), Rev16(d, d)] + (if i.sign then [Sxth(d)] else [])
    else [LdHost(d, 3, 1, 1, i.sign)]
  }

  function StoreOps(i: Ir, v: HReg): seq<HOp> {
    if i.size == 4 then [Rev(9, v), StHost(9, 3, 1, 4)]
    else if i.size == 2 then [Rev16(9, v), StHost(9, 3, 1, 2)]
    else [StHost(v, 3, 1, 1)]
  }

  function LoadFast(i: Ir, rc: Cache): (r: (seq<HOp>, Cache))
    requires Shape(rc)
    ensures Shape(r.1) && r.1.regs == rc.regs
  {
    var (d, rc1) := WriteReg(rc, i.dst, 9);
    ([PageOffset(1)] + LoadOps(i, d) + Written(rc1, i.dst, d) + [AddCounter(CReads, 1)], rc1)
  }

  function StoreFast(i: Ir, rc: Cache): (r: (seq<HOp>, Cache))
    requires Shape(rc)
    ensures Shape(r.1) && r.1.regs == rc.regs
  {
    var (ops, v, rc1) := Read(rc, i.right, 9);
    ([PageOffset(1)] + ops + StoreOps(i, v) + [AddCounter(CWrites, 1)], rc1)
  }

  function PageLookup(write: bool): (r: seq<HOp>)
    ensures |r| == 2
  {
    [ShiftImm(Lsr, 2, 1, 12), LdTable(3, 2, write)]
  }

  function MemoryCode(b: Block, k: nat, rc: Cache): (r: (Code, Cache))
    requires k < |b.words| && |b.ir| == |b.words| && Shape(rc)
    ensures Shape(r.1) && r.1.regs == rc.regs
  {
    var i := b.ir[k];
    var (readOps, base, atBranch) := Read(rc, i.left, 1);
    var (fast, join) := if i.op.IStore? then StoreFast(i, atBranch) else LoadFast(i, atBranch);
    (Attempt(readOps + AddressOps(i, base), if i.size > 1 then Some(OnFlags(NE)) else None,
             PageLookup(i.op.IStore?), NoPage(3), Ops(fast), SlowPath(b, k, atBranch, join)), join)
  }

  // ------------------------------------------------------------ arithmetic

  predicate ImmediateForm(i: Ir) {
    i.immediate && (i.op.IAdd? || i.op.IShl? || i.op.IShr? || i.op.ISar?)
  }

  /** Operand reads: ops, left host, right host, cache. */
  function Operands(rc: Cache, i: Ir): (r: (seq<HOp>, HReg, HReg, Cache))
    requires Shape(rc)
    ensures Shape(r.3) && r.3.regs == rc.regs
  {
    var (lops, l, rc1) := Read(rc, i.left, 1);
    if ImmediateForm(i) then (lops, l, ZR, rc1)
    else if i.immediate then (lops + [MovImm(2, i.value)], l, 2, rc1)
    else
      var (rops, r, rc2) := Read(rc1, i.right, 2);
      (lops + rops, l, r, rc2)
  }

  function ShiftKind(op: IrOp): Shift {
    if op.IShl? then Lsl else if op.IShr? then Lsr else Asr
  }

  function Compute(i: Ir, d: HReg, l: HReg, r: HReg): seq<HOp>
    requires IsAlu(i.op)
  {
    match i.op
    case IAdd => if i.immediate then AddImm32(d, l, i.value) else [Arith(AluAdd, d, l, r)]
    case ISub => [Arith(AluSub, d, l, r)]
    case IAnd => [Arith(AluAnd, d, l, r)]
    case IOr => [Arith(AluOrr, d, l, r)]
    case IXor => [Arith(AluEor, d, l, r)]
    case INor => [Arith(AluOrr, d, l, r), Mvn(d, d)]
    case ISlt => [ArithFlags(true, ZR, l, r), CSet(d, LT)]
    case ISltu => [ArithFlags(true, ZR, l, r), CSet(d, CC)]
    case _ =>
      var kind := ShiftKind(i.op);
      if !i.immediate then [ShiftReg(kind, d, l, r)]
      else if i.value % 32 == 0 then Move(d, l)
      else [ShiftImm(kind, d, l, i.value % 32)]
  }

  function AluCode(rc: Cache, i: Ir): (r: (seq<HOp>, Cache))
    requires Shape(rc) && IsAlu(i.op)
    ensures Shape(r.1) && r.1.regs == rc.regs
  {
    if i.dst == 0 then ([], rc)
    else
      var (ops, l, r, rc2) := Operands(rc, i);
      var (d, rc3) := WriteReg(rc2, i.dst, 3);
      (ops + Compute(i, d, l, r) + Written(rc3, i.dst, d), rc3)
  }

  function ConstOps(i: Ir, d: HReg): seq<HOp> {
    match i.op
    case IConst => [MovImm(d, i.value)]
    case IMfhi => [LdField(d, FHi)]
    case _ => [LdField(d, FLo)]
  }

  /** Destination-only entries: constants and moves from hi/lo. */
  function ConstCode(rc: Cache, i: Ir): (r: (seq<HOp>, Cache))
    requires Shape(rc)
    ensures Shape(r.1) && r.1.regs == rc.regs
  {
    if i.dst == 0 then ([], rc)
    else
      var (d, rc1) := WriteReg(rc, i.dst, 3);
      (ConstOps(i, d) + Written(rc1, i.dst, d), rc1)
  }

  function HiLoOps(i: Ir, l: HReg, r: HReg): seq<HOp> {
    match i.op
    case IMthi => [StField(l, FHi)]
    case IMtlo => [StField(l, FLo)]
    case _ => [Multiply(i.op.IMult?, 3, l, r), StField(3, FLo), HighHalf(3), StField(3, FHi)]
  }

  function HiLoCode(rc: Cache, i: Ir): (r: (seq<HOp>, Cache))
    requires Shape(rc)
    ensures Shape(r.1) && r.1.regs == rc.regs
  {
    var (lops, l, rc1) := Read(rc, i.left, 1);
    if i.op.IMthi? || i.op.IMtlo? then (lops + HiLoOps(i, l, l), rc1)
    else
      var (rops, r, rc2) := Read(rc1, i.right, 2);
      (lops + rops + HiLoOps(i, l, r), rc2)
  }

  /** ADD, SUB and ADDI: compute with flags, and take the reference path on overflow. */
  function TrappingCode(b: Block, k: nat, rc: Cache): (r: (Code, Cache))
    requires k < |b.words| && |b.ir| == |b.words| && Shape(rc)
    ensures Shape(r.1) && r.1.regs == rc.regs
  {
    var i := b.ir[k];
    var (ops, l, r, atBranch) := Operands(rc, i);
    var (d, join) := WriteReg(atBranch, i.dst, 9);
    var fast := (if i.dst != 0 then Move(d, 3) else []) + Written(join, i.dst, d);
    (Attempt([], None, ops + [ArithFlags(i.op.ISubOv?, 3, l, r)], OnFlags(VS),
             Ops(fast), SlowPath(b, k, atBranch, join)), join)
  }

  // ------------------------------------------------------------ branches

  function CondOf(op: IrOp): Cond {
    match op
    case IBeq => EQ
    case IBne => NE
    case IBlez => LE
    case IBgtz => GT
    case IBltz => LT
    case _ => GE
  }

  /** A J-type destination: the target field within the delay slot's 256 MiB region. */
  function JumpGoes(pc: Word, value: Word): Word {
    (Add(pc, 4) / 0x1000_0000) * 0x1000_0000 + value % 0x1000_0000
  }

  function DecideOps(i: Ir, pc: Word, l: HReg, r: HReg): seq<HOp> {
    match i.op
    case IJump => [MovImm(TARGET, JumpGoes(pc, i.value))]
    case IJumpr => [MovReg(TARGET, l)]
    case _ =>
      [ArithFlags(true, ZR, l, r), MovImm(TARGET, Add(pc, 8)), MovImm(3, Add(Add(pc, 4), i.value)),
       CSel(TARGET, 3, TARGET, CondOf(i.op))]
  }

  function BranchOperands(rc: Cache, i: Ir): (r: (seq<HOp>, HReg, HReg, Cache))
    requires Shape(rc)
    ensures Shape(r.3) && r.3.regs == rc.regs
  {
    if i.op.IJump? then ([], ZR, ZR, rc)
    else
      var (lops, l, rc1) := Read(rc, i.left, 1);
      if i.op.IJumpr? then (lops, l, ZR, rc1)
      else
        var (rops, r, rc2) := Read(rc1, i.right, 2);
        (lops + rops, l, r, rc2)
  }

  /** Destination into the branch register, then the link write, before the delay slot. */
  function BranchCode(rc: Cache, i: Ir, pc: Word): (r: (seq<HOp>, Cache))
    requires Shape(rc)
    ensures Shape(r.1) && r.1.regs == rc.regs
  {
    var (ops, l, r, rc1) := BranchOperands(rc, i);
    if i.dst == 0 then (ops + DecideOps(i, pc, l, r), rc1)
    else
      var (d, rc2) := WriteReg(rc1, i.dst, 3);
      (ops + DecideOps(i, pc, l, r) + [MovImm(d, Add(pc, 8))] + Written(rc2, i.dst, d), rc2)
  }

  // ------------------------------------------------------------ blocks

  function Straight(r: (seq<HOp>, Cache)): (Code, Cache) {
    (Ops(r.0), r.1)
  }

  function InsnCode(b: Block, k: nat, rc: Cache): (r: (Code, Cache))
    requires k < |b.words| && |b.ir| == |b.words| && A64(rc)
    ensures A64(r.1)
  {
    var i := b.ir[k];
    if IsBranch(i.op) then Straight(BranchCode(rc, i, Pc(b, k)))
    else if IsAccess(i.op) then MemoryCode(b, k, rc)
    else if i.op.IAddOv? || i.op.ISubOv? then TrappingCode(b, k, rc)
    else if i.op.IExec? then (Helper(b, k, rc), Empty())
    else if i.op.IMult? || i.op.IMultu? || i.op.IMthi? || i.op.IMtlo? then Straight(HiLoCode(rc, i))
    else if IsAlu(i.op) then Straight(AluCode(rc, i))
    else Straight(ConstCode(rc, i))
  }

  /** The body from instruction `k`, ending with everything written back. */
  function BodyCode(b: Block, k: nat, rc: Cache): Code
    requires k <= |b.words| && |b.ir| == |b.words| && A64(rc)
    decreases |b.words| - k
  {
    if k == |b.words| then Ops(Writeback(rc, 1))
    else
      var (code, rc1) := InsnCode(b, k, rc);
      Then(code, BodyCode(b, k + 1, rc1))
  }

  predicate NeedsCheck(b: Block)
    requires |b.ir| > 0
  {
    var last := b.ir[|b.ir| - 1];
    last.op.IExec? && last.endsBlock
  }

  function CounterOps(b: Block): seq<HOp>
    requires |b.words| > 0
  {
    var n := |b.words|;
    [MovImm(9, Pc(b, n - 1)), StField(9, FCurPc),
     AddCounter(CInsns, n), AddCounter(CCycles, n), AddCounter(CReads, n)]
  }

  function PcOps(b: Block): seq<HOp> {
    if b.branch == 0 then
      [MovImm(9, Pc(b, |b.words|)), StField(9, FPc)] + AddImm32(9, 9, 4) + [StField(9, FNextPc)]
    else if b.delay then
      [MovImm(9, 1), StLatch(9, LInDelay), StField(TARGET, FPc)] + AddImm32(9, TARGET, 4) + [StField(9, FNextPc)]
    else
      [MovImm(9, 1), StLatch(9, LBranchPending), MovImm(9, Pc(b, |b.words|)), StField(9, FPc),
       StField(TARGET, FNextPc)]
  }

  /** Where the block goes when it has run to its end. */
  function EndCode(b: Block): Code
    requires |b.words| > 0 && |b.ir| == |b.words| && b.branch <= |b.words|
  {
    if b.branch == 0 then Exits(if NeedsCheck(b) then Done else Link(0))
    else if !b.delay || NeedsCheck(b) then Exits(Done)
    else
      var br := b.ir[b.branch - 1];
      if br.op.IJump? then Exits(Link(0))
      else if br.op.IJumpr? then Exits(Search)
      else
        Then(Ops([MovImm(9, Add(Add(Pc(b, b.branch - 1), 4), br.value)), ArithFlags(true, ZR, TARGET, 9)]),
             Then(SkipIf(OnFlags(NE), Exits(Link(0))), Exits(Link(1))))
  }

  function TailCode(b: Block): Code
    requires |b.words| > 0 && |b.ir| == |b.words| && b.branch <= |b.words|
  {
    Then(Ops(CounterOps(b) + PcOps(b)), EndCode(b))
  }

  function PairCode(b: Block, k: nat): Code
    requires k + 1 < |b.words|
  {
    Then(Ops([LdGuest(10, b.guest + 4 * k, 2)]),
         ExitIf(Differs(10, Wide(Reverse(b.words[k + 1]), Reverse(b.words[k]))), Stale))
  }

  function LastCode(b: Block, k: nat): Code
    requires k < |b.words|
  {
    Then(Ops([LdGuest(10, b.guest + 4 * k, 1)]), ExitIf(Differs(10, W(Reverse(b.words[k]))), Stale))
  }

  /** Compare the live words from index `k` with the compiled ones, two at a time. */
  function GuardCode(b: Block, k: nat): Code
    requires k <= |b.words|
    decreases |b.words| - k
  {
    if k == |b.words| then Ops([])
    else if k + 1 < |b.words| then
      Then(PairCode(b, k), GuardCode(b, k + 2))
    else
      Then(LastCode(b, k), GuardCode(b, k + 1))
  }

  /** Budget check, claim and the cleared delay flag: nothing is touched before it passes. */
  function ClaimCode(b: Block): Code
    requires 0 < |b.words| <= MAX_INSNS
  {
    Then(Ops([CmpImm(BUDGET, |b.words|)]),
         Then(ExitIf(OnFlags(CC), Budget),
              Ops([SubImm(BUDGET, BUDGET, |b.words|), StLatch(ZR, LInDelay)])))
  }

  /** Everything from the chain entry on. */
  function BlockCode(b: Block): Code
    requires 0 < |b.words| <= MAX_INSNS && |b.ir| == |b.words| && b.branch <= |b.words|
  {
    Then(Then(GuardCode(b, 0), ClaimCode(b)), Then(BodyCode(b, 0, Empty()), TailCode(b)))
  }
}
