/** An abstract host processor for emitted block code: registers, flags, the guest
    structure, page tables and a small instruction set, without encodings. Code is a
    flat sequence with relative branches; `Code` is its structured form, and
    `FlattenRuns` shows that laying the structure out flat preserves what it does. */
module HostCode {
  import opened Words
  import opened Wrappers
  import opened BusMap
  import opened Mips

  type HReg = n: int | 0 <= n < 32

  /** Contents of a 64-bit host register as block code uses it: a zero-extended word, a
      64-bit product, or a host page pointer. */
  datatype Val = W(w: Word) | Wide(hi: Word, lo: Word) | Page(p: Option<nat>)

  function Low(v: Val): Word {
    match v
    case W(w) => w
    case Wide(_, lo) => lo
    case Page(_) => 0
  }

  type Vals = s: seq<Val> | |s| == 32 witness seq(32, _ => W(0))
  type Table = t: seq<Option<nat>> | |t| == 0x10_0000 witness seq(0x10_0000, _ => None)

  datatype Flags = Flags(n: bool, z: bool, c: bool, v: bool)

  datatype Host = Host(x: Vals, flags: Flags, m: Machine, rd: Table, wr: Table, fault: bool)

  datatype Cond = EQ | NE | CS | CC | VS | GE | LT | GT | LE

  datatype Alu = AluAdd | AluSub | AluAnd | AluOrr | AluEor
  datatype Shift = Lsl | Lsr | Asr
  datatype Field = FHi | FLo | FPc | FNextPc | FCurPc
  datatype Latch = LInDelay | LBranchPending
  datatype Counter = CInsns | CCycles | CReads | CWrites

  datatype HOp =
    | MovImm(d: HReg, v: Word)
    | MovReg(d: HReg, s: HReg)
    | LdGpr(d: HReg, g: Reg)
    | StGpr(s: HReg, g: Reg)
    | LdField(d: HReg, f: Field)
    | StField(s: HReg, f: Field)
    | StLatch(s: HReg, latch: Latch)
    | AddImm(d: HReg, s: HReg, v: Word)
    | SubImm(d: HReg, s: HReg, v: Word)
    | Arith(op: Alu, d: HReg, l: HReg, r: HReg)
    | ArithFlags(sub: bool, d: HReg, l: HReg, r: HReg)
    | Mvn(d: HReg, s: HReg)
    | CSet(d: HReg, cond: Cond)
    | CSel(d: HReg, a: HReg, b: HReg, cond: Cond)
    | ShiftImm(kind: Shift, d: HReg, s: HReg, n: nat)
    | ShiftReg(kind: Shift, d: HReg, s: HReg, count: HReg)
    | Multiply(signed: bool, d: HReg, l: HReg, r: HReg)
    | HighHalf(d: HReg)
    | TestLow(s: HReg, size: nat)
    | LdTable(d: HReg, s: HReg, write: bool)
    | PageOffset(d: HReg)
    | LdHost(d: HReg, page: HReg, off: HReg, size: nat, sign: bool)
    | StHost(s: HReg, page: HReg, off: HReg, size: nat)
    | Rev(d: HReg, s: HReg)
    | Rev16(d: HReg, s: HReg)
    | Sxth(d: HReg)
    | AddCounter(counter: Counter, n: nat)
    | LdGuest(d: HReg, at: nat, words: nat)
    | CmpImm(s: HReg, v: Word)
    | Call(delay: bool)
    | Two(x: XOp)

  /** Instructions of the two-operand processor (x86-64). Its arithmetic sets the flags, its
      counters and comparisons take memory operands, and a product goes to registers 2
      and 0. */
  datatype XOp =
    | XZero(d: HReg)
    | XAlu(op: Alu, d: HReg, s: HReg)
    | XAluImm(op: Alu, d: HReg, v: Word)
    | XShift(kind: Shift, d: HReg, n: nat)
    | XShiftCl(kind: Shift, d: HReg)
    | XMultiply(signed: bool, s: HReg)
    | XSwapLow(d: HReg)
    | XAddCounter(counter: Counter, n: nat)
    | XStoreField(f: Field, v: Word)
    | XStoreLatch(latch: Latch, on: bool)
    | XCmpGuest(at: nat, v: Word)
    | XCall(delay: bool)

  // ------------------------------------------------------------ operations

  function Get(h: Host, r: HReg): Word {
    if r == 31 then 0 else Low(h.x[r])
  }

  function Put(h: Host, r: HReg, v: Val): Host {
    if r == 31 then h else h.(x := h.x[r := v])
  }

  function PutW(h: Host, r: HReg, v: Word): Host {
    Put(h, r, W(v))
  }

  predicate Holds(f: Flags, cond: Cond) {
    match cond
    case EQ => f.z
    case NE => !f.z
    case CS => f.c
    case CC => !f.c
    case VS => f.v
    case GE => f.n == f.v
    case LT => f.n != f.v
    case GT => !f.z && f.n == f.v
    case LE => f.z || f.n != f.v
  }

  predicate InSigned(x: int) {
    -0x8000_0000 <= x < 0x8000_0000
  }

  function FlagsOf(sub: bool, l: Word, r: Word): Flags {
    var res := if sub then Sub(l, r) else Add(l, r);
    Flags(Negative(res), res == 0,
          if sub then l >= r else l + r >= TWO32,
          if sub then !InSigned(Signed(l) - Signed(r)) else !InSigned(Signed(l) + Signed(r)))
  }

  function AluOf(op: Alu, l: Word, r: Word): Word {
    match op
    case AluAdd => Add(l, r)
    case AluSub => Sub(l, r)
    case AluAnd => And(l, r)
    case AluOrr => Or(l, r)
    case AluEor => Xor(l, r)
  }

  function ShiftOf(kind: Shift, v: Word, n: nat): Word {
    match kind
    case Lsl => ShiftLeft(v, n)
    case Lsr => ShiftRight(v, n)
    case Asr => ShiftArith(v, n)
  }

  /** Bytes of a word, lowest first. */
  function ByteOf(v: Word, n: nat): Byte
    requires n < 4
  {
    if n == 0 then v % 0x100 else if n == 1 then (v / 0x100) % 0x100
    else if n == 2 then (v / 0x1_0000) % 0x100 else v / 0x100_0000
  }

  function Join(b0: int, b1: int, b2: int, b3: int): int {
    b0 + b1 * 0x100 + b2 * 0x1_0000 + b3 * 0x100_0000
  }

  /** Little-endian host load and store. */
  function LoadLE(mem: seq<Byte>, at: nat, size: nat): Word
    requires AccessSize(size) && at + size <= |mem|
  {
    if size == 4 then Join(mem[at], mem[at + 1], mem[at + 2], mem[at + 3])
    else if size == 2 then Join(mem[at], mem[at + 1], 0, 0)
    else mem[at]
  }

  /** One or two adjacent words as one little-endian host load sees them. */
  function GuestWords(mem: seq<Byte>, at: nat, words: nat): Val
    requires (words == 1 || words == 2) && at + 4 * words <= |mem|
  {
    if words == 1 then W(LoadLE(mem, at, 4)) else Wide(LoadLE(mem, at + 4, 4), LoadLE(mem, at, 4))
  }

  function StoreLE(mem: seq<Byte>, at: nat, size: nat, v: Word): seq<Byte>
    requires AccessSize(size) && at + size <= |mem|
  {
    if size == 4 then
      mem[at := ByteOf(v, 0)][at + 1 := ByteOf(v, 1)][at + 2 := ByteOf(v, 2)][at + 3 := ByteOf(v, 3)]
    else if size == 2 then mem[at := ByteOf(v, 0)][at + 1 := ByteOf(v, 1)]
    else mem[at := ByteOf(v, 0)]
  }

  function Reverse(v: Word): Word {
    Join(ByteOf(v, 3), ByteOf(v, 2), ByteOf(v, 1), ByteOf(v, 0))
  }

  function Reverse16(v: Word): Word {
    Join(ByteOf(v, 1), ByteOf(v, 0), ByteOf(v, 3), ByteOf(v, 2))
  }

  function FieldOf(c: Cpu, f: Field): Word {
    match f
    case FHi => c.hi
    case FLo => c.lo
    case FPc => c.pc
    case FNextPc => c.nextPc
    case FCurPc => c.curPc
  }

  function WithField(c: Cpu, f: Field, v: Word): Cpu {
    match f
    case FHi => c.(hi := v)
    case FLo => c.(lo := v)
    case FPc => c.(pc := v)
    case FNextPc => c.(nextPc := v)
    case FCurPc => c.(curPc := v)
  }

  function CountUp(m: Machine, counter: Counter, n: nat): Machine {
    match counter
    case CInsns => m.(c := m.c.(insns := m.c.insns + n))
    case CCycles => m.(c := m.c.(cycles := m.c.cycles + n))
    case CReads => m.(busReads := m.busReads + n)
    case CWrites => m.(busWrites := m.busWrites + n)
  }

  function WithCpu(h: Host, c: Cpu): Host {
    h.(m := h.m.(c := c))
  }

  /** Host byte address of an access through a page pointer, when it is one. */
  function HostAt(h: Host, page: HReg, off: HReg, size: nat): (at: Option<nat>)
    requires AccessSize(size)
    ensures at.Some? ==> at.value + size <= |h.m.c.mem|
  {
    match h.x[page]
    case Page(Some(p)) =>
      var at := p + Get(h, off);
      if at + size <= |h.m.c.mem| then Some(at) else None
    case _ => None
  }

  // ------------------------------------------------------------ the helpers

  /** `jit_finish`: decide whether the block must be left and settle the counters. */
  function Finish(before: Cpu, e: Effect, m: Machine, expected: Word, k: nat): (bool, Machine) {
    var c := e.c.(r := e.c.r[0 := 0]);
    var leave := c.pc != expected || c.branchPending || c.sys.halted || c.sys.powerStopped
                 || c.sys.irqLines != before.sys.irqLines || c.sys.generation != before.sys.generation;
    var writes := m.busWrites + e.busWrites;
    if leave then
      (true, Machine(c.(insns := c.insns + 1, cycles := c.cycles + 1),
                     m.busReads + e.busReads + k + 1, writes))
    else
      (false, Machine(c.(insns := c.insns - k, cycles := c.cycles - k),
                      m.busReads + e.busReads, writes))
  }

  /** `mh_jit_exec`. */
  function JitExec(env: Env, m: Machine, word: Word, pc: Word, k: nat): (bool, Machine) {
    var c := m.c.(curPc := pc, pc := Add(pc, 4), nextPc := Add(pc, 8),
                  insns := m.c.insns + k, cycles := m.c.cycles + k);
    Finish(m.c, Exec(env, word, c), m, Add(pc, 4), k)
  }

  /** `mh_jit_exec_delay`. */
  function JitExecDelay(env: Env, m: Machine, word: Word, pc: Word, k: nat, target: Word): (bool, Machine) {
    var c := m.c.(curPc := pc, inDelay := true, pc := target, nextPc := Add(target, 4),
                  insns := m.c.insns + k, cycles := m.c.cycles + k);
    Finish(m.c, Exec(env, word, c), m, target, k)
  }

  /** A call destroys every caller-saved register and returns in register 0. */
  function CallRegisters(env: Env, c: Cpu, x: Vals, result: Word): (x': seq<Val>)
    ensures |x'| == 32 && x'[0] == W(result)
    ensures forall j :: 18 < j < 32 ==> x'[j] == x[j]
  {
    seq(32, j requires 0 <= j < 32 =>
      if j == 0 then W(result) else if j <= 18 then W(env.clobber(c, j)) else x[j])
  }

  function AfterCall(env: Env, h: Host, result: (bool, Machine)): Host {
    h.(x := CallRegisters(env, result.1.c, h.x, Flag(result.0)), m := result.1)
  }

  function WithLatch(c: Cpu, latch: Latch, on: bool): Cpu {
    match latch
    case LInDelay => c.(inDelay := on)
    case LBranchPending => c.(branchPending := on)
  }

  /** Flags after two-operand arithmetic; `c` is the complement of that processor's carry. */
  function XFlags(op: Alu, l: Word, r: Word): Flags {
    match op
    case AluAdd => FlagsOf(false, l, r).(c := !FlagsOf(false, l, r).c)
    case AluSub => FlagsOf(true, l, r)
    case _ => Flags(Negative(AluOf(op, l, r)), AluOf(op, l, r) == 0, true, false)
  }

  /** Flags nothing may depend on. */
  function Spoilt(env: Env, h: Host): Host {
    var bits := env.clobber(h.m.c, 32);
    h.(flags := Flags(bits % 2 == 1, (bits / 2) % 2 == 1, (bits / 4) % 2 == 1, (bits / 8) % 2 == 1))
  }

  /** The low half of a word with its bytes swapped. */
  function SwapLow(v: Word): Word {
    Join(ByteOf(v, 1), ByteOf(v, 0), ByteOf(v, 2), ByteOf(v, 3))
  }

  function ApplyTwo(env: Env, op: XOp, h: Host): Host {
    match op
    case XZero(d) => PutW(h.(flags := XFlags(AluEor, 0, 0)), d, 0)
    case XAlu(op, d, s) =>
      PutW(h.(flags := XFlags(op, Get(h, d), Get(h, s))), d, AluOf(op, Get(h, d), Get(h, s)))
    case XAluImm(op, d, v) => PutW(h.(flags := XFlags(op, Get(h, d), v)), d, AluOf(op, Get(h, d), v))
    case XShift(kind, d, n) => PutW(Spoilt(env, h), d, ShiftOf(kind, Get(h, d), n % 32))
    case XShiftCl(kind, d) => PutW(Spoilt(env, h), d, ShiftOf(kind, Get(h, d), Get(h, 1) % 32))
    case XMultiply(signed, s) =>
      var p := Product(signed, Get(h, 0), Get(h, s));
      PutW(PutW(Spoilt(env, h), 0, LowWord(p)), 2, HighWord(p))
    case XSwapLow(d) => PutW(Spoilt(env, h), d, SwapLow(Get(h, d)))
    case XAddCounter(counter, n) => Spoilt(env, h).(m := CountUp(h.m, counter, n))
    case XStoreField(f, v) => WithCpu(h, WithField(h.m.c, f, v))
    case XStoreLatch(latch, on) => WithCpu(h, WithLatch(h.m.c, latch, on))
    case XCmpGuest(at, v) =>
      if at + 4 > |h.m.c.mem| then h.(fault := true)
      else h.(flags := FlagsOf(true, LoadLE(h.m.c.mem, at, 4), v))
    case XCall(delay) =>
      AfterCall(env, Spoilt(env, h),
                if delay then JitExecDelay(env, h.m, Get(h, 6), Get(h, 2), Get(h, 1), Get(h, 8))
                else JitExec(env, h.m, Get(h, 6), Get(h, 2), Get(h, 1)))
  }

  function Apply(env: Env, op: HOp, h: Host): Host {
    match op
    case MovImm(d, v) => PutW(h, d, v)
    case MovReg(d, s) => PutW(h, d, Get(h, s))
    case LdGpr(d, g) => PutW(h, d, h.m.c.r[g])
    case StGpr(s, g) => WithCpu(h, h.m.c.(r := h.m.c.r[g := Get(h, s)]))
    case LdField(d, f) => PutW(h, d, FieldOf(h.m.c, f))
    case StField(s, f) => WithCpu(h, WithField(h.m.c, f, Get(h, s)))
    case StLatch(s, latch) =>
      var on := Get(h, s) != 0;
      WithCpu(h, WithLatch(h.m.c, latch, on))
    case AddImm(d, s, v) => PutW(h, d, Add(Get(h, s), v))
    case SubImm(d, s, v) => PutW(h, d, Sub(Get(h, s), v))
    case Arith(op, d, l, r) => PutW(h, d, AluOf(op, Get(h, l), Get(h, r)))
    case ArithFlags(sub, d, l, r) =>
      var a, b := Get(h, l), Get(h, r);
      PutW(h.(flags := FlagsOf(sub, a, b)), d, if sub then Sub(a, b) else Add(a, b))
    case Mvn(d, s) => PutW(h, d, Not(Get(h, s)))
    case CSet(d, cond) => PutW(h, d, if Holds(h.flags, cond) then 1 else 0)
    case CSel(d, a, b, cond) => PutW(h, d, if Holds(h.flags, cond) then Get(h, a) else Get(h, b))
    case ShiftImm(kind, d, s, n) => PutW(h, d, ShiftOf(kind, Get(h, s), n))
    case ShiftReg(kind, d, s, count) => PutW(h, d, ShiftOf(kind, Get(h, s), Get(h, count) % 32))
    case Multiply(signed, d, l, r) =>
      var p := Product(signed, Get(h, l), Get(h, r));
      Put(h, d, Wide(HighWord(p), LowWord(p)))
    case HighHalf(d) => PutW(h, d, if h.x[d].Wide? then h.x[d].hi else 0)
    case TestLow(s, size) => h.(flags := Flags(false, size > 0 && Get(h, s) % size == 0, false, false))
    case LdTable(d, s, write) =>
      var page := Get(h, s);
      if page < 0x10_0000 then Put(h, d, Page(if write then h.wr[page] else h.rd[page]))
      else h.(fault := true)
    case PageOffset(d) => PutW(h, d, Get(h, d) % 0x1000)
    case LdHost(d, page, off, size, sign) =>
      if !AccessSize(size) || HostAt(h, page, off, size).None? then h.(fault := true)
      else
        var v := LoadLE(h.m.c.mem, HostAt(h, page, off, size).value, size);
        PutW(h, d, if sign && size == 1 then SignExtend8(v) else v)
    case StHost(s, page, off, size) =>
      if !AccessSize(size) || HostAt(h, page, off, size).None? then h.(fault := true)
      else
        WithCpu(h, h.m.c.(mem := StoreLE(h.m.c.mem, HostAt(h, page, off, size).value, size, Get(h, s))))
    case Rev(d, s) => PutW(h, d, Reverse(Get(h, s)))
    case Rev16(d, s) => PutW(h, d, Reverse16(Get(h, s)))
    case Sxth(d) => PutW(h, d, SignExtend16(Get(h, d)))
    case AddCounter(counter, n) => PutW(h.(m := CountUp(h.m, counter, n)), 9, 0)
    case LdGuest(d, at, words) =>
      if at + 4 * words > |h.m.c.mem| || !(words == 1 || words == 2) then h.(fault := true)
      else Put(h, d, GuestWords(h.m.c.mem, at, words))
    case CmpImm(s, v) => h.(flags := FlagsOf(true, Get(h, s), v))
    case Call(delay) =>
      AfterCall(env, h, if delay then JitExecDelay(env, h.m, Get(h, 1), Get(h, 2), Get(h, 3), Get(h, 4))
                        else JitExec(env, h.m, Get(h, 1), Get(h, 2), Get(h, 3)))
    case Two(x) => ApplyTwo(env, x, h)
  }

  function ApplyAll(env: Env, ops: seq<HOp>, h: Host): Host
    decreases |ops|
  {
    if ops == [] then h else ApplyAll(env, ops[1..], Apply(env, ops[0], h))
  }

  lemma {:induction false} ApplyConcat(env: Env, a: seq<HOp>, b: seq<HOp>, h: Host)
    ensures ApplyAll(env, a + b, h) == ApplyAll(env, b, ApplyAll(env, a, h))
    decreases |a|
  {
    if a == [] {
      assert a + b == b;
    } else {
      assert (a + b)[1..] == a[1..] + b;
      ApplyConcat(env, a[1..], b, Apply(env, a[0], h));
    }
  }

  lemma ApplyNone(env: Env, h: Host)
    ensures ApplyAll(env, [], h) == h
  {
  }

  lemma Apply1(env: Env, a: HOp, h: Host)
    ensures ApplyAll(env, [a], h) == Apply(env, a, h)
  {
    assert [a][1..] == [];
  }

  lemma Apply2(env: Env, a: HOp, b: HOp, h: Host)
    ensures ApplyAll(env, [a, b], h) == Apply(env, b, Apply(env, a, h))
  {
    assert [a, b][1..] == [b];
    Apply1(env, b, Apply(env, a, h));
  }

  lemma Apply3(env: Env, a: HOp, b: HOp, c: HOp, h: Host)
    ensures ApplyAll(env, [a, b, c], h) == Apply(env, c, Apply(env, b, Apply(env, a, h)))
  {
    assert [a, b, c][1..] == [b, c];
    Apply2(env, b, c, Apply(env, a, h));
  }

  // ------------------------------------------------------------ control flow

  /** What a conditional branch tests. */
  datatype Test = OnFlags(cond: Cond) | IsZero(r: HReg) | NoPage(r: HReg) | Differs(r: HReg, v: Val)

  predicate Passes(h: Host, t: Test) {
    match t
    case OnFlags(cond) => Holds(h.flags, cond)
    case IsZero(r) => Get(h, r) == 0
    case NoPage(r) => h.x[r] == Page(None)
    case Differs(r, v) => h.x[r] != v
  }

  /** Where control leaves the block: back to the caller, to a link site, or into the
      block-table search of a register jump. */
  datatype Exit = Done | Stale | Budget | Link(n: nat) | Search

  datatype Result = Fall(h: Host) | Out(exit: Exit, h: Host)

  datatype Insn = Plain(op: HOp) | Jump(rel: nat) | JumpIf(t: Test, rel: nat)
    | Leave(exit: Exit) | LeaveIf(t: Test, exit: Exit)

  /** Flat code. A branch at index i with displacement rel continues at i + rel, and
      every branch inside a block goes forward. */
  function Run(env: Env, code: seq<Insn>, h: Host): Result
    decreases |code|
  {
    if code == [] then Fall(h)
    else
      match code[0]
      case Plain(op) => Run(env, code[1..], Apply(env, op, h))
      case Jump(rel) => if 1 <= rel <= |code| then Run(env, code[rel..], h) else Out(Done, h.(fault := true))
      case JumpIf(t, rel) =>
        if !Passes(h, t) then Run(env, code[1..], h)
        else if 1 <= rel <= |code| then Run(env, code[rel..], h) else Out(Done, h.(fault := true))
      case Leave(exit) => Out(exit, h)
      case LeaveIf(t, exit) => if Passes(h, t) then Out(exit, h) else Run(env, code[1..], h)
  }

  /** Structured code. `Attempt` is a fast path with up to two branches out of its
      preparation to one shared slow path that rejoins it. */
  datatype Code =
    | Ops(ops: seq<HOp>)
    | Then(a: Code, b: Code)
    | SkipIf(t: Test, body: Code)
    | Attempt(pre: seq<HOp>, early: Option<Test>, mid: seq<HOp>, late: Test, fast: Code, slow: Code)
    | Exits(exit: Exit)
    | ExitIf(t: Test, exit: Exit)

  function Eval(env: Env, code: Code, h: Host): Result {
    match code
    case Ops(ops) => Fall(ApplyAll(env, ops, h))
    case Then(a, b) =>
      (match Eval(env, a, h)
       case Fall(h') => Eval(env, b, h')
       case Out(e, h') => Out(e, h'))
    case SkipIf(t, body) => if Passes(h, t) then Fall(h) else Eval(env, body, h)
    case Attempt(pre, early, mid, late, fast, slow) =>
      var h1 := ApplyAll(env, pre, h);
      if early.Some? && Passes(h1, early.value) then Eval(env, slow, h1)
      else
        var h2 := ApplyAll(env, mid, h1);
        if Passes(h2, late) then Eval(env, slow, h2) else Eval(env, fast, h2)
    case Exits(e) => Out(e, h)
    case ExitIf(t, e) => if Passes(h, t) then Out(e, h) else Fall(h)
  }

  function Plains(ops: seq<HOp>): (r: seq<Insn>)
    ensures |r| == |ops|
  {
    seq(|ops|, i requires 0 <= i < |ops| => Plain(ops[i]))
  }

  function AttemptLayout(pre: seq<HOp>, early: Option<Test>, mid: seq<HOp>, late: Test,
                         fast: seq<Insn>, slow: seq<Insn>): seq<Insn>
  {
    var toSlow := |fast| + 2;
    var test1 := if early.Some? then [JumpIf(early.value, 1 + |mid| + toSlow)] else [];
    Plains(pre) + test1 + Plains(mid) + [JumpIf(late, toSlow)] + Arms(fast, slow)
  }

  function Flatten(code: Code): seq<Insn> {
    match code
    case Ops(ops) => Plains(ops)
    case Then(a, b) => Flatten(a) + Flatten(b)
    case SkipIf(t, body) => [JumpIf(t, 1 + |Flatten(body)|)] + Flatten(body)
    case Attempt(pre, early, mid, late, fast, slow) =>
      AttemptLayout(pre, early, mid, late, Flatten(fast), Flatten(slow))
    case Exits(e) => [Leave(e)]
    case ExitIf(t, e) => [LeaveIf(t, e)]
  }

  /** The fast path, its join jump and the slow path, laid out in that order. */
  function Arms(fast: seq<Insn>, slow: seq<Insn>): seq<Insn> {
    fast + [Jump(1 + |slow|)] + slow
  }

  function Continue(env: Env, r: Result, rest: seq<Insn>): Result {
    match r
    case Fall(h) => Run(env, rest, h)
    case Out(e, h) => Out(e, h)
  }

  lemma {:induction false} RunPlains(env: Env, ops: seq<HOp>, rest: seq<Insn>, h: Host)
    ensures Run(env, Plains(ops) + rest, h) == Run(env, rest, ApplyAll(env, ops, h))
    decreases |ops|
  {
    if ops == [] {
      assert Plains(ops) + rest == rest;
    } else {
      assert (Plains(ops) + rest)[1..] == Plains(ops[1..]) + rest;
      RunPlains(env, ops[1..], rest, Apply(env, ops[0], h));
    }
  }

  lemma RunJumpIf(env: Env, t: Test, rel: nat, rest: seq<Insn>, h: Host)
    requires 1 <= rel <= 1 + |rest|
    ensures Run(env, [JumpIf(t, rel)] + rest, h) == Run(env, if Passes(h, t) then rest[rel - 1..] else rest, h)
  {
    var code := [JumpIf(t, rel)] + rest;
    assert code[1..] == rest;
    assert code[rel..] == rest[rel - 1..];
  }

  /** The flat layout does what the structure says, whatever follows it: every patched
      displacement lands where the structure rejoins. */
  lemma {:induction false} FlattenRuns(env: Env, code: Code, rest: seq<Insn>, h: Host)
    ensures Run(env, Flatten(code) + rest, h) == Continue(env, Eval(env, code, h), rest)
    decreases code
  {
    match code
    case Ops(ops) => RunPlains(env, ops, rest, h);
    case Then(a, b) =>
      assert Flatten(code) + rest == Flatten(a) + (Flatten(b) + rest);
      FlattenRuns(env, a, Flatten(b) + rest, h);
      if Eval(env, a, h).Fall? {
        FlattenRuns(env, b, rest, Eval(env, a, h).h);
      }
    case SkipIf(t, body) =>
      var tail := Flatten(body) + rest;
      assert Flatten(code) + rest == [JumpIf(t, 1 + |Flatten(body)|)] + tail;
      RunJumpIf(env, t, 1 + |Flatten(body)|, tail, h);
      assert tail[|Flatten(body)|..] == rest;
      FlattenRuns(env, body, rest, h);
    case Attempt(pre, early, mid, late, fast, slow) =>
      var f, s := Flatten(fast), Flatten(slow);
      var h1 := ApplyAll(env, pre, h);
      var h2 := ApplyAll(env, mid, h1);
      AttemptRuns(env, pre, early, mid, late, f, s, rest, h);
      FlattenRuns(env, slow, rest, h1);
      FlattenRuns(env, slow, rest, h2);
      FlattenRuns(env, fast, [Jump(1 + |s|)] + (s + rest), h2);
      if Eval(env, fast, h2).Fall? {
        RunJump(env, s, rest, Eval(env, fast, h2).h);
      }
    case Exits(e) =>
    case ExitIf(t, e) => assert ([LeaveIf(t, e)] + rest)[1..] == rest;
  }

  lemma RunJump(env: Env, skipped: seq<Insn>, rest: seq<Insn>, h: Host)
    ensures Run(env, [Jump(1 + |skipped|)] + (skipped + rest), h) == Run(env, rest, h)
  {
    assert ([Jump(1 + |skipped|)] + (skipped + rest))[1 + |skipped|..] == rest;
  }

  lemma LateRuns(env: Env, mid: seq<HOp>, late: Test, fast: seq<Insn>, slow: seq<Insn>,
                 rest: seq<Insn>, h: Host)
    ensures
      var h2 := ApplyAll(env, mid, h);
      var code := Plains(mid) + ([JumpIf(late, |fast| + 2)] + (Arms(fast, slow) + rest));
      && Run(env, code, h) ==
         (if Passes(h2, late) then Run(env, slow + rest, h2)
          else Run(env, fast + ([Jump(1 + |slow|)] + (slow + rest)), h2))
      && code[|mid| + |fast| + 2..] == slow + rest
  {
    hide Run, ApplyAll, Passes;
    var h2 := ApplyAll(env, mid, h);
    var arms := Arms(fast, slow) + rest;
    RunPlains(env, mid, [JumpIf(late, |fast| + 2)] + arms, h);
    RunJumpIf(env, late, |fast| + 2, arms, h2);
    assert arms == fast + ([Jump(1 + |slow|)] + (slow + rest));
    assert arms[|fast| + 1..] == slow + rest;
  }

  lemma AttemptRuns(env: Env, pre: seq<HOp>, early: Option<Test>, mid: seq<HOp>, late: Test,
                    fast: seq<Insn>, slow: seq<Insn>, rest: seq<Insn>, h: Host)
    ensures
      var h1 := ApplyAll(env, pre, h);
      var h2 := ApplyAll(env, mid, h1);
      Run(env, AttemptLayout(pre, early, mid, late, fast, slow) + rest, h) ==
      if early.Some? && Passes(h1, early.value) then Run(env, slow + rest, h1)
      else if Passes(h2, late) then Run(env, slow + rest, h2)
      else Run(env, fast + ([Jump(1 + |slow|)] + (slow + rest)), h2)
  {
    hide Run, ApplyAll, Passes, AttemptLayout;
    var tail := Plains(mid) + ([JumpIf(late, |fast| + 2)] + (Arms(fast, slow) + rest));
    var h1 := ApplyAll(env, pre, h);
    LateRuns(env, mid, late, fast, slow, rest, h1);
    AttemptParts(pre, early, mid, late, fast, slow, rest);
    if early.Some? {
      var test := [JumpIf(early.value, 1 + |mid| + |fast| + 2)];
      RunPlains(env, pre, test + tail, h);
      RunJumpIf(env, early.value, 1 + |mid| + |fast| + 2, tail, h1);
    } else {
      RunPlains(env, pre, tail, h);
    }
  }

  lemma AttemptParts(pre: seq<HOp>, early: Option<Test>, mid: seq<HOp>, late: Test,
                     fast: seq<Insn>, slow: seq<Insn>, rest: seq<Insn>)
    ensures
      var tail := Plains(mid) + ([JumpIf(late, |fast| + 2)] + (Arms(fast, slow) + rest));
      AttemptLayout(pre, early, mid, late, fast, slow) + rest ==
      if early.Some? then Plains(pre) + ([JumpIf(early.value, 1 + |mid| + |fast| + 2)] + tail)
      else Plains(pre) + tail
  {
  }
}
