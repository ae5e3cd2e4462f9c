/** The reference run over a block's words: stepping the reference machine, which samples
    interrupts and fetches before every instruction, is running the words in a row. */
module StraightLine {
  import opened Words
  import opened Wrappers
  import opened BusMap
  import opened Mips
  import opened MipsIr
  import opened NativeBlock
  import opened HostCode
  import opened RegCache
  import opened A64Code
  import opened A64Proof
  import opened A64Step
  import opened Sampling
  import opened A64Helper
  import opened A64Memory
  import opened A64Block
  import opened A64Theorem

  // ------------------------------------------------------------ where blocks live

  /** The physical address instruction fetch uses at `va`, in kernel mode. */
  function FetchPa(hasMmu: bool, va: Word): Option<Word> {
    if UnmappedSegment(va) then Some(va % 0x2000_0000)
    else if hasMmu then None
    else Some(va)
  }

  /** Every word of the block is answered by host memory, in a row from `guest`. */
  predicate Located(b: Block, rs: Map, hasMmu: bool, memLen: nat) {
    && b.guest + 4 * |b.words| <= memLen
    && forall k :: 0 <= k < |b.words| ==>
         var pa := FetchPa(hasMmu, Pc(b, k));
         pa.Some? && Answers(rs, pa.value, 4) == Data(b.guest + 4 * k)
  }

  lemma PcAligned(b: Block, k: nat)
    requires b.va % 4 == 0
    ensures Pc(b, k) % 4 == 0
  {
    var x := b.va + 4 * k;
    var q := x / TWO32;
    assert x == TWO32 * q + Pc(b, k);
    assert Pc(b, k) == 4 * (b.va / 4 + k - 0x4000_0000 * q);
  }

  /** Word `k` of a located block is where the reference fetches it. */
  lemma FetchesWord(b: Block, k: nat, sys: Sys, memLen: nat)
    requires Located(b, sys.rs, sys.hasMmu, memLen) && KernelOk(sys) && k < |b.words| && b.va % 4 == 0
    ensures MemoryAt(sys, memLen, Pc(b, k), 4) == Some(b.guest + 4 * k)
  {
    hide Answers;
    PcAligned(b, k);
  }

  // ------------------------------------------------------------ one step

  lemma SamplesNothing(c: Cpu)
    requires Quiet(c.sys)
    ensures Sampled(c) == (false, c.(curPc := c.pc, inDelay := c.branchPending))
  {
    QuietMeans(c.(curPc := c.pc, inDelay := c.branchPending));
  }

  lemma StepRetires(env: Env, b: Block, k: nat, m: Machine, target: Word)
    requires CanStep(b, k, m, target) && Safe(m.c.sys, |m.c.mem|)
    requires Located(b, m.c.sys.rs, m.c.sys.hasMmu, |m.c.mem|)
    requires LoadBE(m.c.mem, b.guest + 4 * k, 4) == b.words[k]
    ensures Step(env, m) == Retire(env, b.words[k], m)
  {
    hide Exec, LoadBE, Decode, MemoryAt, Located, Sampled, Quiet;
    SamplesNothing(m.c);
    PcAligned(b, k);
    assert b.guest + 4 * |b.words| <= |m.c.mem| by { LocatedBound(b, m.c.sys, |m.c.mem|); }
    FetchesWord(b, k, m.c.sys, |m.c.mem|);
    var c1 := m.c.(curPc := m.c.pc, inDelay := m.c.branchPending);
    assert Advance(c1) == Advance(m.c);
  }

  lemma LocatedBound(b: Block, sys: Sys, memLen: nat)
    requires Located(b, sys.rs, sys.hasMmu, memLen)
    ensures b.guest + 4 * |b.words| <= memLen
  {
  }

  // ------------------------------------------------------------ advance

  /** A reference machine before instruction `k` has a native counterpart. */
  function Counterpart(b: Block, k: nat, m: Machine, target: Word): Host {
    var rd := seq(0x10_0000, p requires 0 <= p < 0x10_0000 => TableEntry(m.c.sys, p, false));
    var wr := seq(0x10_0000, p requires 0 <= p < 0x10_0000 => TableEntry(m.c.sys, p, true));
    var x := seq(32, j => if j == TARGET then W(target) else W(0));
    var c := m.c.(insns := m.c.insns - k, cycles := m.c.cycles - k, branchPending := false, inDelay := false);
    Host(x, Flags(false, false, false, false), Machine(c, m.busReads - k, m.busWrites), rd, wr, false)
  }

  lemma CounterpartSims(b: Block, k: nat, m: Machine, target: Word)
    requires CanStep(b, k, m, target)
    ensures Sim(b, k, Empty(), Counterpart(b, k, m, target), m, target, 0)
    ensures TablesMatch(Counterpart(b, k, m, target).rd, Counterpart(b, k, m, target).wr, m.c.sys)
  {
    hide Decode, TableEntry, Ok;
    EmptyOk();
    EmptyRepresents(Counterpart(b, k, m, target).x, m.c.r);
  }

  /** An instruction of the block that does not leave it brings the reference before the
      next one. */
  lemma Advances(env: Env, b: Block, k: nat, m: Machine, target: Word)
    requires CanStep(b, k, m, target) && Safe(m.c.sys, |m.c.mem|)
    requires !Left(m, Retire(env, b.words[k], m))
    ensures Before(b, k + 1, Retire(env, b.words[k], m), NextTarget(b, k, m, target))
  {
    hide Decode, Retire, Before, Sim, Safe, TablesMatch, InsnCode, Left;
    CounterpartSims(b, k, m, target);
    InsnStep(env, b, k, Empty(), Counterpart(b, k, m, target), m, target, 0);
  }

  // ------------------------------------------------------------ self-modification

  /** The word `j` places after `c`'s pc would be compiled into the same block: nothing
      before it ends the line, except that it may be a branch's delay slot. */
  predicate Ahead(c: Cpu, j: nat) {
    forall i :: 0 <= i < j ==>
      var w := Fetch(c, Wrap(c.pc + 4 * i));
      w.Some? && !(Decode(w.value).op.IExec? && Decode(w.value).endsBlock)
      && (IsBranch(Decode(w.value).op) ==> i == j - 1)
  }

  predicate SameWord(mem: seq<Byte>, mem': seq<Byte>, at: nat) {
    at + 4 <= |mem| && at + 4 <= |mem'| && LoadBE(mem', at, 4) == LoadBE(mem, at, 4)
  }

  /** This step does not rewrite an instruction further down its own straight line, unless
      it leaves the line. */
  predicate LineStable(env: Env, m: Machine) {
    var m' := Step(env, m);
    !Left(m, m') ==>
      forall j :: 1 <= j < MAX_INSNS && Ahead(m.c, j) ==>
        var at := MemoryAt(m.c.sys, |m.c.mem|, Wrap(m.c.pc + 4 * j), 4);
        at.Some? ==> SameWord(m.c.mem, m'.c.mem, at.value)
  }

  // What goes wrong without that: `sw r1, 4(zero)` at address 0 replaces the `nop` after it.

  const STORE_NEXT: Word := 0xAC01_0004
  const SET_R2: Word := 0x3402_0001

  function OneRam(): Map {
    [Region(Ram, 0, 8, Some(0), 8)]
  }

  function Rewriter(): Machine {
    var sys := Sys(Cp0(0, 0, 0, 0, []), 0, 0, 0, 0, false, false, false, OneRam(), 0, []);
    var r := seq(32, j => if j == 1 then SET_R2 as Word else 0 as Word);
    Machine(Cpu(r, 0, 0, 0, 4, 0, false, false, 0, 0, sys, [0xAC, 0x01, 0, 0x04, 0, 0, 0, 0]), 0, 0)
  }

  predicate SmallRam(c: Cpu) {
    c.sys.rs == OneRam() && !c.sys.hasMmu && c.sys.cp0.status == 0 && |c.mem| == 8
    && !c.sys.halted && !c.sys.powerStopped
  }

  lemma SmallFetch(c: Cpu, va: Word)
    requires SmallRam(c) && (va == 0 || va == 4)
    ensures MemoryAt(c.sys, |c.mem|, va, 4) == Some(va as nat) && RamAt(c.sys, va, 4)
  {
    assert InRegion(c.sys.rs[0], va, 4);
    FirstIs(c.sys.rs, va, 4, 0);
  }

  lemma SmallStep(env: Env, m: Machine)
    requires SmallRam(m.c) && (m.c.pc == 0 || m.c.pc == 4)
    ensures
      var c1 := Sampled(m.c).1;
      && SmallRam(c1) && c1.mem == m.c.mem && c1.r == m.c.r && c1.pc == m.c.pc && c1.nextPc == m.c.nextPc
      && Step(env, m) == Retire(env, LoadBE(m.c.mem, m.c.pc, 4), m.(c := c1))
  {
    hide Retire, LoadBE, MemoryAt, Or, And;
    SmallFetch(Sampled(m.c).1, m.c.pc);
  }

  lemma StoreNext(env: Env, m: Machine)
    requires SmallRam(m.c) && m.c.r[0] == 0
    ensures
      var m' := Retire(env, STORE_NEXT, m);
      && SmallRam(m'.c) && m'.c.r == m.c.r && m'.c.pc == m.c.nextPc && m'.c.sys == m.c.sys
      && m'.c.mem == StoreBE(m.c.mem, 4, 4, m.c.r[1])
  {
    hide LoadBE, StoreBE, MemoryAt, RamAt;
    SmallFetch(Advance(m.c), 4);
    assert Simm(STORE_NEXT) == 4 && Op(STORE_NEXT) == 0x2B && Rs(STORE_NEXT) == 0 && Rt(STORE_NEXT) == 1;
    assert Add(m.c.r[0], 4) == 4;
    assert m.c.r[0 := 0] == m.c.r;
  }

  lemma SetR2(env: Env, m: Machine)
    requires m.c.r[0] == 0
    ensures Retire(env, SET_R2, m).c.r[2] == 1 && Retire(env, 0, m).c.r[2] == m.c.r[2]
  {
    hide ShiftLeft;
    assert Op(SET_R2) == 0x0D && Rs(SET_R2) == 0 && Rt(SET_R2) == 2 && Imm(SET_R2) == 1;
    OrOne();
    assert Op(0) == 0 && Fn(0) == 0 && Rd(0) == 0;
  }

  lemma OrOne()
    ensures Or(0, 1) == 1
  {
  }

  /** The reference runs the stored word and the block's own words do not: a block that
      checks its words on entry alone needs the store to keep off its line. */
  lemma OwnStoreExample(env: Env)
    ensures Steps(env, Rewriter(), 2).c.r[2] == 1
    ensures Retire(env, 0, Retire(env, STORE_NEXT, Rewriter())).c.r[2] == 0
  {
    hide Retire, Step, StoreBE, LoadBE;
    var m := Rewriter();
    SmallStep(env, m);
    FirstWord(m.c.mem);
    var m1 := m.(c := Sampled(m.c).1);
    StoreNext(env, m1);
    var m2 := Step(env, m);
    SmallStep(env, m2);
    SecondWord(m.c.mem);
    SetR2(env, m2.(c := Sampled(m2.c).1));
    StoreNext(env, m);
    SetR2(env, Retire(env, STORE_NEXT, m));
    assert Steps(env, m, 2) == Step(env, m2) by { assert Steps(env, Step(env, m2), 0) == Step(env, m2); }
  }

  lemma FirstWord(mem: seq<Byte>)
    requires mem == [0xAC, 0x01, 0, 0x04, 0, 0, 0, 0]
    ensures LoadBE(mem, 0, 4) == STORE_NEXT
  {
  }

  lemma SecondWord(mem: seq<Byte>)
    requires |mem| == 8
    ensures LoadBE(StoreBE(mem, 4, 4, SET_R2), 4, 4) == SET_R2
  {
  }

  /** A step that leaves memory alone leaves its line alone. */
  lemma StillStable(env: Env, m: Machine)
    requires Step(env, m).c.mem == m.c.mem
    ensures LineStable(env, m)
  {
    hide Step, Ahead, Left;
  }

  lemma PcFrom(b: Block, k: nat, j: nat)
    ensures Wrap(Pc(b, k) + 4 * j) == Pc(b, k + j)
  {
    WrapAdd(b.va + 4 * k, 4 * j);
  }

  lemma WrapAdd(x: int, y: int)
    ensures Wrap(Wrap(x) + y) == Wrap(x + y)
  {
    var q := x / TWO32;
    assert x == TWO32 * q + Wrap(x);
    ModUnique(x + y, TWO32, q + (Wrap(x) + y) / TWO32, (Wrap(x) + y) % TWO32);
  }

  /** Words before `j` of a block in place make word `j` part of the line. */
  lemma BlockAhead(b: Block, k: nat, j: nat, c: Cpu)
    requires Valid(b) && k + j < |b.words| && c.pc == Pc(b, k)
    requires Located(b, c.sys.rs, c.sys.hasMmu, |c.mem|) && KernelOk(c.sys)
    requires forall i :: k <= i < |b.words| ==> LoadBE(c.mem, b.guest + 4 * i, 4) == b.words[i]
    ensures Ahead(c, j)
  {
    hide Decode, LoadBE, MemoryAt;
    forall i | 0 <= i < j
      ensures
        var w := Fetch(c, Wrap(c.pc + 4 * i));
        w.Some? && !(Decode(w.value).op.IExec? && Decode(w.value).endsBlock)
        && (IsBranch(Decode(w.value).op) ==> i == j - 1)
    {
      PcFrom(b, k, i);
      FetchesWord(b, k + i, c.sys, |c.mem|);
      assert b.ir[k + i] == Decode(b.words[k + i]);
    }
  }

  /** The rest of the block survives a stable step. */
  lemma WordsSurvive(env: Env, b: Block, k: nat, m: Machine)
    requires Valid(b) && k < |b.words| && m.c.pc == Pc(b, k)
    requires Located(b, m.c.sys.rs, m.c.sys.hasMmu, |m.c.mem|) && KernelOk(m.c.sys)
    requires forall i :: k <= i < |b.words| ==> LoadBE(m.c.mem, b.guest + 4 * i, 4) == b.words[i]
    requires LineStable(env, m) && !Left(m, Step(env, m)) && |Step(env, m).c.mem| == |m.c.mem|
    ensures forall i :: k + 1 <= i < |b.words| ==> LoadBE(Step(env, m).c.mem, b.guest + 4 * i, 4) == b.words[i]
  {
    hide Decode, LoadBE, MemoryAt, Step, Left, Ahead, Located;
    LocatedBound(b, m.c.sys, |m.c.mem|);
    assert |b.words| <= MAX_INSNS && b.va % 4 == 0;
    forall i | k + 1 <= i < |b.words|
      ensures LoadBE(Step(env, m).c.mem, b.guest + 4 * i, 4) == b.words[i]
    {
      BlockAhead(b, k, i - k, m.c);
      PcFrom(b, k, i - k);
      FetchesWord(b, i, m.c.sys, |m.c.mem|);
      assert SameWord(m.c.mem, Step(env, m).c.mem, b.guest + 4 * i);
    }
  }

  // ------------------------------------------------------------ what every step keeps

  /** Properties of the system that no step can break, and the map moves only with its
      generation. */
  predicate Keeps(c: Cpu, c': Cpu) {
    && |c'.mem| == |c.mem|
    && c'.sys.hasMmu == c.sys.hasMmu
    && (Backed(c.sys.rs, |c.mem|) ==> Backed(c'.sys.rs, |c'.mem|))
    && (c'.sys.generation == c.sys.generation ==> c'.sys.rs == c.sys.rs)
  }

  /** The pc pair: whenever no branch is pending, next_pc follows pc. */
  predicate InLine(c: Cpu) {
    !c.branchPending ==> c.nextPc == Add(c.pc, 4)
  }

  lemma OtherKeeps(env: Env, w: Word, c: Cpu)
    ensures Keeps(c, RunOther(env, w, c).c)
    ensures c.nextPc == Add(c.pc, 4) ==> InLine(RunOther(env, w, c).c)
  {
    hide KeepsStatus;
    var o := env.other(w, c);
    if o.raises.Some? {
      RaiseFields(c, o.raises.value);
    }
  }

  lemma AccessKeeps(env: Env, w: Word, c: Cpu, va: Word, size: nat, sign: bool, dst: Reg, v: Word)
    requires AccessSize(size)
    ensures Keeps(c, Load(env, w, c, va, size, sign, dst).c) && Keeps(c, Store(env, w, c, va, size, v).c)
    ensures c.nextPc == Add(c.pc, 4) ==>
            InLine(Load(env, w, c, va, size, sign, dst).c) && InLine(Store(env, w, c, va, size, v).c)
  {
    hide RunOther, MemoryAt, RamAt, LoadBE, Extend;
    OtherKeeps(env, w, c);
  }

  lemma SpecialKeeps(env: Env, w: Word, c: Cpu)
    ensures Keeps(c, ExecSpecial(env, w, c).c)
    ensures c.nextPc == Add(c.pc, 4) ==> InLine(ExecSpecial(env, w, c).c)
  {
    hide RunOther, Raise, ShiftLeft, ShiftRight, ShiftArith, Product, HighWord, LowWord, And, Or, Xor, Not, Sub,
         AddOverflows, SubOverflows, Backed;
    OtherKeeps(env, w, c);
    RaiseFields(c, Exception(EXC_OV, None, false));
  }

  lemma RegimmKeeps(env: Env, w: Word, c: Cpu)
    ensures Keeps(c, ExecRegimm(env, w, c).c)
    ensures c.nextPc == Add(c.pc, 4) ==> InLine(ExecRegimm(env, w, c).c)
  {
    hide RunOther, Backed;
    OtherKeeps(env, w, c);
  }

  lemma ImmediateKeeps(env: Env, w: Word, c: Cpu)
    requires 2 <= Op(w) < 0x20
    ensures Keeps(c, Exec(env, w, c).c)
    ensures c.nextPc == Add(c.pc, 4) ==> InLine(Exec(env, w, c).c)
  {
    hide RunOther, Raise, And, Or, Xor, AddOverflows, Backed, Signed, Simm, Load, Store, ExecSpecial, ExecRegimm;
    OtherKeeps(env, w, c);
    RaiseFields(c, Exception(EXC_OV, None, false));
  }

  lemma ExecKeeps(env: Env, w: Word, c: Cpu)
    ensures Keeps(c, Exec(env, w, c).c)
    ensures c.nextPc == Add(c.pc, 4) ==> InLine(Exec(env, w, c).c)
  {
    hide RunOther, ExecSpecial, ExecRegimm, Load, Store, Keeps, InLine, Simm;
    if Op(w) == 0 {
      SpecialKeeps(env, w, c);
    } else if Op(w) == 1 {
      RegimmKeeps(env, w, c);
    } else if Op(w) < 0x20 {
      ImmediateKeeps(env, w, c);
    } else {
      var va := Add(c.r[Rs(w)], Simm(w));
      var t := c.r[Rt(w)];
      OtherKeeps(env, w, c);
      AccessKeeps(env, w, c, va, 1, true, Rt(w), t);
      AccessKeeps(env, w, c, va, 2, true, Rt(w), t);
      AccessKeeps(env, w, c, va, 4, true, Rt(w), t);
      AccessKeeps(env, w, c, va, 1, false, Rt(w), t);
      AccessKeeps(env, w, c, va, 2, false, Rt(w), t);
    }
  }

  lemma StepKeeps(env: Env, m: Machine)
    requires InLine(m.c)
    ensures Keeps(m.c, Step(env, m).c) && InLine(Step(env, m).c)
  {
    hide Exec, Backed, Raise, CheckInterrupts, OddStep, Fetch;
    var (taken, c1) := Sampled(m.c);
    SampleKeeps(m.c);
    if !m.c.sys.halted && !m.c.sys.powerStopped && !taken {
      RaiseFields(c1, Exception(EXC_ADEL, Some(c1.pc), false));
      OddKeeps(env, m.(c := c1));
      if c1.pc % 4 == 0 && Fetch(c1, c1.pc).Some? {
        RetireKeeps(env, Fetch(c1, c1.pc).value, m.(c := c1));
      }
    }
  }

  lemma RetireKeeps(env: Env, w: Word, m: Machine)
    ensures Keeps(m.c, Retire(env, w, m).c) && InLine(Retire(env, w, m).c)
  {
    hide Exec, Backed;
    ExecKeeps(env, w, Advance(m.c));
  }

  lemma OddKeeps(env: Env, m: Machine)
    ensures Keeps(m.c, OddStep(env, m).c) && InLine(OddStep(env, m).c)
  {
  }

  lemma SampleKeeps(c: Cpu)
    requires InLine(c)
    ensures Keeps(c, Sampled(c).1) && InLine(Sampled(c).1)
    ensures Sampled(c).1.sys.generation == c.sys.generation
    ensures !Sampled(c).0 ==> Sampled(c).1 == c.(curPc := c.pc, inDelay := c.branchPending, sys := Sampled(c).1.sys)
  {
    hide CauseWithLines, Or, And;
  }

  // ------------------------------------------------------------ the run

  /** The system at the end of a block that was not left early. */
  predicate SameMap(c: Cpu, c': Cpu) {
    && |c'.mem| == |c.mem| && c'.sys.rs == c.sys.rs && c'.sys.hasMmu == c.sys.hasMmu
    && c'.sys.generation == c.sys.generation && InLine(c')
  }

  /** Every step of the next `n` on the reference leaves its own line alone. */
  predicate StableRun(env: Env, m: Machine, n: nat) {
    forall i :: 0 <= i < n ==> LineStable(env, Steps(env, m, i))
  }

  lemma StableTail(env: Env, m: Machine, n: nat)
    requires n > 0 && StableRun(env, m, n)
    ensures LineStable(env, m) && StableRun(env, Step(env, m), n - 1)
  {
    hide LineStable, Step;
    assert Steps(env, m, 0) == m;
    forall i | 0 <= i < n - 1
      ensures LineStable(env, Steps(env, Step(env, m), i))
    {
      assert Steps(env, m, i + 1) == Steps(env, Step(env, m), i);
    }
  }

  /** Running a block's words in a row is stepping the reference, as long as the block's
      words are in place at entry and no step rewrites its own line. */
  lemma {:induction false} RunIsSteps(env: Env, b: Block, k: nat, m: Machine, target: Word)
    requires Valid(b) && k <= |b.words| && Before(b, k, m, target) && InLine(m.c)
    requires Located(b, m.c.sys.rs, m.c.sys.hasMmu, |m.c.mem|)
    requires k < |b.words| ==> Safe(m.c.sys, |m.c.mem|)
    requires forall i :: k <= i < |b.words| ==> LoadBE(m.c.mem, b.guest + 4 * i, 4) == b.words[i]
    requires k <= RunWords(env, b, k, m).retired && StableRun(env, m, RunWords(env, b, k, m).retired - k)
    ensures
      var t := RunWords(env, b, k, m);
      Steps(env, m, t.retired - k) == t.m && Keeps(m.c, t.m.c) && InLine(t.m.c) && (!t.left ==> SameMap(m.c, t.m.c))
    decreases |b.words| - k
  {
    hide Decode, Retire, Step, LoadBE, LineStable, Located, Safe, Before, Left, StableRun, Keeps;
    if k < |b.words| {
      var m' := Retire(env, b.words[k], m);
      assert CanStep(b, k, m, target);
      StepRetires(env, b, k, m, target);
      StepKeeps(env, m);
      RetiredBound(env, b, k, m);
      if Left(m, m') {
        assert Steps(env, m, 1) == Steps(env, m', 0);
      } else {
        RetiredBound(env, b, k + 1, m');
        StableTail(env, m, RunWords(env, b, k, m).retired - k);
        NextWords(env, b, k, m, target);
        RunIsSteps(env, b, k + 1, m', NextTarget(b, k, m, target));
        KeepsOn(m.c, m'.c, RunWords(env, b, k + 1, m').m.c);
      }
    } else {
      KeepsOn(m.c, m.c, m.c);
    }
  }

  lemma KeepsOn(c: Cpu, c1: Cpu, c2: Cpu)
    ensures Keeps(c, c)
    ensures SameMap(c, c1) && Keeps(c1, c2) ==> Keeps(c, c2)
    ensures SameMap(c, c1) && SameMap(c1, c2) ==> SameMap(c, c2)
  {
    hide Backed;
  }

  /** What instruction `k` hands on to the rest of the block. */
  lemma NextWords(env: Env, b: Block, k: nat, m: Machine, target: Word)
    requires CanStep(b, k, m, target) && InLine(m.c) && Safe(m.c.sys, |m.c.mem|)
    requires Located(b, m.c.sys.rs, m.c.sys.hasMmu, |m.c.mem|)
    requires forall i :: k <= i < |b.words| ==> LoadBE(m.c.mem, b.guest + 4 * i, 4) == b.words[i]
    requires Step(env, m) == Retire(env, b.words[k], m) && LineStable(env, m) && !Left(m, Step(env, m))
    ensures
      var m' := Retire(env, b.words[k], m);
      && SameMap(m.c, m'.c)
      && Before(b, k + 1, m', NextTarget(b, k, m, target))
      && (k + 1 < |b.words| ==> Safe(m'.c.sys, |m'.c.mem|))
      && forall i :: k + 1 <= i < |b.words| ==> LoadBE(m'.c.mem, b.guest + 4 * i, 4) == b.words[i]
  {
    hide Decode, Retire, Step, LoadBE, LineStable, Located, Safe;
    StepKeeps(env, m);
    Advances(env, b, k, m, target);
    assert KernelOk(m.c.sys) by { SafeKernel(m.c.sys, |m.c.mem|); }
    WordsSurvive(env, b, k, m);
    if b.ir[k].op.IExec? && b.ir[k].endsBlock {
      EndsOnlyLast(b, k);
    } else {
      SafeAfter(env, b, k, m, target);
    }
  }

  lemma SafeKernel(sys: Sys, memLen: nat)
    requires Safe(sys, memLen)
    ensures KernelOk(sys) && Quiet(sys) && Backed(sys.rs, memLen)
  {
  }
}
