/** A translated block, the reference run of its words, and when that run leaves the
    straight line. */
module NativeBlock {
  import opened Words
  import opened Mips
  import opened MipsIr

  const MAX_INSNS: nat := 64

  /** `branch` is one more than the index of the block's branch, or 0; `delay` says the
      delay slot is the last instruction. `guest` is the host address of the words. */
  datatype Block = Block(va: Word, guest: nat, words: seq<Word>, ir: seq<Ir>, branch: nat, delay: bool)

  function Pc(b: Block, k: int): Word {
    Wrap(b.va + 4 * k)
  }

  predicate Valid(b: Block) {
    && 1 <= |b.words| <= MAX_INSNS && |b.ir| == |b.words|
    && b.va % 4 == 0
    && (forall k :: 0 <= k < |b.ir| ==> b.ir[k] == Decode(b.words[k]))
    && (forall k :: 0 <= k < |b.ir| ==> (IsBranch(b.ir[k].op) <==> k + 1 == b.branch))
    && (if b.branch == 0 then !b.delay
        else if b.delay then |b.words| == b.branch + 1 else |b.words| == b.branch)
    && (forall k :: 0 <= k < |b.ir| - 1 ==> !(b.ir[k].op.IExec? && b.ir[k].endsBlock))
  }

  /** The instruction just run moved the machine off the straight-line path, stopped it,
      or changed an interrupt input or the bus map. */
  predicate Left(m: Machine, m': Machine) {
    m'.c.pc != m.c.nextPc || m'.c.sys.halted || m'.c.sys.powerStopped
    || m'.c.sys.irqLines != m.c.sys.irqLines || m'.c.sys.generation != m.c.sys.generation
  }

  datatype Trace = Trace(m: Machine, retired: nat, left: bool)

  /** Run the block's words from index `k` on the reference, stopping after the first one
      that leaves. `retired` counts from the block's start. */
  function RunWords(env: Env, b: Block, k: nat, m: Machine): Trace
    requires k <= |b.words|
    decreases |b.words| - k
  {
    if k == |b.words| then Trace(m, k, false)
    else
      var m' := Retire(env, b.words[k], m);
      if Left(m, m') then Trace(m', k + 1, true) else RunWords(env, b, k + 1, m')
  }

  predicate Running(m: Machine) {
    !m.c.sys.halted && !m.c.sys.powerStopped
  }

  /** The reference machine stands before instruction `k` of the block; `target` is where
      the block's branch goes, once it has run. */
  predicate Before(b: Block, k: nat, m: Machine, target: Word) {
    && m.c.r[0] == 0
    && Running(m)
    && m.c.pc == (if b.delay && k == |b.words| then target else Pc(b, k))
    && m.c.nextPc == (if b.branch > 0 && k == b.branch then target
                      else if b.delay && k == |b.words| then Add(target, 4) else Pc(b, k + 1))
    && m.c.branchPending == (b.branch > 0 && k == b.branch)
    && (k > 0 ==> m.c.curPc == Pc(b, k - 1) && m.c.inDelay == (b.delay && k == |b.words|))
  }
}
