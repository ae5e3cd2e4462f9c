/** One traversal of a compiled block, as the run loop sees it: how many reference steps
    it is worth, and what may be entered next. */
module Traversal {
  import opened Words
  import opened BusMap
  import opened Mips
  import opened MipsIr
  import opened NativeBlock
  import opened HostCode
  import opened RegCache
  import opened A64Code
  import opened Sampling
  import opened A64Memory
  import opened A64Block
  import opened A64Theorem
  import opened StraightLine

  /** Native code for the address in pc may be entered without another look at the
      interrupt inputs or the map. */
  predicate Ready(m: Machine, m': Machine) {
    && !m'.c.branchPending && m'.c.nextPc == Add(m'.c.pc, 4) && m'.c.r[0] == 0
    && Running(m') && Safe(m'.c.sys, |m'.c.mem|) && SameMap(m.c, m'.c)
  }

  /** Running block `b` on `m` within `budget` retired `s` steps and left through `res`. */
  predicate Traversed(env: Env, b: Block, res: Result, m: Machine, budget: Word, s: nat)
    requires Valid(b) && b.guest + 4 * |b.words| <= |m.c.mem|
  {
    && res.Out? && !res.h.fault && s <= budget
    && Keeps(m.c, res.h.m.c) && InLine(res.h.m.c)
    && res.h.m == Steps(env, m, s) && res.h.x[BUDGET] == W(budget - s)
    && (res.exit.Stale? <==> !GuardHolds(b, 0, m.c.mem))
    && (res.exit.Budget? <==> GuardHolds(b, 0, m.c.mem) && budget < |b.words|)
    && (s == 0 <==> res.exit.Stale? || res.exit.Budget?)
    && (res.exit.Link? ==> res.exit.n < 2 && res.h.m.c.pc == LinkAddress(b, res.exit.n) && Ready(m, res.h.m))
    && (res.exit.Search? ==> Low(res.h.x[TARGET]) == res.h.m.c.pc && Ready(m, res.h.m))
  }

  function Retired(env: Env, b: Block, m: Machine, budget: Word): nat
    requires Valid(b) && b.guest + 4 * |b.words| <= |m.c.mem|
  {
    if GuardHolds(b, 0, m.c.mem) && |b.words| <= budget then RunWords(env, b, 0, m).retired else 0
  }

  lemma EndExitNumbers(b: Block, m: Machine)
    requires Valid(b)
    ensures EndExit(b, m).Link? ==> EndExit(b, m).n < 2
    ensures EndExit(b, m).Link? || EndExit(b, m).Search? ==> !NeedsCheck(b)
    ensures !EndExit(b, m).Stale? && !EndExit(b, m).Budget?
  {
  }

  lemma EntryBefore(b: Block, m: Machine)
    requires Valid(b) && AtEntry(b, m)
    ensures Before(b, 0, m, 0) && InLine(m.c) && Safe(m.c.sys, |m.c.mem|)
  {
    hide Decode, Safe;
    assert Pc(b, 0) == b.va && Pc(b, 1) == Add(b.va, 4);
  }

  lemma FinishedMeans(b: Block, m: Machine, res: Result, budget: nat)
    requires Valid(b) && Before(b, |b.words|, m, EndTarget(b, m)) && TargetOk(b, |b.words|, EndTarget(b, m))
    requires Finished(b, res, m, budget) && budget < TWO32
    requires NeedsCheck(b) || Safe(m.c.sys, |m.c.mem|)
    ensures res.Out? && res.h.m == m && !res.h.fault && res.h.x[BUDGET] == W(budget)
    ensures !res.exit.Stale? && !res.exit.Budget?
    ensures res.exit.Link? ==> res.exit.n < 2 && m.c.pc == LinkAddress(b, res.exit.n)
    ensures res.exit.Search? ==> Low(res.h.x[TARGET]) == m.c.pc
    ensures res.exit.Link? || res.exit.Search? ==>
            !m.c.branchPending && m.c.nextPc == Add(m.c.pc, 4) && m.c.r[0] == 0 && Running(m)
            && Safe(m.c.sys, |m.c.mem|)
  {
    hide Decode, Valid, TargetOk, Safe, EndExit, LinkAddress, NeedsCheck, EndTarget;
    assert 0 < |b.words| && |b.ir| == |b.words| && b.branch <= |b.words| by { ValidLength(b); }
    EndExitNumbers(b, m);
    if res.exit.Link? {
      LinkGoesToSuccessor(b, m);
    } else if res.exit.Search? {
      SearchIsReady(b, m);
    }
  }

  lemma StableLess(env: Env, m: Machine, n: nat, k: nat)
    requires StableRun(env, m, n) && k <= n
    ensures StableRun(env, m, k)
  {
    hide LineStable;
  }

  /** The steps of a traversal that gets going. */
  lemma RunSteps(env: Env, b: Block, m: Machine, budget: Word)
    requires Valid(b) && AtEntry(b, m) && b.guest + 4 * |b.words| <= |m.c.mem|
    requires Located(b, m.c.sys.rs, m.c.sys.hasMmu, |m.c.mem|) && StableRun(env, m, budget)
    requires GuardHolds(b, 0, m.c.mem) && |b.words| <= budget
    ensures
      var t := RunWords(env, b, 0, m);
      && 0 < t.retired <= |b.words| && Steps(env, m, t.retired) == t.m && Keeps(m.c, t.m.c) && InLine(t.m.c)
      && (!t.left ==> SameMap(m.c, t.m.c))
  {
    hide AtEntry, RunWords, Before, Located, LoadBE, SameMap, Keeps, StableRun, Decode, Safe, Retire, Left, Steps;
    EntryBefore(b, m);
    RetiredBound(env, b, 0, m);
    StableLess(env, m, budget, RunWords(env, b, 0, m).retired);
    RunIsSteps(env, b, 0, m, 0);
    assert RunWords(env, b, 0, m).retired > 0 by {
      FirstRetires(env, b, m);
    }
  }

  lemma FirstRetires(env: Env, b: Block, m: Machine)
    requires |b.words| > 0
    ensures RunWords(env, b, 0, m).retired > 0
  {
    hide Retire, Left;
    var m' := Retire(env, b.words[0], m);
    if !Left(m, m') {
      RetiredBound(env, b, 1, m');
    }
  }

  lemma Completes(env: Env, b: Block, res: Result, m: Machine, budget: Word)
    requires Valid(b) && AtEntry(b, m) && b.guest + 4 * |b.words| <= |m.c.mem|
    requires Located(b, m.c.sys.rs, m.c.sys.hasMmu, |m.c.mem|) && StableRun(env, m, budget)
    requires BlockResult(env, b, res, m, budget)
    ensures Traversed(env, b, res, m, budget, Retired(env, b, m, budget))
  {
    hide Valid, AtEntry, RunWords, Before, TargetOk, Safe, Located, Finished, StableRun, GuardHolds,
         EndTarget, NeedsCheck, LinkAddress, SameMap, Running, Decode, Steps, Keeps;
    assert 0 < |b.words| && |b.ir| == |b.words| && b.branch <= |b.words| by { ValidLength(b); }
    if GuardHolds(b, 0, m.c.mem) && |b.words| <= budget {
      RunSteps(env, b, m, budget);
      var t := RunWords(env, b, 0, m);
      if !t.left {
        FinishedMeans(b, t.m, res, budget - |b.words|);
      }
    } else {
      assert Steps(env, m, 0) == m by { NoSteps(env, m); }
      KeepsOn(m.c, m.c, m.c);
      assert InLine(m.c) by { EntryBefore(b, m); }
    }
  }

  lemma NoSteps(env: Env, m: Machine)
    ensures Steps(env, m, 0) == m
  {
  }

  /** A traversal is worth exactly the steps it takes off the budget. */
  lemma Traverses(env: Env, b: Block, h: Host, m: Machine, budget: Word)
    requires Valid(b) && AtEntry(b, m) && EntryHost(b, h, m, budget)
    requires Located(b, m.c.sys.rs, m.c.sys.hasMmu, |m.c.mem|) && StableRun(env, m, budget)
    ensures
      var res := Run(env, Flatten(BlockCode(b)), h);
      && Traversed(env, b, res, m, budget, Retired(env, b, m, budget))
      && res.h.rd == h.rd && res.h.wr == h.wr
  {
    hide Valid, AtEntry, BlockCode, Flatten, Run, Located, StableRun, BlockResult, Traversed, Retired, TablesMatch,
         Eval;
    assert 0 < |b.words| <= MAX_INSNS && |b.ir| == |b.words| && b.branch <= |b.words| by { ValidLength(b); }
    BlockRefines(env, b, h, m, budget);
    FlattenRuns(env, BlockCode(b), [], h);
    assert Flatten(BlockCode(b)) + [] == Flatten(BlockCode(b));
    var res := Eval(env, BlockCode(b), h);
    Completes(env, b, res, m, budget);
    assert res.Out? by { TraversedOut(env, b, res, m, budget); }
  }

  lemma TraversedOut(env: Env, b: Block, res: Result, m: Machine, budget: Word)
    requires Valid(b) && b.guest + 4 * |b.words| <= |m.c.mem|
    requires Traversed(env, b, res, m, budget, Retired(env, b, m, budget))
    ensures res.Out?
  {
  }
}
