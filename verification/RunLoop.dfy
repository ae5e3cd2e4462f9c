/** The native run loop: chains of blocks entered through the cache, and the proof that it
    refines the reference loop of single steps and terminates. */
module RunLoop {
  import opened Words
  import opened Wrappers
  import opened BusMap
  import Exceptions
  import opened Mips
  import opened MipsIr
  import opened NativeBlock
  import opened HostCode
  import opened A64Code
  import opened Sampling
  import opened A64Memory
  import opened A64Block
  import opened A64Theorem
  import opened StraightLine
  import opened Traversal
  import opened BlockCache

  datatype Status = StatusDone | StatusStale | StatusBudget

  /** What the refinement asks of the reference run: no step rewrites an instruction of its
      own straight line, and no overlay hides in the last page of the map. */
  predicate Tame(env: Env, m: Machine, n: nat) {
    forall i :: 0 <= i < n ==> LineStable(env, Steps(env, m, i)) && NothingHidden(Steps(env, m, i).c.sys.rs)
  }

  lemma StableFrom(env: Env, m: Machine, n: nat, k: nat)
    requires StableRun(env, m, n) && k <= n
    ensures StableRun(env, Steps(env, m, k), n - k)
  {
    hide LineStable, Steps;
    forall i | 0 <= i < n - k
      ensures LineStable(env, Steps(env, Steps(env, m, k), i))
    {
      StepsCompose(env, m, k, i);
    }
  }

  // ------------------------------------------------------------ a chain of blocks

  /** Control is at the chain entry of block `b` with `rem` of the budget left. */
  predicate InChain(env: Env, b: Block, h: Host, m: Machine, budget: Word, rem: Word) {
    && rem <= budget && h.m == Steps(env, m, budget - rem)
    && Valid(b) && AtEntry(b, h.m) && EntryHost(b, h, h.m, rem)
    && SameMap(m.c, h.m.c)
  }

  /** A block for the address a traversal left at can be entered next. */
  lemma NextEntry(env: Env, b: Block, b1: Block, h: Host, h1: Host, m: Machine, budget: Word, rem: Word, s: nat)
    requires InChain(env, b, h, m, budget, rem) && s <= rem
    requires h1.m == Steps(env, h.m, s) && h1.x[BUDGET] == W(rem - s) && !h1.fault && h1.rd == h.rd && h1.wr == h.wr
    requires Ready(h.m, h1.m)
    requires Valid(b1) && b1.va == h1.m.c.pc && b1.guest + 4 * |b1.words| <= |m.c.mem|
    ensures InChain(env, b1, h1, m, budget, rem - s)
  {
    hide Valid, Safe, TablesMatch, Steps, Running;
    StepsCompose(env, m, budget - rem, s);
    KeepsOn(m.c, h.m.c, h1.m.c);
    TablesPersist(h1.rd, h1.wr, h.m.c.sys, h1.m.c.sys);
  }

  /** Where native code stands when it has returned. */
  ghost predicate Returned(env: Env, arena: seq<Compiled>, link: Option<Site>, m: Machine, m': Machine,
                           budget: Word, left: Word, status: Status)
  {
    && left <= budget && m' == Steps(env, m, budget - left) && Keeps(m.c, m'.c) && InLine(m'.c)
    && (link.Some? ==> SiteGoesTo(arena, link.value, m'.c.pc) && SameMap(m.c, m'.c)
                       && (status.StatusStale? <==> link.value.StaleSite?))
  }

  /** The next lookup of pc takes a way that names 0 for the block of another address. */
  ghost predicate Lost(jit: Jit, m: Machine)
    reads jit, jit.slots
  {
    Astray(jit.slots[..], jit.arena, m.c.pc)
  }

  /** The code at `cur` leaves with a search that takes a misnamed way. */
  ghost predicate GoesAstray(env: Env, jit: Jit, cur: nat, h: Host)
    requires cur < |jit.arena|
    reads jit, jit.slots
  {
    var res := Run(env, jit.arena[cur].code, h);
    res.Out? && res.exit.Search? && Astray(jit.slots[..], jit.arena, Low(res.h.x[TARGET]))
  }

  /** One traversal of the block at `cur` and the way to the next block, if control stays
      in native code. The model stops, with `ok` false, where the program's search would
      take a misnamed way. */
  method Hop(env: Env, jit: Jit, cur: nat, h: Host, ghost m: Machine, ghost budget: Word, rem: Word)
    returns (next: Option<nat>, h': Host, rem': Word, status: Status, ok: bool)
    requires jit.Valid() && jit.Current(m.c) && jit.link.None?
    requires cur < |jit.arena| && InChain(env, jit.arena[cur].b, h, m, budget, rem) && StableRun(env, m, budget)
    modifies jit`link
    ensures rem' <= rem && h'.rd == h.rd && h'.wr == h.wr
    ensures next.Some? ==>
              next.value < |jit.arena| && InChain(env, jit.arena[next.value].b, h', m, budget, rem') && jit.link.None?
              && (rem' < rem || (rem' == rem && next.value > cur))
    ensures next.None? ==> Returned(env, jit.arena, jit.link, m, h'.m, budget, rem', status)
    ensures !ok ==> next.None? && jit.link.None? && Lost(jit, h'.m)
    ensures !ok <==> old(GoesAstray(env, jit, cur, h))
    ensures EntryHolds(jit.arena, cur, h.m) && |jit.arena[cur].b.words| <= rem ==> rem' < rem
    ensures !EntryHolds(jit.arena, cur, h.m) && jit.arena[cur].stale.Stub? ==>
              next.None? && h'.m == h.m && rem' == rem && jit.link == Some(StaleSite(cur)) && status.StatusStale? && ok
  {
    hide Valid, TablesMatch, Flatten, BlockCode, Run, GuardHolds, Steps, Located, ArenaOk, AtEntry, EntryHost, Ready,
         StableRun, Keeps, SameMap, InLine, SlotsOk, LinkAddress, Retired;
    ghost var b := jit.arena[cur].b;
    BlockAt(jit.arena, cur, jit.sys.rs, jit.hasMmu, jit.memLen);
    ChainMap(env, b, h, m, budget, rem);
    LocatedNow(b, jit.sys.rs, jit.hasMmu, jit.memLen, m, h.m);
    Lands(env, b, h, m, budget, rem);
    ghost var s := Retired(env, b, h.m, rem);
    var res := Run(env, jit.arena[cur].code, h);
    h' := res.h;
    rem' := Low(h'.x[BUDGET]);
    status := StatusDone;
    next := None;
    ok := true;
    match res.exit
    case Done =>
    case Budget => status := StatusBudget;
    case Stale =>
      match jit.arena[cur].stale {
        case Chain(to) =>
          BlockAt(jit.arena, to, jit.sys.rs, jit.hasMmu, jit.memLen);
          SameEntry(env, b, jit.arena[to].b, h, h', m, budget, rem);
          next := Some(to);
        case Stub =>
          StaleHere(env, b, h, m, budget, rem);
          jit.link := Some(StaleSite(cur));
          status := StatusStale;
      }
    case Link(n) =>
      LinksMap(h.m, h'.m, m);
      match jit.arena[cur].links[n] {
        case Chain(to) =>
          BlockAt(jit.arena, to, jit.sys.rs, jit.hasMmu, jit.memLen);
          NextEntry(env, b, jit.arena[to].b, h, h', m, budget, rem, s);
          next := Some(to);
        case Stub => jit.link := Some(LinkSite(cur, n));
      }
    case Search =>
      next := jit.Search(Low(h'.x[TARGET]));
      if next.Some? && jit.arena[next.value].b.va != Low(h'.x[TARGET]) {
        next, ok := None, false;
      }
      if next.Some? {
        BlockAt(jit.arena, next.value, jit.sys.rs, jit.hasMmu, jit.memLen);
        NextEntry(env, b, jit.arena[next.value].b, h, h', m, budget, rem, s);
      }
  }

  lemma BlockAt(arena: seq<Compiled>, i: nat, rs: Map, hasMmu: bool, memLen: nat)
    requires ArenaOk(arena, rs, hasMmu, memLen) && i < |arena|
    ensures CompiledOk(arena, i, rs, hasMmu, memLen)
    ensures arena[i].b.guest + 4 * |arena[i].b.words| <= memLen
  {
    hide Valid, Flatten, BlockCode, LinkAddress, Answers;
  }

  lemma ChainMap(env: Env, b: Block, h: Host, m: Machine, budget: Word, rem: Word)
    requires InChain(env, b, h, m, budget, rem)
    ensures SameMap(m.c, h.m.c) && |h.m.c.mem| == |m.c.mem|
  {
  }

  lemma LinksMap(m1: Machine, m2: Machine, m: Machine)
    requires SameMap(m.c, m1.c)
    ensures Ready(m1, m2) ==> SameMap(m.c, m2.c)
  {
    KeepsOn(m.c, m1.c, m2.c);
  }

  /** A stale block's own site leads to the address the machine stands at. */
  lemma StaleHere(env: Env, b: Block, h: Host, m: Machine, budget: Word, rem: Word)
    requires InChain(env, b, h, m, budget, rem)
    ensures h.m.c.pc == b.va && SameMap(m.c, h.m.c)
  {
  }

  lemma LocatedNow(b: Block, rs: Map, hasMmu: bool, memLen: nat, m: Machine, m1: Machine)
    requires Located(b, rs, hasMmu, memLen) && SameMap(m.c, m1.c)
    requires m.c.sys.rs == rs && m.c.sys.hasMmu == hasMmu && memLen == |m.c.mem|
    ensures Located(b, m1.c.sys.rs, m1.c.sys.hasMmu, |m1.c.mem|)
  {
    hide Answers;
  }

  /** A traversal within a chain, counted from the chain's start. */
  lemma Lands(env: Env, b: Block, h: Host, m: Machine, budget: Word, rem: Word)
    requires InChain(env, b, h, m, budget, rem) && StableRun(env, m, budget)
    requires Located(b, h.m.c.sys.rs, h.m.c.sys.hasMmu, |h.m.c.mem|)
    ensures
      var res := Run(env, Flatten(BlockCode(b)), h);
      var s := Retired(env, b, h.m, rem);
      && Traversed(env, b, res, h.m, rem, s) && res.h.rd == h.rd && res.h.wr == h.wr
      && res.h.m == Steps(env, m, budget - (rem - s)) && Keeps(m.c, res.h.m.c)
  {
    hide Valid, AtEntry, EntryHost, Located, Flatten, BlockCode, Run, Steps, StableRun, Retired, GuardHolds, SameMap,
         Keeps,
         LinkAddress, Ready;
    ValidLength(b);
    assert b.guest + 4 * |b.words| <= |h.m.c.mem| by { LocatedLength(b, h.m.c.sys, |h.m.c.mem|); }
    StableFrom(env, m, budget, budget - rem);
    Traverses(env, b, h, h.m, rem);
    StepsCompose(env, m, budget - rem, Retired(env, b, h.m, rem));
    KeepsOn(m.c, h.m.c, Run(env, Flatten(BlockCode(b)), h).h.m.c);
  }

  /** A stale block was not entered: its newer code starts where it stood. */
  lemma SameEntry(env: Env, b: Block, b1: Block, h: Host, h1: Host, m: Machine, budget: Word, rem: Word)
    requires InChain(env, b, h, m, budget, rem)
    requires h1.m == h.m && h1.x[BUDGET] == W(rem) && !h1.fault && h1.rd == h.rd && h1.wr == h.wr
    requires Valid(b1) && b1.va == b.va && b1.guest + 4 * |b1.words| <= |h.m.c.mem|
    ensures InChain(env, b1, h1, m, budget, rem)
  {
    hide Valid, Safe, TablesMatch, Steps, Running;
  }

  /** Run native code from the entry of block `entry`: follow patched links, stale sites
      and register jumps until something leaves. */
  method Native(env: Env, jit: Jit, entry: nat, m: Machine, budget: Word)
    returns (m': Machine, left: Word, status: Status, ok: bool)
    requires jit.Valid() && jit.Current(m.c) && jit.link.None?
    requires entry < |jit.arena| && AtEntry(jit.arena[entry].b, m) && InLine(m.c) && StableRun(env, m, budget)
    modifies jit`link
    ensures Returned(env, jit.arena, jit.link, m, m', budget, left, status)
    ensures !ok ==> jit.link.None? && Lost(jit, m')
    ensures EntryHolds(jit.arena, entry, m) && |jit.arena[entry].b.words| <= budget ==> left < budget
    ensures !EntryHolds(jit.arena, entry, m) && jit.arena[entry].stale.Stub? ==>
              m' == m && left == budget && jit.link == Some(StaleSite(entry)) && status.StatusStale? && ok
  {
    hide Valid, InChain, AtEntry, TablesMatch, ArenaOk, SlotsOk, StableRun, Returned, EntryHolds;
    var x: Vals := seq(32, _ => W(0))[BUDGET := W(budget)];
    var h := Host(x, Flags(false, false, false, false), m, jit.rd[..], jit.wr[..], false);
    StartChain(env, jit.arena, entry, h, m, budget, jit.sys, jit.hasMmu, jit.memLen);
    var next: Option<nat> := Some(entry);
    var rem: Word := budget;
    status := StatusDone;
    ok := true;
    while next.Some?
      invariant jit.Valid() && rem <= budget
      invariant !ok ==> next.None? && jit.link.None? && Lost(jit, h.m)
      invariant h.rd == jit.rd[..] && h.wr == jit.wr[..]
      invariant next.Some? ==>
                  jit.link.None? && next.value < |jit.arena|
                  && InChain(env, jit.arena[next.value].b, h, m, budget, rem)
      invariant next.None? ==> Returned(env, jit.arena, jit.link, m, h.m, budget, rem, status)
      invariant EntryHolds(jit.arena, entry, m) && |jit.arena[entry].b.words| <= budget ==>
                  rem < budget || (next == Some(entry) && h.m == m)
      invariant !EntryHolds(jit.arena, entry, m) && jit.arena[entry].stale.Stub? ==>
                  h.m == m && rem == budget && ok
                  && (next == Some(entry) || (next.None? && jit.link == Some(StaleSite(entry)) && status.StatusStale?))
      decreases rem, if next.Some? then |jit.arena| - next.value + 1 else 0
    {
      next, h, rem, status, ok := Hop(env, jit, next.value, h, m, budget, rem);
    }
    m', left := h.m, rem;
  }

  predicate EntryHolds(arena: seq<Compiled>, entry: nat, m: Machine)
    requires entry < |arena|
  {
    var b := arena[entry].b;
    b.guest + 4 * |b.words| <= |m.c.mem| && GuardHolds(b, 0, m.c.mem)
  }

  lemma StartChain(env: Env, arena: seq<Compiled>, entry: nat, h: Host, m: Machine, budget: Word,
                   sys: Sys, hasMmu: bool, memLen: nat)
    requires entry < |arena| && ArenaOk(arena, sys.rs, hasMmu, memLen) && AtEntry(arena[entry].b, m) && InLine(m.c)
    requires m.c.sys.rs == sys.rs && m.c.sys.hasMmu == sys.hasMmu && memLen == |m.c.mem|
    requires h.m == m && !h.fault && h.x[BUDGET] == W(budget) && TablesMatch(h.rd, h.wr, sys)
    ensures InChain(env, arena[entry].b, h, m, budget, budget)
  {
    hide Valid, AtEntry, TablesMatch, Answers;
    assert CompiledOk(arena, entry, sys.rs, hasMmu, memLen);
    TablesPersist(h.rd, h.wr, sys, m.c.sys);
  }

  // ------------------------------------------------------------ the loop

  /** The machine against the reference: equal, or equal but for interrupt inputs already
      sampled for the step to come. */
  predicate Agrees(m: Machine, r: Machine) {
    m == r || (Running(r) && !Sampled(r.c).0 && m == r.(c := Sampled(r.c).1))
  }

  lemma SampleAgain(c: Cpu)
    requires !Sampled(c).0
    ensures Sampled(Sampled(c).1) == (false, Sampled(c).1)
  {
    var c0 := c.(curPc := c.pc, inDelay := c.branchPending);
    var c1 := Sampled(c).1;
    SampleSettles(c0);
    QuietMeans(c1);
    assert c1.(curPc := c1.pc, inDelay := c1.branchPending) == c1 by { SampleFields(c); }
  }

  lemma SampleFields(c: Cpu)
    requires !Sampled(c).0
    ensures Sampled(c).1 == c.(curPc := c.pc, inDelay := c.branchPending, sys := Sampled(c).1.sys)
    ensures
      var sys := Sampled(c).1.sys;
      sys == c.sys.(cp0 := c.sys.cp0.(cause := sys.cp0.cause), imEver := sys.imEver)
    ensures Quiet(Sampled(c).1.sys)
  {
    SampleSettles(c.(curPc := c.pc, inDelay := c.branchPending));
  }

  /** A machine that agrees steps as the reference does, and samples as it does. */
  lemma AgreesSteps(env: Env, m: Machine, r: Machine)
    requires Agrees(m, r)
    ensures Step(env, m) == Step(env, r)
    ensures Sampled(m.c) == Sampled(r.c)
  {
    hide CheckInterrupts, OddStep, Retire, Fetch;
    if m != r {
      SampleAgain(r.c);
      SampleFields(r.c);
    }
  }

  /** A sampled machine runs from here exactly like the reference, once it takes a step. */
  lemma SampledRun(env: Env, m: Machine, r: Machine, n: nat)
    requires Agrees(m, r) && !Sampled(m.c).0 && Running(m) && n > 0
    ensures Steps(env, m.(c := Sampled(m.c).1), n) == Steps(env, r, n)
    ensures Agrees(m.(c := Sampled(m.c).1), r)
  {
    hide Sampled, Step;
    AgreesSteps(env, m, r);
    RunningBoth(m, r);
    var m1 := m.(c := Sampled(m.c).1);
    assert m1 == r.(c := Sampled(r.c).1);
    AgreesSteps(env, m1, r);
    assert Steps(env, m1, n) == Steps(env, Step(env, m1), n - 1);
  }

  lemma RunningBoth(m: Machine, r: Machine)
    requires Agrees(m, r)
    ensures Running(m) == Running(r)
    ensures m.(c := Sampled(r.c).1) == r.(c := Sampled(r.c).1)
    ensures SameMap(r.c, m.c) || !InLine(r.c)
    ensures m.c.sys.halted == r.c.sys.halted
  {
    if m != r {
      SampleFields(r.c);
    }
  }

  /** The state of the loop against the reference machine `r`. */
  ghost predicate LoopOk(jit: Jit, m: Machine, r: Machine)
    reads jit, jit.rd, jit.wr, jit.slots
  {
    && jit.Valid() && jit.Follows(m.c) && Agrees(m, r)
    && InLine(m.c) && Backed(m.c.sys.rs, |m.c.mem|)
  }

  /** The next lookup of pc finds nothing stale. */
  ghost predicate WillGo(jit: Jit, m: Machine)
    reads jit, jit.slots
  {
    jit.Current(m.c) && FreshAt(jit.slots[..], jit.arena, m.c.pc, m.c.mem)
  }

  /** Everything the run loop checks before entering native code. */
  predicate Eligible(c: Cpu) {
    !c.sys.powerStopped && !c.branchPending && c.pc % 4 == 0 && c.r[0] == 0
    && (c.sys.hasMmu ==> UnmappedSegment(c.pc) && KernelBit(c.sys.cp0.status))
  }

  /** Sampling leaves everything native entry looks at alone. */
  lemma EntryReady(env: Env, b: Block, m: Machine, r: Machine, rest: nat)
    requires Eligible(m.c) && !m.c.sys.halted && Agrees(m, r) && InLine(m.c) && Backed(m.c.sys.rs, |m.c.mem|)
    requires b.va == m.c.pc && !Sampled(m.c).0 && rest > 0 && Tame(env, r, rest)
    ensures
      var m1 := m.(c := Sampled(m.c).1);
      && AtEntry(b, m1) && InLine(m1.c) && StableRun(env, m1, rest)
      && Keeps(m.c, m1.c) && m1.c.sys.rs == m.c.sys.rs && m1.c.sys.generation == m.c.sys.generation
      && m1.c.mem == m.c.mem && m1.c.pc == m.c.pc && m1.c.sys.hasMmu == m.c.sys.hasMmu
  {
    hide Sampled, LineStable, Step, Backed, NothingHidden, Quiet;
    var m1 := m.(c := Sampled(m.c).1);
    SampleFields(m.c);
    SampleKeeps(m.c);
    RunningBoth(m, r);
    assert Steps(env, r, 0) == r;
    forall i | 0 <= i < rest
      ensures LineStable(env, Steps(env, m1, i))
    {
      SampledRun(env, m, r, i + 1);
      SameFirst(env, m, r, i);
    }
    assert m.c.sys.rs == r.c.sys.rs by { MapAgrees(m, r); }
  }

  lemma MapAgrees(m: Machine, r: Machine)
    requires Agrees(m, r)
    ensures m.c.sys.rs == r.c.sys.rs && m.c.mem == r.c.mem
  {
    if m != r {
      SampleFields(r.c);
    }
  }

  /** Line stability looks at nothing sampling changes. */
  lemma SameFirst(env: Env, m: Machine, r: Machine, i: nat)
    requires Agrees(m, r) && !Sampled(m.c).0 && Running(m)
    requires LineStable(env, Steps(env, r, i))
    ensures LineStable(env, Steps(env, m.(c := Sampled(m.c).1), i))
  {
    hide Sampled, Step, LineStable;
    var m1 := m.(c := Sampled(m.c).1);
    SampledRun(env, m, r, 1);
    if i > 0 {
      SampledRun(env, m, r, i);
    } else {
      assert Steps(env, m1, 0) == m1 && Steps(env, r, 0) == r;
      StableAgrees(env, m1, r);
    }
  }

  lemma StableAgrees(env: Env, m: Machine, r: Machine)
    requires Agrees(m, r) && LineStable(env, r)
    ensures LineStable(env, m)
  {
    hide Step, Decode, LoadBE, Answers;
    AgreesSteps(env, m, r);
    if m != r {
      SampleFields(r.c);
      assert m.c.pc == r.c.pc && m.c.mem == r.c.mem;
      assert forall va: Word :: MemoryAt(m.c.sys, |m.c.mem|, va, 4) == MemoryAt(r.c.sys, |r.c.mem|, va, 4);
      assert forall j :: 1 <= j < MAX_INSNS && Ahead(m.c, j) ==> Ahead(r.c, j);
    }
  }

  lemma NoStep(env: Env, r: Machine)
    ensures Steps(env, r, 0) == r && Steps(env, r, 1) == Step(env, r)
  {
    hide Step;
    assert Steps(env, r, 1) == Steps(env, Step(env, r), 0);
  }

  /** One reference step from a machine that agrees. */
  lemma StepAgrees(env: Env, m: Machine, r: Machine)
    requires Agrees(m, r) && InLine(m.c) && Backed(m.c.sys.rs, |m.c.mem|)
    ensures Step(env, m) == Steps(env, r, 1) && Agrees(Step(env, m), Steps(env, r, 1))
    ensures Keeps(m.c, Step(env, m).c) && InLine(Step(env, m).c)
    ensures Backed(Step(env, m).c.sys.rs, |Step(env, m).c.mem|)
  {
    hide Step, Backed;
    AgreesSteps(env, m, r);
    NoStep(env, r);
    StepKeeps(env, m);
  }

  /** An interrupt taken at entry is the reference step. */
  lemma InterruptIsStep(env: Env, m: Machine)
    requires Running(m) && Sampled(m.c).0
    ensures Step(env, m) == m.(c := Sampled(m.c).1)
  {
    hide CheckInterrupts, OddStep, Retire;
  }

  /** Run native code on the sampled machine, and resolve the site it left through. */
  method Go(env: Env, jit: Jit, entry: nat, m: Machine, rest: nat) returns (m': Machine, spent: nat, ok: bool)
    requires rest > 0 && jit.Valid() && jit.Current(m.c) && jit.link.None?
    requires entry < |jit.arena| && AtEntry(jit.arena[entry].b, m) && InLine(m.c) && StableRun(env, m, rest)
    requires jit.arena[entry].stale.Stub? && |jit.arena[entry].b.words| <= rest && Backed(m.c.sys.rs, |m.c.mem|)
    requires MayEnter(m.c.sys, m.c.pc)
    modifies jit, jit.slots
    ensures jit.Valid() && jit.Follows(m'.c) && spent <= rest && m' == Steps(env, m, spent)
    ensures InLine(m'.c) && Backed(m'.c.sys.rs, |m'.c.mem|)
    ensures jit.link.None? && (!ok ==> Lost(jit, m'))
    ensures ok && spent == 0 ==> WillGo(jit, m')
    ensures old(EntryHolds(jit.arena, entry, m)) ==> spent > 0
  {
    hide SlotsOk, TablesMatch, ArenaOk, GuardHolds, Steps, FreshAt, AtEntry, StableRun, EntryHolds, SiteGoesTo,
         MayEnter;
    var budget: Word := if rest > 0xFFFF_FFFF then 0xFFFF_FFFF else rest;
    StableLess(env, m, rest, budget);
    BlockFits(jit.arena, entry, jit.sys.rs, jit.hasMmu, jit.memLen);
    EnteredRuns(jit.arena[entry].b, m);
    var left, status;
    m', left, status, ok := Native(env, jit, entry, m, budget);
    spent := budget - left;
    if jit.link.Some? {
      ok := jit.ResolveLink(m'.c, status.StatusStale?);
    }
  }

  lemma BlockFits(arena: seq<Compiled>, i: nat, rs: Map, hasMmu: bool, memLen: nat)
    requires ArenaOk(arena, rs, hasMmu, memLen) && i < |arena|
    ensures |arena[i].b.words| <= MAX_INSNS
  {
    BlockAt(arena, i, rs, hasMmu, memLen);
    ValidLength(arena[i].b);
  }

  lemma EnteredRuns(b: Block, m: Machine)
    requires AtEntry(b, m)
    ensures Running(m) && !m.c.branchPending
  {
  }

  /** Sample, and enter native code at way `k` unless an interrupt is taken. */
  method Enter(env: Env, jit: Jit, k: nat, m: Machine, rest: nat, ghost r: Machine)
    returns (m': Machine, spent: nat, ok: bool)
    requires rest > 0 && !m.c.sys.halted && LoopOk(jit, m, r) && jit.Current(m.c) && jit.link.None?
    requires Tame(env, r, rest) && Eligible(m.c)
    requires k < jit.slots.Length && jit.EntryFor(m.c.pc, k) && jit.slots[k].n <= rest
    modifies jit, jit.slots
    ensures jit.Valid() && spent <= rest && LoopOk(jit, m', Steps(env, r, spent))
    ensures spent > 0 ==> m' == Steps(env, r, spent)
    ensures jit.link.None? && (!ok ==> Lost(jit, m'))
    ensures ok && spent == 0 ==> WillGo(jit, m')
    ensures ok && old(jit.EntryFresh(m.c, k)) ==> spent > 0
  {
    hide SlotsOk, TablesMatch, ArenaOk, GuardHolds, Tame, Steps, Backed, Sampled, FreshAt, Located, AtEntry,
         StableRun, WillGo,
         Keeps, Quiet;
    var entry := jit.slots[k].code.value;
    var taken, c1 := Sampled(m.c).0, Sampled(m.c).1;
    RunningBoth(m, r);
    if taken {
      InterruptIsStep(env, m);
      StepAgrees(env, m, r);
      KeepsFollows(jit, m.c, c1);
      return m.(c := c1), 1, true;
    }
    SampleFields(m.c);
    EntryReady(env, jit.arena[entry].b, m, r, rest);
    m', spent, ok := Go(env, jit, entry, m.(c := c1), rest);
    SpentIs(env, m, r, spent);
    StaysAgreed(m', Steps(env, r, spent));
  }

  lemma StaysAgreed(m: Machine, r: Machine)
    ensures m == r ==> Agrees(m, r)
  {
  }

  lemma SpentIs(env: Env, m: Machine, r: Machine, n: nat)
    requires Agrees(m, r) && !Sampled(m.c).0 && Running(m)
    ensures
      var m1 := m.(c := Sampled(m.c).1);
      && (n > 0 ==> Steps(env, m1, n) == Steps(env, r, n))
      && (n == 0 ==> Steps(env, m1, n) == m1 && Steps(env, r, n) == r && Agrees(m1, r))
  {
    hide Sampled, Step;
    var m1 := m.(c := Sampled(m.c).1);
    SampledRun(env, m, r, if n > 0 then n else 1);
  }

  /** Bring tables and blocks up to date, and look up the block at pc if native code may
      run it. */
  method Lookup(jit: Jit, m: Machine) returns (entry: Option<nat>, ok: bool)
    requires jit.Valid() && jit.Follows(m.c) && Backed(m.c.sys.rs, |m.c.mem|) && jit.link.None?
    modifies jit, jit.rd, jit.wr, jit.slots
    ensures jit.Valid() && jit.Current(m.c) && jit.link.None?
    ensures entry.Some? ==> Eligible(m.c) && entry.value < jit.slots.Length && jit.EntryFor(m.c.pc, entry.value)
    ensures entry.Some? && old(WillGo(jit, m)) ==> jit.EntryFresh(m.c, entry.value)
    ensures ok && Eligible(m.c) ==>
              (entry.Some? <==> jit.Makes(m.c, m.c.pc) || old(jit.Current(m.c) && jit.Answered(m.c.pc)))
    ensures !ok ==> Lost(jit, m)
    ensures Eligible(m.c) && jit.flushes == old(jit.flushes) ==> (!ok <==> Astray(jit.slots[..], jit.arena, m.c.pc))
  {
    hide SlotsOk, TablesMatch, ArenaOk, GuardHolds, Backed, FreshAt, SetOf;
    jit.Prepare(m.c);
    entry := None;
    if Eligible(m.c) {
      entry := jit.Find(m.c, m.c.pc, false);
      LookupFound(jit, m.c.pc, entry);
    }
    ok := true;
    if entry.Some? && jit.arena[jit.slots[entry.value].code.value].b.va != m.c.pc {
      entry, ok := None, false;
    }
  }

  lemma LookupFound(jit: Jit, va: Word, entry: Option<nat>)
    requires jit.Valid()
    ensures entry.Some? && entry.value < jit.slots.Length && Hit(jit.slots[..], entry.value, va) ==>
              jit.slots[entry.value].code.value < |jit.arena|
              && (Astray(jit.slots[..], jit.arena, va) <==>
                  jit.arena[jit.slots[entry.value].code.value].b.va != va)
    ensures !jit.Answered(va) ==> !Astray(jit.slots[..], jit.arena, va)
  {
    hide SlotsOk, TablesMatch, ArenaOk, SetOf;
    NoneAstray(jit.slots[..], va, jit.arena);
    if entry.Some? && entry.value < jit.slots.Length && Hit(jit.slots[..], entry.value, va) {
      OnlyHit(jit.slots[..], entry.value, va, jit.arena);
    }
  }

  /** One turn of the loop with `rest` slots left: how many it used, and whether it came to
      no misnamed way. Only a stale first block uses none, and then the next
      turn will not. */
  method Turn(env: Env, jit: Jit, m: Machine, rest: nat, ghost r: Machine)
    returns (m': Machine, spent: nat, ok: bool)
    requires rest > 0 && !m.c.sys.halted && LoopOk(jit, m, r) && jit.link.None? && Tame(env, r, rest)
    modifies jit, jit.rd, jit.wr, jit.slots
    ensures spent <= rest && LoopOk(jit, m', Steps(env, r, spent)) && jit.link.None?
    ensures !ok ==> Lost(jit, m')
    ensures spent > 0 ==> m' == Steps(env, r, spent)
    ensures ok && spent == 0 ==> WillGo(jit, m')
    ensures ok && old(WillGo(jit, m)) ==> spent > 0
  {
    hide SlotsOk, TablesMatch, ArenaOk, GuardHolds, Tame, Steps, Backed, Sampled, FreshAt, Keeps, Agrees, WillGo,
         Eligible, Step,
         InLine;
    var entry, found := Lookup(jit, m);
    NoStep(env, r);
    if !found {
      return m, 0, false;
    }
    if entry.None? || jit.slots[entry.value].n > rest {
      StepAgrees(env, m, r);
      m', spent, ok := Step(env, m), 1, true;
      KeepsFollows(jit, m.c, m'.c);
    } else {
      m', spent, ok := Enter(env, jit, entry.value, m, rest, r);
    }
  }

  lemma KeepsFollows(jit: Jit, c: Cpu, c': Cpu)
    requires jit.Current(c) && Keeps(c, c')
    ensures jit.Follows(c')
  {
    hide Backed;
  }

  /** The native engine's run loop: up to `slots` steps, unless the machine halts. It gives
      exactly what the reference loop gives, and it terminates. It stays right until address
      0 is looked up while a way of set 0 names it for another block: there the model stops,
      with `ok` false. */
  method RunJit(env: Env, jit: Jit, m: Machine, slots: nat) returns (m': Machine, done: nat, ok: bool)
    requires jit.Valid() && jit.Follows(m.c) && jit.link.None?
    requires InLine(m.c) && Backed(m.c.sys.rs, |m.c.mem|)
    requires Tame(env, m, slots)
    modifies jit, jit.rd, jit.wr, jit.slots
    ensures jit.Valid() && jit.Follows(m'.c)
    ensures ok ==> m' == Steps(env, m, slots) && (done == slots || m'.c.sys.halted) && jit.link.None?
    ensures !ok ==> Lost(jit, m') && done <= slots && Agrees(m', Steps(env, m, done)) && jit.link.None?
  {
    hide SlotsOk, TablesMatch, ArenaOk, Tame, Steps, Backed, FreshAt, Agrees, WillGo;
    m', done, ok := m, 0, true;
    var retry := false;
    NoStep(env, m);
    assert Agrees(m, m) by { SelfAgrees(m); }
    while done < slots && !m'.c.sys.halted
      invariant done <= slots && LoopOk(jit, m', Steps(env, m, done)) && jit.link.None?
      invariant !retry ==> m' == Steps(env, m, done)
      invariant retry ==> WillGo(jit, m') && done < slots && !m'.c.sys.halted
      decreases slots - done, !retry
    {
      ghost var r := Steps(env, m, done);
      TameRest(env, m, slots, done);
      var spent;
      m', spent, ok := Turn(env, jit, m', slots - done, r);
      StepsCompose(env, m, done, spent);
      done := done + spent;
      if !ok {
        return;
      }
      retry := spent == 0;
      if retry {
        NoStep(env, r);
        RunningBoth(m', r);
      }
    }
    if done < slots {
      Exceptions.StandsStill(env, m', slots - done);
      StepsCompose(env, m, done, slots - done);
    }
  }

  lemma SelfAgrees(m: Machine)
    ensures Agrees(m, m)
  {
  }

  lemma TameRest(env: Env, m: Machine, n: nat, k: nat)
    requires Tame(env, m, n) && k <= n
    ensures Tame(env, Steps(env, m, k), n - k)
  {
    hide LineStable, Steps, NothingHidden;
    forall i | 0 <= i < n - k
      ensures LineStable(env, Steps(env, Steps(env, m, k), i))
      ensures NothingHidden(Steps(env, Steps(env, m, k), i).c.sys.rs)
    {
      StepsCompose(env, m, k, i);
    }
  }
}
