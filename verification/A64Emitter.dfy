/** The AArch64 emitter: a fixed buffer filled in place, forward branches patched once
    their targets are known, and the register cache it emits under. Each method writes
    exactly the code `A64Code` gives for its part, or reports that the buffer is full. */
module A64Emitter {
  import opened Words
  import opened Wrappers
  import opened Mips
  import opened MipsIr
  import opened NativeBlock
  import opened HostCode
  import opened RegCache
  import opened A64Code

  lemma PlainsNone()
    ensures Plains([]) == []
  {
  }

  lemma PlainsConcat(t: seq<Insn>, a: seq<HOp>, b: seq<HOp>)
    ensures t + Plains(a + b) == t + Plains(a) + Plains(b)
  {
  }

  function StoreIfDirty(rc: Cache, g: Reg): seq<HOp>
    requires Shape(rc)
  {
    if rc.dirty[g] then [StGpr(rc.host[g], g)] else []
  }

  lemma WritebackFrom(rc: Cache, g: nat)
    requires Shape(rc) && 1 <= g < 32
    ensures Writeback(rc, g) == StoreIfDirty(rc, g) + Writeback(rc, g + 1)
  {
  }

  /** The cache with the registers from 1 to below `g` written back. */
  function CleanTo(rc: Cache, g: nat): Cache
    requires |rc.dirty| == 32
  {
    rc.(dirty := seq(32, k requires 0 <= k < 32 => rc.dirty[k] && !(1 <= k < g)))
  }

  lemma NoneClean(rc: Cache)
    requires |rc.dirty| == 32
    ensures CleanTo(rc, 1) == rc
  {
    assert CleanTo(rc, 1).dirty == rc.dirty;
  }

  lemma CleanNext(rc: Cache, g: nat)
    requires Shape(rc) && 1 <= g < 32
    ensures Shape(CleanTo(rc, g)) && StoreIfDirty(CleanTo(rc, g), g) == StoreIfDirty(rc, g)
    ensures |CleanTo(rc, g).dirty| == 32
    ensures CleanTo(rc, g).(dirty := CleanTo(rc, g).dirty[g := false]) == CleanTo(rc, g + 1)
  {
    assert CleanTo(rc, g).dirty[g := false] == CleanTo(rc, g + 1).dirty;
  }

  lemma AllClean(rc: Cache)
    requires |rc.dirty| == 32
    ensures CleanTo(rc, 32).host == rc.host && CleanTo(rc, 32).guest == rc.guest && |CleanTo(rc, 32).dirty| == 32
    ensures forall g :: 1 <= g < 32 ==> !CleanTo(rc, 32).dirty[g]
  {
  }

  lemma WritebackEnd(rc: Cache)
    requires Shape(rc)
    ensures Writeback(rc, 32) == []
  {
  }

  lemma EmptyFits()
    ensures A64(Empty())
  {
  }

  /** Filling in a branch emitted earlier. */
  lemma PatchAt(t: seq<Insn>, before: Insn, after: seq<Insn>, now: Insn)
    ensures (t + [before] + after)[|t| := now] == t + [now] + after
  {
  }

  function Retarget(i: Insn, rel: nat): Insn {
    match i
    case Jump(_) => Jump(rel)
    case JumpIf(t, _) => JumpIf(t, rel)
    case _ => i
  }

  /** Resolve the branch at `at` to the end of the text. */
  function Resolve(t: seq<Insn>, at: nat): (r: seq<Insn>)
    requires at < |t|
    ensures |r| == |t|
  {
    t[at := Retarget(t[at], |t| - at)]
  }

  /** The late test and the join of a fast path, patched around its slow path. */
  lemma PatchedArms(head: seq<Insn>, late: Test, fast: seq<Insn>, slow: seq<Insn>)
    ensures
      var x := head + [JumpIf(late, 0)] + fast + [Jump(0)];
      var x1 := x[|head| := JumpIf(late, |x| - |head|)] + slow;
      var end := |head| + 1 + |fast|;
      x1[end := Jump(|x1| - end)] == head + [JumpIf(late, |fast| + 2)] + Arms(fast, slow)
  {
    var x := head + [JumpIf(late, 0)] + fast + [Jump(0)];
    assert x == head + [JumpIf(late, 0)] + (fast + [Jump(0)]);
    PatchAt(head, JumpIf(late, 0), fast + [Jump(0)], JumpIf(late, |fast| + 2));
    var x1 := x[|head| := JumpIf(late, |x| - |head|)] + slow;
    var upTo := head + [JumpIf(late, |fast| + 2)] + fast;
    assert x1 == upTo + [Jump(0)] + slow;
    PatchAt(upTo, Jump(0), slow, Jump(1 + |slow|));
    assert upTo + [Jump(1 + |slow|)] + slow == head + [JumpIf(late, |fast| + 2)] + Arms(fast, slow);
  }

  /** Everything of an attempt after its first patch, which moves nothing. */
  lemma PatchedEarly(t: seq<Insn>, pre: seq<HOp>, early: Test, mid: seq<HOp>, late: Test, fast: seq<Insn>)
    ensures
      var x := t + Plains(pre) + [JumpIf(early, 0)] + Plains(mid) + [JumpIf(late, 0)] + fast + [Jump(0)];
      var rel := |x| - |t| - |pre|;
      && rel == 1 + |mid| + |fast| + 2
      && x[|t| + |pre| := JumpIf(early, rel)]
         == t + Plains(pre) + [JumpIf(early, rel)] + Plains(mid) + [JumpIf(late, 0)] + fast + [Jump(0)]
  {
    hide Plains;
    var after := Plains(mid) + [JumpIf(late, 0)] + fast + [Jump(0)];
    var rel := 1 + |after|;
    PatchAt(t + Plains(pre), JumpIf(early, 0), after, JumpIf(early, rel));
    assert t + Plains(pre) + [JumpIf(early, 0)] + after
        == t + Plains(pre) + [JumpIf(early, 0)] + Plains(mid) + [JumpIf(late, 0)] + fast + [Jump(0)];
    assert t + Plains(pre) + [JumpIf(early, rel)] + after
        == t + Plains(pre) + [JumpIf(early, rel)] + Plains(mid) + [JumpIf(late, 0)] + fast + [Jump(0)];
  }

  /** The text of an attempt before any patch. */
  function Unpatched(t: seq<Insn>, pre: seq<HOp>, early: Option<Test>, mid: seq<HOp>, late: Test,
                           fast: seq<Insn>): (r: seq<Insn>)
    ensures |r| == |t| + |pre| + (if early.Some? then 1 else 0) + |mid| + 1 + |fast| + 1
  {
    var test := if early.Some? then [JumpIf(early.value, 0)] else [];
    t + Plains(pre) + test + Plains(mid) + [JumpIf(late, 0)] + fast + [Jump(0)]
  }

  /** The three patches of a fast path with a shared slow path give its layout. */
  lemma PatchedAttempt(t: seq<Insn>, pre: seq<HOp>, early: Option<Test>, mid: seq<HOp>, late: Test,
                       fast: seq<Insn>, slow: seq<Insn>)
    ensures
      var x := Unpatched(t, pre, early, mid, late, fast);
      var x1 := if early.Some? then Resolve(x, |t| + |pre|) else x;
      var at := |t| + |pre| + (if early.Some? then 1 else 0) + |mid|;
      Resolve(Resolve(x1, at) + slow, at + 1 + |fast|) == t + AttemptLayout(pre, early, mid, late, fast, slow)
  {
    LayoutAfter(t, pre, early, mid, late, fast, slow);
    hide Plains, Arms, AttemptLayout, Resolve;
    if early.Some? {
      PatchedTwice(t, pre, early.value, mid, late, fast, slow);
    } else {
      assert t + Plains(pre) + [] + Plains(mid) == t + Plains(pre) + Plains(mid);
      PatchedOnce(t, pre, mid, late, fast, slow);
    }
  }

  lemma LayoutAfter(t: seq<Insn>, pre: seq<HOp>, early: Option<Test>, mid: seq<HOp>, late: Test,
                    fast: seq<Insn>, slow: seq<Insn>)
    ensures
      var test1 := if early.Some? then [JumpIf(early.value, 1 + |mid| + |fast| + 2)] else [];
      t + AttemptLayout(pre, early, mid, late, fast, slow)
      == t + Plains(pre) + test1 + Plains(mid) + [JumpIf(late, |fast| + 2)] + Arms(fast, slow)
  {
    hide Plains, Arms;
  }

  lemma PatchedOnce(t: seq<Insn>, pre: seq<HOp>, mid: seq<HOp>, late: Test, fast: seq<Insn>, slow: seq<Insn>)
    ensures
      var x := t + Plains(pre) + Plains(mid) + [JumpIf(late, 0)] + fast + [Jump(0)];
      var at := |t| + |pre| + |mid|;
      Resolve(Resolve(x, at) + slow, at + 1 + |fast|)
      == t + Plains(pre) + Plains(mid) + [JumpIf(late, |fast| + 2)] + Arms(fast, slow)
  {
    ArmsResolved(t + Plains(pre) + Plains(mid), late, fast, slow);
    hide Resolve, Arms, Plains;
  }

  lemma PatchedTwice(t: seq<Insn>, pre: seq<HOp>, early: Test, mid: seq<HOp>, late: Test,
                     fast: seq<Insn>, slow: seq<Insn>)
    ensures
      var x := t + Plains(pre) + [JumpIf(early, 0)] + Plains(mid) + [JumpIf(late, 0)] + fast + [Jump(0)];
      var at := |t| + |pre| + 1 + |mid|;
      Resolve(Resolve(Resolve(x, |t| + |pre|), at) + slow, at + 1 + |fast|)
      == t + Plains(pre) + [JumpIf(early, 1 + |mid| + |fast| + 2)] + Plains(mid) + [JumpIf(late, |fast| + 2)]
         + Arms(fast, slow)
  {
    hide Plains, Arms;
    PatchedEarly(t, pre, early, mid, late, fast);
    var x := t + Plains(pre) + [JumpIf(early, 0)] + Plains(mid) + [JumpIf(late, 0)] + fast + [Jump(0)];
    assert x[|t| + |pre|] == JumpIf(early, 0);
    ArmsResolved(t + Plains(pre) + [JumpIf(early, 1 + |mid| + |fast| + 2)] + Plains(mid), late, fast, slow);
    hide Resolve;
  }

  lemma ArmsResolved(head: seq<Insn>, late: Test, fast: seq<Insn>, slow: seq<Insn>)
    ensures
      var x := head + [JumpIf(late, 0)] + fast + [Jump(0)];
      Resolve(Resolve(x, |head|) + slow, |head| + 1 + |fast|) == head + [JumpIf(late, |fast| + 2)] + Arms(fast, slow)
  {
    hide Arms;
    var x := head + [JumpIf(late, 0)] + fast + [Jump(0)];
    var x1 := Resolve(x, |head|) + slow;
    assert x[|head|] == JumpIf(late, 0);
    assert x1[|head| + 1 + |fast|] == Jump(0);
    PatchedArms(head, late, fast, slow);
  }

  /** Patch the branches of an attempt around its slow path. */
  function SlowArm(x: seq<Insn>, at: Option<nat>, at2: nat, end: nat, slow: seq<Insn>): seq<Insn>
    requires at2 < |x| && end < |x| && (at.Some? ==> at.value < |x|)
  {
    Resolve(Resolve(if at.Some? then Resolve(x, at.value) else x, at2) + slow, end)
  }

  /** Preparation, fast path and the caches at the branch and after. */
  function MemoryParts(i: Ir, rc: Cache): (r: (seq<HOp>, seq<HOp>, Cache, Cache))
    requires Shape(rc)
    ensures Shape(r.2) && Shape(r.3)
  {
    var (readOps, base, atBranch) := Read(rc, i.left, 1);
    var (fast, join) := if i.op.IStore? then StoreFast(i, atBranch) else LoadFast(i, atBranch);
    (readOps + AddressOps(i, base), fast, atBranch, join)
  }

  /** Where the branches of an access stand: both tests and the join. */
  function MemoryBranches(start: nat, i: Ir, rc: Cache): (Option<nat>, nat, nat)
    requires Shape(rc)
  {
    var (pre, fast, _, _) := MemoryParts(i, rc);
    var at2 := start + |pre| + (if i.size > 1 then 1 else 0) + |PageLookup(i.op.IStore?)|;
    (if i.size > 1 then Some(start + |pre|) else None, at2, at2 + 1 + |fast|)
  }

  /** The text of an access before its branches are resolved. */
  function MemoryText(t: seq<Insn>, i: Ir, rc: Cache): (r: seq<Insn>)
    requires Shape(rc)
    ensures
      var (at, at2, end) := MemoryBranches(|t|, i, rc);
      at2 < |r| && end < |r| && (at.Some? ==> at.value < |r|) && (|t| > 0 && at.Some? ==> 0 < at.value)
  {
    var (pre, fast, _, _) := MemoryParts(i, rc);
    Unpatched(t, pre, if i.size > 1 then Some(OnFlags(NE)) else None, PageLookup(i.op.IStore?), NoPage(3), Plains(fast))
  }

  lemma MemoryLayout(t: seq<Insn>, b: Block, k: nat, rc: Cache)
    requires k < |b.words| && |b.ir| == |b.words| && Shape(rc)
    ensures
      var (_, _, atBranch, join) := MemoryParts(b.ir[k], rc);
      var (at, at2, end) := MemoryBranches(|t|, b.ir[k], rc);
      && MemoryCode(b, k, rc).1 == join
      && SlowArm(MemoryText(t, b.ir[k], rc), at, at2, end, Flatten(SlowPath(b, k, atBranch, join)))
         == t + Flatten(MemoryCode(b, k, rc).0)
  {
    hide Shape, Plains, Unpatched, Resolve, AttemptLayout, SlowPath, LoadFast, StoreFast, Read, AddressOps, PageLookup;
    var i := b.ir[k];
    var (pre, fast, atBranch, join) := MemoryParts(i, rc);
    var early := if i.size > 1 then Some(OnFlags(NE)) else None;
    PatchedAttempt(t, pre, early, PageLookup(i.op.IStore?), NoPage(3), Plains(fast),
                   Flatten(SlowPath(b, k, atBranch, join)));
  }

  /** Operands and the flag-setting operation. */
  function TrappingHead(i: Ir, rc: Cache): (r: (seq<HOp>, Cache))
    requires Shape(rc)
    ensures Shape(r.1)
  {
    var (ops, l, r, atBranch) := Operands(rc, i);
    (ops + [ArithFlags(i.op.ISubOv?, 3, l, r)], atBranch)
  }

  /** The destination of a trapping operation that did not trap. */
  function TrappingResult(i: Ir, rc: Cache): (r: (seq<HOp>, Cache))
    requires Shape(rc)
    ensures Shape(r.1)
  {
    var (d, join) := WriteReg(rc, i.dst, 9);
    ((if i.dst != 0 then Move(d, 3) else []) + Written(join, i.dst, d), join)
  }

  /** Operands and operation, fast path, and the caches at the branch and after. */
  function TrappingParts(i: Ir, rc: Cache): (r: (seq<HOp>, seq<HOp>, Cache, Cache))
    requires Shape(rc)
    ensures Shape(r.2) && Shape(r.3)
  {
    var (mid, atBranch) := TrappingHead(i, rc);
    var (fast, join) := TrappingResult(i, atBranch);
    (mid, fast, atBranch, join)
  }

  function TrappingBranches(start: nat, i: Ir, rc: Cache): (nat, nat)
    requires Shape(rc)
  {
    var (mid, fast, _, _) := TrappingParts(i, rc);
    (start + |mid|, start + |mid| + 1 + |fast|)
  }

  function TrappingText(t: seq<Insn>, i: Ir, rc: Cache): (r: seq<Insn>)
    requires Shape(rc)
    ensures TrappingBranches(|t|, i, rc).0 < |r| && TrappingBranches(|t|, i, rc).1 < |r|
  {
    var (mid, fast, _, _) := TrappingParts(i, rc);
    Unpatched(t, [], None, mid, OnFlags(VS), Plains(fast))
  }

  lemma TrappingTextIs(t: seq<Insn>, i: Ir, rc: Cache)
    requires Shape(rc)
    ensures
      var head, rc1 := TrappingHead(i, rc).0, TrappingHead(i, rc).1;
      var fast, rc2 := TrappingResult(i, rc1).0, TrappingResult(i, rc1).1;
      && TrappingParts(i, rc).2 == rc1 && TrappingParts(i, rc).3 == rc2
      && TrappingBranches(|t|, i, rc) == (|t| + |head|, |t| + |head| + 1 + |fast|)
      && TrappingText(t, i, rc) == t + Plains(head) + [JumpIf(OnFlags(VS), 0)] + Plains(fast) + [Jump(0)]
  {
    hide Shape, TrappingHead, TrappingResult;
    PlainsNone();
  }

  lemma TrappingLayout(t: seq<Insn>, b: Block, k: nat, rc: Cache)
    requires k < |b.words| && |b.ir| == |b.words| && Shape(rc)
    ensures
      var (_, _, atBranch, join) := TrappingParts(b.ir[k], rc);
      var (at2, end) := TrappingBranches(|t|, b.ir[k], rc);
      && TrappingCode(b, k, rc).1 == join
      && SlowArm(TrappingText(t, b.ir[k], rc), None, at2, end,
                 Flatten(SlowPath(b, k, atBranch, join)))
         == t + Flatten(TrappingCode(b, k, rc).0)
  {
    hide Shape, Plains, Unpatched, Resolve, AttemptLayout, SlowPath, Operands, WriteReg, Written, Move;
    var i := b.ir[k];
    var (mid, fast, atBranch, join) := TrappingParts(i, rc);
    PatchedAttempt(t, [], None, mid, OnFlags(VS), Plains(fast), Flatten(SlowPath(b, k, atBranch, join)));
  }

  lemma GuardLayout(b: Block, k: nat)
    requires k < |b.words|
    ensures
      if k + 1 < |b.words| then
        Flatten(GuardCode(b, k)) ==
          Plains([LdGuest(10, b.guest + 4 * k, 2)])
          + [LeaveIf(Differs(10, Wide(Reverse(b.words[k + 1]), Reverse(b.words[k]))), Stale)]
          + Flatten(GuardCode(b, k + 2))
      else
        Flatten(GuardCode(b, k)) ==
          Plains([LdGuest(10, b.guest + 4 * k, 1)]) + [LeaveIf(Differs(10, W(Reverse(b.words[k]))), Stale)]
          + Flatten(GuardCode(b, k + 1))
  {
    hide Plains, Reverse;
    if k + 1 < |b.words| {
      var load := LdGuest(10, b.guest + 4 * k, 2);
      var leave := ExitIf(Differs(10, Wide(Reverse(b.words[k + 1]), Reverse(b.words[k]))), Stale);
      assert Flatten(Then(Ops([load]), leave)) == Plains([load]) + [LeaveIf(leave.t, Stale)];
    } else {
      var load := LdGuest(10, b.guest + 4 * k, 1);
      var leave := ExitIf(Differs(10, W(Reverse(b.words[k]))), Stale);
      assert Flatten(Then(Ops([load]), leave)) == Plains([load]) + [LeaveIf(leave.t, Stale)];
    }
  }

  function AfterCompare(b: Block, k: nat): (r: nat)
    requires k < |b.words|
    ensures k < r <= |b.words|
  {
    if k + 1 < |b.words| then k + 2 else k + 1
  }

  lemma GuardEnds(b: Block)
    ensures Flatten(GuardCode(b, |b.words|)) == []
  {
  }

  lemma ClaimLayout(b: Block)
    requires 0 < |b.words| <= MAX_INSNS
    ensures Flatten(ClaimCode(b)) ==
            Plains([CmpImm(BUDGET, |b.words|)]) + [LeaveIf(OnFlags(CC), Budget)]
            + Plains([SubImm(BUDGET, BUDGET, |b.words|), StLatch(ZR, LInDelay)])
  {
    hide Plains;
    var rest := Ops([SubImm(BUDGET, BUDGET, |b.words|), StLatch(ZR, LInDelay)]);
    assert Flatten(Then(ExitIf(OnFlags(CC), Budget), rest)) == [LeaveIf(OnFlags(CC), Budget)] + Plains(rest.ops);
  }

  class Emitter {
    const buf: array<Insn>
    var p: nat
    var overflow: bool
    var rc: Cache
    /** Everything emitted, including what no longer fitted. */
    ghost var text: seq<Insn>

    ghost predicate Valid()
      reads this, buf
    {
      && A64(rc)
      && overflow == (|text| > buf.Length)
      && p == (if overflow then buf.Length else |text|)
      && (!overflow ==> buf[..p] == text)
    }

    constructor (capacity: nat)
      ensures Valid() && text == [] && rc == Empty() && buf.Length == capacity && fresh(buf)
    {
      buf := new Insn[capacity](_ => Leave(Done));
      p := 0;
      overflow := false;
      rc := Empty();
      text := [];
    }

    method Put(i: Insn)
      requires Valid()
      modifies this`p, this`overflow, this`text, buf
      ensures Valid() && text == old(text) + [i] && old(p) <= p
    {
      if p < buf.Length {
        buf[p] := i;
        p := p + 1;
      } else {
        overflow := true;
      }
      text := text + [i];
    }

    method PutOp(op: HOp)
      requires Valid()
      modifies this`p, this`overflow, this`text, buf
      ensures Valid() && text == old(text) + Plains([op]) && old(p) <= p
    {
      assert Plains([op]) == [Plain(op)];
      Put(Plain(op));
    }

    method PutOps(ops: seq<HOp>)
      requires Valid()
      modifies this`p, this`overflow, this`text, buf
      ensures Valid() && text == old(text) + Plains(ops) && old(p) <= p
    {
      assert Plains(ops[..0]) == [];
      for i := 0 to |ops|
        invariant Valid() && text == old(text) + Plains(ops[..i]) && old(p) <= p
      {
        assert Plains(ops[..i + 1]) == Plains(ops[..i]) + [Plain(ops[i])];
        Put(Plain(ops[i]));
      }
      assert ops[..|ops|] == ops;
    }

    /** A forward branch whose target is not known yet. */
    method Fixup(i: Insn) returns (fixup: nat)
      requires Valid()
      modifies this`p, this`overflow, this`text, buf
      ensures Valid() && text == old(text) + [i] && fixup == old(p) <= p
      ensures fixup == Place(|old(text)|)
    {
      fixup := p;
      Put(i);
    }

    /** Point the branch at `fixup` to here; `at` is its place in the whole text. */
    method Patch(fixup: nat, ghost at: nat)
      requires Valid() && fixup <= p
      requires at < |text| && fixup == Place(at)
      modifies this`text, buf
      ensures Valid() && text == Resolve(old(text), at) && p == old(p)
    {
      if fixup < buf.Length {
        buf[fixup] := Retarget(buf[fixup], p - fixup);
      }
      text := text[at := Retarget(text[at], |text| - at)];
    }

    // ---------------------------------------------------------- register cache

    method AllocReg(g: Reg) returns (h: int)
      requires Valid()
      modifies this`rc
      ensures Valid() && (h, rc) == Alloc(old(rc), g)
    {
      for s := 0 to |rc.guest|
        invariant rc == old(rc) && FreeSlot(rc, 0) == FreeSlot(rc, s)
      {
        if rc.guest[s] == FREE {
          assert FreeSlot(rc, 0) == Some(s);
          rc := rc.(guest := rc.guest[s := g], host := rc.host[g := rc.regs[s]]);
          return rc.regs[s];
        }
      }
      return -1;
    }

    method ReadReg(g: Reg, scratch: HReg) returns (h: HReg)
      requires Valid()
      modifies this, buf
      ensures Valid() && old(p) <= p
      ensures var (ops, host, rc1) := Read(old(rc), g, scratch);
              h == host && rc == rc1 && text == old(text) + Plains(ops)
    {
      PlainsNone();
      if g == 0 {
        return ZR;
      }
      if rc.host[g] >= 0 {
        return rc.host[g];
      }
      var host := AllocReg(g);
      h := if host < 0 then scratch else host;
      PutOp(LdGpr(h, g));
    }

    method WriteHost(g: Reg, scratch: HReg) returns (h: HReg)
      requires Valid()
      modifies this`rc
      ensures Valid() && (h, rc) == WriteReg(old(rc), g, scratch)
    {
      if g == 0 {
        return scratch;
      }
      if rc.host[g] < 0 {
        var host := AllocReg(g);
        if host < 0 {
          return scratch;
        }
      }
      rc := rc.(dirty := rc.dirty[g := true]);
      h := rc.host[g];
    }

    method WriteDone(g: Reg, h: HReg)
      requires Valid()
      modifies this`p, this`overflow, this`text, buf
      ensures Valid() && text == old(text) + Plains(Written(rc, g, h)) && old(p) <= p
    {
      PlainsNone();
      if g != 0 && h != rc.host[g] {
        PutOp(StGpr(h, g));
      }
    }

    method BackOne(g: Reg)
      requires Valid()
      modifies this, buf
      ensures Valid() && old(p) <= p
      ensures rc == old(rc).(dirty := old(rc).dirty[g := false])
      ensures text == old(text) + Plains(StoreIfDirty(old(rc), g))
    {
      PlainsNone();
      if rc.dirty[g] {
        PutOp(StGpr(rc.host[g], g));
        rc := rc.(dirty := rc.dirty[g := false]);
      } else {
        assert rc.dirty[g := false] == rc.dirty;
      }
    }

    method WriteBack()
      requires Valid()
      modifies this, buf
      ensures Valid() && text == old(text) + Plains(Writeback(old(rc), 1)) && old(p) <= p
      ensures rc.host == old(rc).host && rc.guest == old(rc).guest
      ensures forall g :: 1 <= g < 32 ==> !rc.dirty[g]
    {
      ghost var rc0, t := rc, text;
      assert Shape(rc0);
      NoneClean(rc0);
      hide Shape, Valid, Plains, Writeback, CleanTo, StoreIfDirty;
      for g := 1 to 32
        invariant Valid() && old(p) <= p && rc == CleanTo(rc0, g)
        invariant text + Plains(Writeback(rc0, g)) == t + Plains(Writeback(rc0, 1))
      {
        WritebackFrom(rc0, g);
        CleanNext(rc0, g);
        PlainsConcat(text, StoreIfDirty(rc0, g), Writeback(rc0, g + 1));
        BackOne(g);
      }
      WritebackEnd(rc0);
      PlainsNone();
      AllClean(rc0);
    }

    method RestoreAll(state: Cache)
      requires Valid() && A64(state)
      modifies this, buf
      ensures Valid() && rc == state && text == old(text) + Plains(Restore(state, 1)) && old(p) <= p
    {
      ghost var all := text + Plains(Restore(state, 1));
      for g := 1 to 32
        invariant Valid() && old(p) <= p
        invariant all == text + Plains(Restore(state, g))
      {
        if state.host[g] >= 0 {
          PlainsConcat(text, [LdGpr(state.host[g], g)], Restore(state, g + 1));
          PutOp(LdGpr(state.host[g], g));
        } else {
          assert Restore(state, g) == Restore(state, g + 1);
        }
      }
      PlainsNone();
      rc := state;
    }

    // ------------------------------------------------------------ pieces

    method AddImm(d: HReg, s: HReg, v: Word)
      requires Valid()
      modifies this`p, this`overflow, this`text, buf
      ensures Valid() && text == old(text) + Plains(AddImm32(d, s, v)) && old(p) <= p
    {
      if s == ZR {
        PutOp(MovImm(d, v));
      } else if v < 4096 {
        PutOp(HOp.AddImm(d, s, v));
      } else if Sub(0, v) < 4096 {
        PutOp(SubImm(d, s, Sub(0, v)));
      } else {
        PutOp(MovImm(17, v));
        PutOp(Arith(AluAdd, d, s, 17));
        PlainsConcat(old(text), [MovImm(17, v)], [Arith(AluAdd, d, s, 17)]);
      }
    }

    method MoveReg(d: HReg, s: HReg)
      requires Valid()
      modifies this`p, this`overflow, this`text, buf
      ensures Valid() && text == old(text) + Plains(Move(d, s)) && old(p) <= p
    {
      PlainsNone();
      if d != s {
        PutOp(MovReg(d, s));
      }
    }

    method PutExit(n: nat, retired: nat)
      requires Valid() && retired <= n
      modifies this`p, this`overflow, this`text, buf
      ensures Valid() && text == old(text) + Flatten(ExitBlock(n, retired)) && old(p) <= p
    {
      PlainsNone();
      if n - retired != 0 {
        AddImm(BUDGET, BUDGET, Wrap(n - retired));
      }
      Put(Leave(Done));
    }

    method PutCall(b: Block, k: nat)
      requires Valid() && k < |b.words|
      modifies this`p, this`overflow, this`text, buf
      ensures Valid() && text == old(text) + Plains(CallOps(b, k)) && old(p) <= p
    {
      hide Shape, Plains;
      var inSlot := InDelaySlot(b, k);
      var args := [MovReg(0, 19), MovImm(1, b.words[k]), MovImm(2, Pc(b, k)), MovImm(3, Wrap(k))];
      var target := if inSlot then [MovReg(4, TARGET)] else [];
      PutOps(args + target + [Call(inSlot)]);
    }

    /** Guest state to memory, the call, and the exit when it says so. */
    method PutHelper(b: Block, k: nat)
      requires Valid() && k < |b.words|
      modifies this, buf
      ensures Valid() && rc == Empty() && old(p) <= p
      ensures text == old(text) + Flatten(Helper(b, k, old(rc)))
    {
      hide Shape, Writeback, CallOps, Plains;
      ghost var wb := Writeback(rc, 1);
      WriteBack();
      rc := Empty();
      EmptyFits();
      PutCall(b, k);
      PlainsConcat(old(text), wb, CallOps(b, k));
      PutLeave(|b.words|, k + 1);
    }

    /** Leave the block unless the helper said to go on. */
    method PutLeave(n: nat, k: nat)
      requires Valid() && k <= n
      modifies this, buf
      ensures Valid() && rc == old(rc) && old(p) <= p
      ensures
        var leave := Flatten(ExitBlock(n, k));
        text == old(text) + ([JumpIf(IsZero(0), 1 + |leave|)] + leave)
    {
      hide Shape, Plains, Flatten;
      ghost var head := text;
      var over := Fixup(JumpIf(IsZero(0), 0));
      PutExit(n, k);
      ghost var leave := Flatten(ExitBlock(n, k));
      PatchAt(head, JumpIf(IsZero(0), 0), leave, JumpIf(IsZero(0), 1 + |leave|));
      Patch(over, |head|);
    }

    method PutSlowPath(b: Block, k: nat, atBranch: Cache)
      requires Valid() && k < |b.words| && A64(atBranch)
      modifies this, buf
      ensures Valid() && rc == old(rc) && old(p) <= p
      ensures text == old(text) + Flatten(SlowPath(b, k, atBranch, old(rc)))
    {
      hide Shape, Helper, Restore, Plains;
      var join := rc;
      rc := atBranch;
      PutHelper(b, k);
      RestoreAll(join);
    }

    // ------------------------------------------------------------ loads and stores

    /** The address into register 1 and its alignment into the flags. */
    method PutAddressOps(i: Ir, base: HReg)
      requires Valid()
      modifies this`p, this`overflow, this`text, buf
      ensures Valid() && text == old(text) + Plains(AddressOps(i, base)) && old(p) <= p
    {
      hide Shape, Plains;
      if i.value != 0 {
        AddImm(1, base, i.value);
      } else {
        MoveReg(1, base);
      }
      ghost var value := if i.value != 0 then AddImm32(1, base, i.value) else Move(1, base);
      if i.size > 1 {
        PutOp(TestLow(1, i.size));
        PlainsConcat(old(text), value, [TestLow(1, i.size)]);
      } else {
        assert AddressOps(i, base) == value;
      }
    }

    /** The page pointer into register 3, or a branch to the slow path when there is none. */
    method PutLookup(write: bool) returns (slow2: nat)
      requires Valid()
      modifies this`p, this`overflow, this`text, buf
      ensures Valid() && old(p) <= p && slow2 <= p
      ensures text == old(text) + Plains(PageLookup(write)) + [JumpIf(NoPage(3), 0)]
      ensures slow2 == Place(|old(text)| + |PageLookup(write)|)
    {
      hide Shape, Plains;
      PutOp(ShiftImm(Lsr, 2, 1, 12));
      PutOp(LdTable(3, 2, write));
      PlainsConcat(old(text), [ShiftImm(Lsr, 2, 1, 12)], [LdTable(3, 2, write)]);
      assert [ShiftImm(Lsr, 2, 1, 12)] + [LdTable(3, 2, write)] == PageLookup(write);
      slow2 := Fixup(JumpIf(NoPage(3), 0));
    }

    /** Address, alignment and page checks; `slow` is 0 when the access needs no
        alignment check. */
    method PutAddress(i: Ir, write: bool) returns (slow: nat, slow2: nat)
      requires Valid() && |text| > 0
      modifies this, buf
      ensures Valid() && old(p) <= p && slow <= p && slow2 <= p
      ensures
        var (ops, base, rc1) := Read(old(rc), i.left, 1);
        var pre := ops + AddressOps(i, base);
        var check := if i.size > 1 then [JumpIf(OnFlags(NE), 0)] else [];
        && rc == rc1
        && text == old(text) + Plains(pre) + check + Plains(PageLookup(write)) + [JumpIf(NoPage(3), 0)]
        && slow == (if i.size > 1 then Place(|old(text)| + |pre|) else 0)
        && slow2 == Place(|old(text)| + |pre| + |check| + |PageLookup(write)|)
    {
      assert Shape(rc);
      hide Shape, Plains, AddressOps, PageLookup, Valid;
      var base := ReadReg(i.left, 1);
      PutAddressOps(i, base);
      PlainsConcat(old(text), Read(old(rc), i.left, 1).0, AddressOps(i, base));
      slow := 0;
      if i.size > 1 {
        slow := Fixup(JumpIf(OnFlags(NE), 0));
      }
      slow2 := PutLookup(write);
    }

    /** Where a branch at `at` ends up in the buffer. */
    ghost function Place(at: nat): nat {
      if at < buf.Length then at else buf.Length
    }

    method PutLoadOps(i: Ir, d: HReg)
      requires Valid()
      modifies this`p, this`overflow, this`text, buf
      ensures Valid() && text == old(text) + Plains(LoadOps(i, d)) && old(p) <= p
    {
      hide Shape, Plains, Valid;
      ghost var t := text;
      if i.size == 4 {
        PutOp(LdHost(d, 3, 1, 4, false));
        PutOp(Rev(d, d));
        PlainsConcat(t, [LdHost(d, 3, 1, 4, false)], [Rev(d, d)]);
        assert LoadOps(i, d) == [LdHost(d, 3, 1, 4, false)] + [Rev(d, d)];
      } else if i.size == 2 {
        PutOp(LdHost(d, 3, 1, 2, false));
        PutOp(Rev16(d, d));
        PlainsConcat(t, [LdHost(d, 3, 1, 2, false)], [Rev16(d, d)]);
        if i.sign {
          PutOp(Sxth(d));
          PlainsConcat(t, [LdHost(d, 3, 1, 2, false)] + [Rev16(d, d)], [Sxth(d)]);
          assert LoadOps(i, d) == [LdHost(d, 3, 1, 2, false)] + [Rev16(d, d)] + [Sxth(d)];
        } else {
          assert LoadOps(i, d) == [LdHost(d, 3, 1, 2, false)] + [Rev16(d, d)];
        }
      } else {
        PutOp(LdHost(d, 3, 1, 1, i.sign));
      }
    }

    method PutStoreOps(i: Ir, v: HReg)
      requires Valid()
      modifies this`p, this`overflow, this`text, buf
      ensures Valid() && text == old(text) + Plains(StoreOps(i, v)) && old(p) <= p
    {
      hide Shape, Plains, Valid;
      ghost var t := text;
      if i.size == 4 {
        PutOp(Rev(9, v));
        PutOp(StHost(9, 3, 1, 4));
        PlainsConcat(t, [Rev(9, v)], [StHost(9, 3, 1, 4)]);
        assert StoreOps(i, v) == [Rev(9, v)] + [StHost(9, 3, 1, 4)];
      } else if i.size == 2 {
        PutOp(Rev16(9, v));
        PutOp(StHost(9, 3, 1, 2));
        PlainsConcat(t, [Rev16(9, v)], [StHost(9, 3, 1, 2)]);
        assert StoreOps(i, v) == [Rev16(9, v)] + [StHost(9, 3, 1, 2)];
      } else {
        PutOp(StHost(v, 3, 1, 1));
      }
    }

    method PutLoad(i: Ir)
      requires Valid()
      modifies this, buf
      ensures Valid() && old(p) <= p
      ensures text == old(text) + Plains(LoadFast(i, old(rc)).0) && rc == LoadFast(i, old(rc)).1
    {
      assert Shape(rc);
      hide Shape, Plains, Valid, LoadOps, Written;
      ghost var t := text;
      PutOp(PageOffset(1));
      var d := WriteHost(i.dst, 9);
      assert Shape(rc);
      PutLoadOps(i, d);
      PlainsConcat(t, [PageOffset(1)], LoadOps(i, d));
      WriteDone(i.dst, d);
      PlainsConcat(t, [PageOffset(1)] + LoadOps(i, d), Written(rc, i.dst, d));
      PutOp(AddCounter(CReads, 1));
      PlainsConcat(t, [PageOffset(1)] + LoadOps(i, d) + Written(rc, i.dst, d), [AddCounter(CReads, 1)]);
    }

    method PutStore(i: Ir)
      requires Valid()
      modifies this, buf
      ensures Valid() && old(p) <= p
      ensures text == old(text) + Plains(StoreFast(i, old(rc)).0) && rc == StoreFast(i, old(rc)).1
    {
      assert Shape(rc);
      hide Shape, Plains, Valid, StoreOps;
      ghost var t := text;
      PutOp(PageOffset(1));
      var v := ReadReg(i.right, 9);
      ghost var read := Read(old(rc), i.right, 9).0;
      PlainsConcat(t, [PageOffset(1)], read);
      PutStoreOps(i, v);
      PlainsConcat(t, [PageOffset(1)] + read, StoreOps(i, v));
      PutOp(AddCounter(CWrites, 1));
      PlainsConcat(t, [PageOffset(1)] + read + StoreOps(i, v), [AddCounter(CWrites, 1)]);
    }

    /** The branches of an attempt still to be resolved. */
    ghost predicate Pending(slow: nat, slow2: nat, done: nat, at: Option<nat>, at2: nat, end: nat)
      reads this
    {
      && slow <= p && slow2 <= p && done <= p
      && at2 < |text| && slow2 == Place(at2) && end < |text| && done == Place(end)
      && (if at.Some? then 0 < at.value < |text| && slow == Place(at.value) else slow == 0)
    }

    /** The access itself and the jump over its slow path. */
    method PutFast(i: Ir) returns (done: nat)
      requires Valid()
      modifies this, buf
      ensures Valid() && old(p) <= done <= p
      ensures
        var (fast, join) := if i.op.IStore? then StoreFast(i, old(rc)) else LoadFast(i, old(rc));
        && text == old(text) + Plains(fast) + [Jump(0)] && rc == join
        && done == Place(|old(text)| + |fast|)
    {
      assert Shape(rc);
      hide Shape, Plains, Valid, LoadFast, StoreFast, Place;
      if i.op.IStore? {
        PutStore(i);
      } else {
        PutLoad(i);
      }
      done := Fixup(Jump(0));
    }

    /** The fast path of an access, before any of its branches is patched. */
    method PutAccess(i: Ir) returns (slow: nat, slow2: nat, done: nat, atBranch: Cache,
                                     ghost at: Option<nat>, ghost at2: nat, ghost end: nat)
      requires Valid() && |text| > 0
      modifies this, buf
      ensures Valid() && old(p) <= p && Pending(slow, slow2, done, at, at2, end)
      ensures A64(atBranch) && atBranch == MemoryParts(i, old(rc)).2 && rc == MemoryParts(i, old(rc)).3
      ensures at == MemoryBranches(|old(text)|, i, old(rc)).0 && at2 == MemoryBranches(|old(text)|, i, old(rc)).1
      ensures end == MemoryBranches(|old(text)|, i, old(rc)).2 && text == MemoryText(old(text), i, old(rc))
    {
      assert Shape(rc);
      hide Shape, Plains, Valid, LoadFast, StoreFast, Read, AddressOps, PageLookup, Place;
      slow, slow2 := PutAddress(i, i.op.IStore?);
      atBranch := rc;
      done := PutFast(i);
      at, at2, end := MemoryBranches(|old(text)|, i, old(rc)).0, MemoryBranches(|old(text)|, i, old(rc)).1,
        MemoryBranches(|old(text)|, i, old(rc)).2;
    }

    /** Both branches to the slow path resolve to here; `slow` is 0 when there is only
        one, and nothing is written to a buffer without room. */
    method PatchSlow(slow: nat, slow2: nat, ghost at: Option<nat>, ghost at2: nat)
      requires Valid() && slow <= p && slow2 <= p && at2 < |text| && slow2 == Place(at2)
      requires if at.Some? then at.value < |text| && slow == Place(at.value) else slow == 0
      requires at.Some? ==> 0 < at.value
      modifies this`text, buf
      ensures Valid() && p == old(p)
      ensures text == Resolve(if at.Some? then Resolve(old(text), at.value) else old(text), at2)
    {
      if slow != 0 {
        Patch(slow, at.value);
      } else if at.Some? {
        text := Resolve(text, at.value);
      }
      Patch(slow2, at2);
    }

    /** The slow path behind a fast one, with the branches to and around it patched. */
    method PutSlowArm(b: Block, k: nat, atBranch: Cache, slow: nat, slow2: nat, done: nat,
                      ghost at: Option<nat>, ghost at2: nat, ghost end: nat)
      requires Valid() && k < |b.words| && A64(atBranch) && Pending(slow, slow2, done, at, at2, end)
      modifies this, buf
      ensures Valid() && rc == old(rc) && old(p) <= p
      ensures text == SlowArm(old(text), at, at2, end, Flatten(SlowPath(b, k, atBranch, old(rc))))
    {
      assert Shape(rc);
      hide Shape, Valid, SlowPath, Place, Flatten, Resolve;
      PatchSlow(slow, slow2, at, at2);
      PutSlowTail(b, k, atBranch, done, end);
    }

    method PutSlowTail(b: Block, k: nat, atBranch: Cache, done: nat, ghost end: nat)
      requires Valid() && k < |b.words| && A64(atBranch) && done <= p && end < |text| && done == Place(end)
      modifies this, buf
      ensures Valid() && rc == old(rc) && old(p) <= p
      ensures text == Resolve(old(text) + Flatten(SlowPath(b, k, atBranch, old(rc))), end)
    {
      assert Shape(rc);
      hide Shape, Valid, SlowPath, Place, Flatten, Resolve;
      PutSlowPath(b, k, atBranch);
      Patch(done, end);
    }

    method PutMemory(b: Block, k: nat)
      requires Valid() && |text| > 0 && k < |b.words| && |b.ir| == |b.words|
      modifies this, buf
      ensures Valid() && old(p) <= p
      ensures text == old(text) + Flatten(MemoryCode(b, k, old(rc)).0) && rc == MemoryCode(b, k, old(rc)).1
    {
      assert Shape(rc);
      hide Shape, Valid, Pending, SlowPath, SlowArm, Flatten, MemoryParts, MemoryBranches, MemoryText, MemoryCode;
      MemoryLayout(text, b, k, rc);
      var slow, slow2, done, atBranch, at, at2, end := PutAccess(b.ir[k]);
      PutSlowArm(b, k, atBranch, slow, slow2, done, at, at2, end);
    }

    // ------------------------------------------------------------ arithmetic

    method PutOperands(i: Ir) returns (l: HReg, r: HReg)
      requires Valid()
      modifies this, buf
      ensures Valid() && old(p) <= p
      ensures var (ops, l1, r1, rc1) := Operands(old(rc), i);
              l == l1 && r == r1 && rc == rc1 && text == old(text) + Plains(ops)
    {
      assert Shape(rc);
      hide Shape, Plains, Valid, Read;
      ghost var t, lops := text, Read(rc, i.left, 1).0;
      l := ReadReg(i.left, 1);
      assert Shape(rc);
      if ImmediateForm(i) {
        r := ZR;
      } else if i.immediate {
        PutOp(MovImm(2, i.value));
        PlainsConcat(t, lops, [MovImm(2, i.value)]);
        r := 2;
      } else {
        ghost var rops := Read(rc, i.right, 2).0;
        r := ReadReg(i.right, 2);
        PlainsConcat(t, lops, rops);
      }
    }

    method PutTrappingResult(i: Ir)
      requires Valid()
      modifies this, buf
      ensures Valid() && old(p) <= p
      ensures rc == TrappingResult(i, old(rc)).1 && text == old(text) + Plains(TrappingResult(i, old(rc)).0)
    {
      assert Shape(rc);
      hide Shape, Plains, Valid, WriteReg, Written, Move;
      var d := WriteHost(i.dst, 9);
      PlainsNone();
      if i.dst != 0 {
        MoveReg(d, 3);
      }
      assert Shape(rc);
      WriteDone(i.dst, d);
      PlainsConcat(old(text), if i.dst != 0 then Move(d, 3) else [], Written(rc, i.dst, d));
    }

    method PutTrappingHead(i: Ir) returns (overflowed: nat)
      requires Valid()
      modifies this, buf
      ensures Valid() && old(p) <= p && overflowed <= p
      ensures overflowed == Place(|old(text)| + |TrappingHead(i, old(rc)).0|)
      ensures A64(rc) && rc == TrappingHead(i, old(rc)).1
      ensures text == old(text) + Plains(TrappingHead(i, old(rc)).0) + [JumpIf(OnFlags(VS), 0)]
    {
      assert Shape(rc);
      hide Shape, Plains, Valid, Operands;
      ghost var ops := Operands(rc, i).0;
      var l, r := PutOperands(i);
      PutOp(ArithFlags(i.op.ISubOv?, 3, l, r));
      PlainsConcat(old(text), ops, [ArithFlags(i.op.ISubOv?, 3, l, r)]);
      overflowed := Fixup(JumpIf(OnFlags(VS), 0));
    }

    /** Both operands, the flag-setting operation and the fast path, before the overflow
        branch is patched. */
    method PutTrappingFast(i: Ir) returns (overflowed: nat, done: nat, atBranch: Cache, ghost at2: nat, ghost end: nat)
      requires Valid()
      modifies this, buf
      ensures Valid() && old(p) <= p && Pending(0, overflowed, done, None, at2, end)
      ensures A64(atBranch) && atBranch == TrappingParts(i, old(rc)).2 && rc == TrappingParts(i, old(rc)).3
      ensures at2 == TrappingBranches(|old(text)|, i, old(rc)).0 && end == TrappingBranches(|old(text)|, i, old(rc)).1
      ensures text == TrappingText(old(text), i, old(rc))
    {
      assert Shape(rc);
      hide Shape, Plains, Valid, TrappingText, TrappingHead, TrappingResult, TrappingParts, TrappingBranches, Place,
           A64;
      TrappingTextIs(text, i, rc);
      overflowed := PutTrappingHead(i);
      at2 := |text| - 1;
      atBranch := rc;
      PutTrappingResult(i);
      end := |text|;
      done := Fixup(Jump(0));
    }

    method PutTrapping(b: Block, k: nat)
      requires Valid() && k < |b.words| && |b.ir| == |b.words|
      modifies this, buf
      ensures Valid() && old(p) <= p
      ensures text == old(text) + Flatten(TrappingCode(b, k, old(rc)).0) && rc == TrappingCode(b, k, old(rc)).1
    {
      assert Shape(rc);
      hide Shape, Valid, Pending, SlowPath, SlowArm, Flatten, TrappingParts, TrappingBranches, TrappingText,
           TrappingCode;
      TrappingLayout(text, b, k, rc);
      var overflowed, done, atBranch, at2, end := PutTrappingFast(b.ir[k]);
      PutSlowArm(b, k, atBranch, 0, overflowed, done, None, at2, end);
    }

    method PutCompute(i: Ir, d: HReg, l: HReg, r: HReg)
      requires Valid() && IsAlu(i.op)
      modifies this`p, this`overflow, this`text, buf
      ensures Valid() && text == old(text) + Plains(Compute(i, d, l, r)) && old(p) <= p
    {
      hide Shape, Plains, Valid;
      ghost var t := text;
      if i.op.IAdd? {
        if i.immediate {
          AddImm(d, l, i.value);
        } else {
          PutOp(Arith(AluAdd, d, l, r));
        }
      } else if i.op.ISub? {
        PutOp(Arith(AluSub, d, l, r));
      } else if i.op.IAnd? {
        PutOp(Arith(AluAnd, d, l, r));
      } else if i.op.IOr? {
        PutOp(Arith(AluOrr, d, l, r));
      } else if i.op.IXor? {
        PutOp(Arith(AluEor, d, l, r));
      } else if i.op.INor? {
        PutOps([Arith(AluOrr, d, l, r), Mvn(d, d)]);
      } else if i.op.ISlt? || i.op.ISltu? {
        PutOps([ArithFlags(true, ZR, l, r), CSet(d, if i.op.ISlt? then LT else CC)]);
      } else if !i.immediate {
        PutOp(ShiftReg(ShiftKind(i.op), d, l, r));
      } else if i.value % 32 == 0 {
        MoveReg(d, l);
      } else {
        PutOp(ShiftImm(ShiftKind(i.op), d, l, i.value % 32));
      }
    }

    method PutAlu(i: Ir)
      requires Valid() && IsAlu(i.op)
      modifies this, buf
      ensures Valid() && old(p) <= p
      ensures text == old(text) + Plains(AluCode(old(rc), i).0) && rc == AluCode(old(rc), i).1
    {
      PlainsNone();
      if i.dst == 0 {
        return;
      }
      assert Shape(rc);
      hide Shape, Plains, Valid, Operands, WriteReg, Written, Compute;
      ghost var t := text;
      var l, r := PutOperands(i);
      ghost var ops := Operands(old(rc), i).0;
      var d := WriteHost(i.dst, 3);
      PutCompute(i, d, l, r);
      PlainsConcat(t, ops, Compute(i, d, l, r));
      assert Shape(rc);
      WriteDone(i.dst, d);
      PlainsConcat(t, ops + Compute(i, d, l, r), Written(rc, i.dst, d));
    }

    method PutConst(i: Ir)
      requires Valid()
      modifies this, buf
      ensures Valid() && old(p) <= p
      ensures text == old(text) + Plains(ConstCode(old(rc), i).0) && rc == ConstCode(old(rc), i).1
    {
      PlainsNone();
      if i.dst == 0 {
        return;
      }
      assert Shape(rc);
      hide Shape, Plains, Valid, WriteReg, Written;
      ghost var t := text;
      var d := WriteHost(i.dst, 3);
      assert Shape(rc);
      if i.op.IConst? {
        PutOp(MovImm(d, i.value));
      } else {
        PutOp(LdField(d, if i.op.IMfhi? then FHi else FLo));
      }
      WriteDone(i.dst, d);
      PlainsConcat(t, ConstOps(i, d), Written(rc, i.dst, d));
    }

    method PutHiLo(i: Ir)
      requires Valid()
      modifies this, buf
      ensures Valid() && old(p) <= p
      ensures text == old(text) + Plains(HiLoCode(old(rc), i).0) && rc == HiLoCode(old(rc), i).1
    {
      assert Shape(rc);
      hide Shape, Plains, Valid, Read;
      ghost var t, lops := text, Read(rc, i.left, 1).0;
      var l := ReadReg(i.left, 1);
      assert Shape(rc);
      if i.op.IMthi? {
        PutOp(StField(l, FHi));
        PlainsConcat(t, lops, [StField(l, FHi)]);
      } else if i.op.IMtlo? {
        PutOp(StField(l, FLo));
        PlainsConcat(t, lops, [StField(l, FLo)]);
      } else {
        ghost var rops := Read(rc, i.right, 2).0;
        var r := ReadReg(i.right, 2);
        PlainsConcat(t, lops, rops);
        PutOps([Multiply(i.op.IMult?, 3, l, r), StField(3, FLo), HighHalf(3), StField(3, FHi)]);
        PlainsConcat(t, lops + rops, HiLoOps(i, l, r));
      }
    }

    // ------------------------------------------------------------ branches

    method PutBranchOperands(i: Ir) returns (l: HReg, r: HReg)
      requires Valid()
      modifies this, buf
      ensures Valid() && old(p) <= p
      ensures var (ops, l1, r1, rc1) := BranchOperands(old(rc), i);
              l == l1 && r == r1 && rc == rc1 && text == old(text) + Plains(ops)
    {
      assert Shape(rc);
      PlainsNone();
      hide Shape, Plains, Valid, Read;
      ghost var t, lops := text, Read(rc, i.left, 1).0;
      if i.op.IJump? {
        return ZR, ZR;
      }
      l := ReadReg(i.left, 1);
      assert Shape(rc);
      if i.op.IJumpr? {
        return l, ZR;
      }
      ghost var rops := Read(rc, i.right, 2).0;
      r := ReadReg(i.right, 2);
      PlainsConcat(t, lops, rops);
    }

    /** The destination into the branch register. */
    method PutDecide(i: Ir, pc: Word, l: HReg, r: HReg)
      requires Valid()
      modifies this`p, this`overflow, this`text, buf
      ensures Valid() && old(p) <= p && text == old(text) + Plains(DecideOps(i, pc, l, r))
    {
      hide Shape, Plains, Valid, JumpGoes;
      if i.op.IJump? {
        PutOps([MovImm(TARGET, JumpGoes(pc, i.value))]);
      } else if i.op.IJumpr? {
        PutOps([MovReg(TARGET, l)]);
      } else {
        PutOps([ArithFlags(true, ZR, l, r), MovImm(TARGET, Add(pc, 8)), MovImm(3, Add(Add(pc, 4), i.value)),
                CSel(TARGET, 3, TARGET, CondOf(i.op))]);
      }
    }

    method PutBranch(i: Ir, pc: Word)
      requires Valid()
      modifies this, buf
      ensures Valid() && old(p) <= p
      ensures text == old(text) + Plains(BranchCode(old(rc), i, pc).0) && rc == BranchCode(old(rc), i, pc).1
    {
      assert Shape(rc);
      hide Shape, Plains, Valid, BranchOperands, WriteReg, Written, JumpGoes;
      ghost var t, ops := text, BranchOperands(rc, i).0;
      var l, r := PutBranchOperands(i);
      ghost var decide := DecideOps(i, pc, l, r);
      hide DecideOps;
      PutDecide(i, pc, l, r);
      PlainsConcat(t, ops, decide);
      if i.dst != 0 {
        var d := WriteHost(i.dst, 3);
        PutOp(MovImm(d, Add(pc, 8)));
        PlainsConcat(t, ops + decide, [MovImm(d, Add(pc, 8))]);
        assert Shape(rc);
        WriteDone(i.dst, d);
        PlainsConcat(t, ops + decide + [MovImm(d, Add(pc, 8))], Written(rc, i.dst, d));
      }
    }

    // ------------------------------------------------------------ blocks

    method PutInsn(b: Block, k: nat)
      requires Valid() && |text| > 0 && k < |b.words| && |b.ir| == |b.words|
      modifies this, buf
      ensures Valid() && old(p) <= p
      ensures text == old(text) + Flatten(InsnCode(b, k, old(rc)).0) && rc == InsnCode(b, k, old(rc)).1
    {
      hide Shape, Valid, BranchCode, MemoryCode, TrappingCode, Helper, HiLoCode, AluCode, ConstCode;
      var i := b.ir[k];
      if IsBranch(i.op) {
        PutBranch(i, Pc(b, k));
      } else if IsAccess(i.op) {
        PutMemory(b, k);
      } else if i.op.IAddOv? || i.op.ISubOv? {
        PutTrapping(b, k);
      } else if i.op.IExec? {
        PutHelper(b, k);
      } else if i.op.IMult? || i.op.IMultu? || i.op.IMthi? || i.op.IMtlo? {
        PutHiLo(i);
      } else if IsAlu(i.op) {
        PutAlu(i);
      } else {
        PutConst(i);
      }
    }

    method PutBody(b: Block)
      requires Valid() && |text| > 0 && rc == Empty() && |b.ir| == |b.words|
      modifies this, buf
      ensures Valid() && text == old(text) + Flatten(BodyCode(b, 0, Empty()))
    {
      hide Shape, InsnCode;
      ghost var all := text + Flatten(BodyCode(b, 0, rc));
      for k := 0 to |b.words|
        invariant Valid() && |text| > 0
        invariant all == text + Flatten(BodyCode(b, k, rc))
      {
        ghost var (code, rc1) := InsnCode(b, k, rc);
        assert text + Flatten(BodyCode(b, k, rc)) == text + Flatten(code) + Flatten(BodyCode(b, k + 1, rc1));
        PutInsn(b, k);
      }
      WriteBack();
    }

    /** One comparison of the guard: two words, or the last one alone. */
    method PutCompare(b: Block, k: nat)
      requires Valid() && k < |b.words|
      modifies this`p, this`overflow, this`text, buf
      ensures Valid() && text + Flatten(GuardCode(b, AfterCompare(b, k))) == old(text) + Flatten(GuardCode(b, k))
    {
      hide Shape, GuardCode, Plains, Valid, Reverse;
      GuardLayout(b, k);
      if k + 1 < |b.words| {
        PutOp(LdGuest(10, b.guest + 4 * k, 2));
        Put(LeaveIf(Differs(10, Wide(Reverse(b.words[k + 1]), Reverse(b.words[k]))), Stale));
      } else {
        PutOp(LdGuest(10, b.guest + 4 * k, 1));
        Put(LeaveIf(Differs(10, W(Reverse(b.words[k]))), Stale));
      }
    }

    /** The comparison of the compiled words with the live ones. */
    method PutGuard(b: Block)
      requires Valid()
      modifies this`p, this`overflow, this`text, buf
      ensures Valid() && text == old(text) + Flatten(GuardCode(b, 0))
    {
      hide Shape, GuardCode, Valid, Flatten;
      var k := 0;
      while k < |b.words|
        invariant k <= |b.words| && Valid()
        invariant text + Flatten(GuardCode(b, k)) == old(text) + Flatten(GuardCode(b, 0))
      {
        PutCompare(b, k);
        k := AfterCompare(b, k);
      }
      GuardEnds(b);
    }

    method PutClaim(b: Block)
      requires Valid() && 0 < |b.words| <= MAX_INSNS
      modifies this`p, this`overflow, this`text, buf
      ensures Valid() && text == old(text) + Flatten(ClaimCode(b)) && |text| > 0
    {
      hide Shape, Plains, Valid, ClaimCode;
      ClaimLayout(b);
      PutOp(CmpImm(BUDGET, |b.words|));
      Put(LeaveIf(OnFlags(CC), Budget));
      PutOps([SubImm(BUDGET, BUDGET, |b.words|), StLatch(ZR, LInDelay)]);
    }

    method PutPc(b: Block)
      requires Valid()
      modifies this`p, this`overflow, this`text, buf
      ensures Valid() && text == old(text) + Plains(PcOps(b)) && old(p) <= p
    {
      hide Shape, Plains, Valid;
      ghost var t := text;
      if b.branch == 0 {
        ghost var first := [MovImm(9, Pc(b, |b.words|)), StField(9, FPc)];
        PutOps([MovImm(9, Pc(b, |b.words|)), StField(9, FPc)]);
        AddImm(9, 9, 4);
        PlainsConcat(t, first, AddImm32(9, 9, 4));
        PutOp(StField(9, FNextPc));
        PlainsConcat(t, first + AddImm32(9, 9, 4), [StField(9, FNextPc)]);
      } else if b.delay {
        ghost var first := [MovImm(9, 1), StLatch(9, LInDelay), StField(TARGET, FPc)];
        PutOps([MovImm(9, 1), StLatch(9, LInDelay), StField(TARGET, FPc)]);
        AddImm(9, TARGET, 4);
        PlainsConcat(t, first, AddImm32(9, TARGET, 4));
        PutOp(StField(9, FNextPc));
        PlainsConcat(t, first + AddImm32(9, TARGET, 4), [StField(9, FNextPc)]);
      } else {
        PutOps([MovImm(9, 1), StLatch(9, LBranchPending), MovImm(9, Pc(b, |b.words|)), StField(9, FPc),
                StField(TARGET, FNextPc)]);
      }
    }

    /** Counters, the program counter and the way out. */
    method PutTail(b: Block)
      requires Valid() && |b.words| > 0 && |b.ir| == |b.words| && b.branch <= |b.words|
      modifies this`p, this`overflow, this`text, buf
      ensures Valid() && text == old(text) + Flatten(TailCode(b))
    {
      hide Shape, Plains, Valid, PcOps;
      var n := |b.words|;
      ghost var t := text;
      PutOps([MovImm(9, Pc(b, n - 1)), StField(9, FCurPc),
              AddCounter(CInsns, n), AddCounter(CCycles, n), AddCounter(CReads, n)]);
      PutPc(b);
      PlainsConcat(t, CounterOps(b), PcOps(b));
      PutEnd(b);
    }

    method PutEnd(b: Block)
      requires Valid() && |b.words| > 0 && |b.ir| == |b.words| && b.branch <= |b.words|
      modifies this`p, this`overflow, this`text, buf
      ensures Valid() && text == old(text) + Flatten(EndCode(b))
    {
      hide Shape, Plains, Valid;
      var check := NeedsCheck(b);
      if b.branch == 0 {
        Put(Leave(if check then Done else Link(0)));
      } else if !b.delay || check {
        Put(Leave(Done));
      } else {
        var br := b.ir[b.branch - 1];
        if br.op.IJump? {
          Put(Leave(Link(0)));
        } else if br.op.IJumpr? {
          Put(Leave(Search));
        } else {
          var bpc := Pc(b, b.branch - 1);
          PutOps([MovImm(9, Add(Add(bpc, 4), br.value)), ArithFlags(true, ZR, TARGET, 9)]);
          ghost var head := text;
          var notTaken := Fixup(JumpIf(OnFlags(NE), 0));
          Put(Leave(Link(0)));
          PatchAt(head, JumpIf(OnFlags(NE), 0), [Leave(Link(0))], JumpIf(OnFlags(NE), 2));
          Patch(notTaken, |head|);
          Put(Leave(Link(1)));
        }
      }
    }
  }

  /** Emit a block into a buffer of `capacity` instructions: its code, or nothing when the
      buffer is too small. */
  method Emit(b: Block, capacity: nat) returns (code: Option<seq<Insn>>)
    requires NativeBlock.Valid(b)
    ensures
      var text := Flatten(BlockCode(b));
      code == if |text| <= capacity then Some(text) else None
  {
    hide Flatten, GuardCode, ClaimCode, BodyCode, TailCode, Shape;
    var e := new Emitter(capacity);
    e.PutGuard(b);
    e.PutClaim(b);
    e.PutBody(b);
    e.PutTail(b);
    assert e.text == Flatten(BlockCode(b)) by {
      BlockLayout(b);
    }
    if e.overflow {
      return None;
    }
    return Some(e.buf[..e.p]);
  }

  lemma BlockLayout(b: Block)
    requires 0 < |b.words| <= MAX_INSNS && |b.ir| == |b.words| && b.branch <= |b.words|
    ensures Flatten(BlockCode(b)) ==
            [] + Flatten(GuardCode(b, 0)) + Flatten(ClaimCode(b)) + Flatten(BodyCode(b, 0, Empty()))
            + Flatten(TailCode(b))
  {
    hide GuardCode, ClaimCode, BodyCode, TailCode;
  }
}
