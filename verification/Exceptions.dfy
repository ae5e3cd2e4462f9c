/** How a step that does not complete enters its handler (src/cpu/mips/r3900.c), told from
    the machine before the step and the machine after it. */
module Exceptions {
  import opened Words
  import opened Wrappers
  import opened Bits
  import opened BusMap
  import opened Mips

  // ------------------------------------------------------------ when an interrupt comes

  predicate Both(a: nat, b: nat, k: nat) {
    Bit(a, k) == 1 && Bit(b, k) == 1
  }

  lemma {:induction false} CommonBit(a: nat, b: nat)
    ensures Bitwise(BitAnd, a, b) != 0 <==> exists k: nat :: Both(a, b, k)
    decreases a + b
  {
    if a == 0 && b == 0 {
      forall k: nat
        ensures !Both(0, 0, k)
      {
        NoBit(k);
      }
    } else {
      CommonBit(a / 2, b / 2);
      if Both(a, b, 0) {
        assert OneBit(BitAnd, a % 2, b % 2) == 1;
      } else if exists k: nat :: Both(a / 2, b / 2, k) {
        var k: nat :| Both(a / 2, b / 2, k);
        assert Both(a, b, k + 1);
      } else {
        forall k: nat
          ensures !Both(a, b, k)
        {
          if k > 0 {
            assert !Both(a / 2, b / 2, k - 1);
          }
        }
      }
    }
  }

  lemma OverTwo(x: nat, k: nat)
    ensures Bit(x / 4, k) == Bit(x, k + 2)
  {
    assert x / 2 / 2 == x / 4;
    assert Bit(x, k + 2) == Bit(x / 2, k + 1) == Bit(x / 2 / 2, k);
  }

  lemma OverByte(x: nat, k: nat)
    ensures Bit(x / 0x100, k) == Bit(x, k + 8)
  {
    OverTwo(x, k + 6);
    OverTwo(x / 4, k + 4);
    OverTwo(x / 4 / 4, k + 2);
    OverTwo(x / 4 / 4 / 4, k);
    assert x / 4 / 4 == x / 16 && x / 16 / 4 == x / 64 && x / 64 / 4 == x / 0x100;
  }

  /** Interrupt `k` is asked for: 0 and 1 by software in Cause, the others by their line. */
  predicate Asked(c: Cpu, k: nat) {
    k < 8 && (if k < 2 then Bit(c.sys.cp0.cause, 8 + k) == 1 else Bit(c.sys.irqLines, k) == 1)
  }

  predicate Enabled(c: Cpu, k: nat) {
    k < 8 && Bit(c.sys.cp0.status, 8 + k) == 1
  }

  lemma ShownByte(cause: Word, lines: Byte)
    ensures (CauseWithLines(cause, lines) / 0x100) % 0x100 == (cause / 0x100) % 4 + 4 * (lines / 4)
  {
    var q: int := cause / 0x100;
    assert cause / 0x400 == q / 4;
    assert cause == 0x100 * q + cause % 0x100;
    var shown := CauseWithLines(cause, lines);
    assert shown == 0x100 * (q - 4 * ((q / 4) % 64) + 4 * (lines / 4)) + cause % 0x100;
    OverByteIs(shown, q - 4 * ((q / 4) % 64) + 4 * (lines / 4), cause % 0x100);
    ByteOfSum(q, lines / 4);
  }

  lemma OverByteIs(x: int, q: int, m: int)
    requires x == 0x100 * q + m && 0 <= m < 0x100
    ensures x / 0x100 == q
  {
  }

  lemma ByteOfSum(q: int, b: int)
    requires 0 <= b < 64
    ensures (q - 4 * ((q / 4) % 64) + 4 * b) % 0x100 == q % 4 + 4 * b
  {
    assert q == 4 * (q / 4) + q % 4;
    assert q / 4 == 64 * (q / 4 / 64) + (q / 4) % 64;
    ModUnique(q - 4 * ((q / 4) % 64) + 4 * b, 0x100, q / 4 / 64, q % 4 + 4 * b);
  }

  lemma ShownBit(c: Cpu, k: nat)
    ensures Bit((CauseWithLines(c.sys.cp0.cause, c.sys.irqLines) / 0x100) % 0x100, k) == 1 <==> Asked(c, k)
  {
    var cause, lines := c.sys.cp0.cause, c.sys.irqLines;
    var low := (cause / 0x100) % 4;
    var shown: nat := low + 4 * (lines / 4);
    ShownByte(cause, lines);
    hide CauseWithLines;
    if k < 2 {
      OverByte(cause, k);
      PairBit(cause / 0x100, shown, k);
    } else {
      OverTwo(shown, k - 2);
      OverTwo(lines, k - 2);
      assert shown / 4 == lines / 4;
      if k >= 8 {
        HighBit(lines, k);
      }
    }
  }

  lemma LowPair(x: nat)
    ensures x % 2 == x % 4 % 2 && (x / 2) % 2 == x % 4 / 2
  {
    var q, m := x / 4, x % 4;
    assert x == 4 * q + m;
    assert x / 2 == 2 * q + m / 2;
  }

  lemma PairBit(x: nat, y: nat, k: nat)
    requires x % 4 == y % 4 && k < 2
    ensures Bit(x, k) == Bit(y, k)
  {
    LowPair(x);
    LowPair(y);
    if k == 1 {
      assert Bit(x, 1) == Bit(x / 2, 0) && Bit(y, 1) == Bit(y / 2, 0);
    }
  }

  lemma HighBit(lines: Byte, k: nat)
    requires k >= 8
    ensures Bit(lines, k) == 0
  {
    OverByte(lines, k - 8);
    NoBit(k - 8);
  }

  lemma MaskBit(status: Word, k: nat)
    ensures Bit((status / 0x100) % 0x100, k) == if k < 8 then Bit(status, 8 + k) else 0
  {
    assert Pow2(4) == 16;
    assert Pow2(8) == 0x100;
    LowBits(status / 0x100, 8, k);
    OverByte(status, k);
  }

  /** The lines show in bits 10 to 15 of Cause, and the other bits stay. */
  lemma LinesShow(cause: Word, lines: Byte, k: nat)
    requires k < 32
    ensures Bit(CauseWithLines(cause, lines), k) == if 10 <= k < 16 then Bit(lines, k - 8) else Bit(cause, k)
  {
    var high, mid, low := cause / 0x1_0000, lines / 4, cause % 0x400;
    var shown := CauseWithLines(cause, lines);
    CauseParts(cause);
    assert shown == 0x1_0000 * high + 0x400 * mid + low;
    assert cause == 0x1_0000 * high + 0x400 * ((cause / 0x400) % 64) + low;
    hide CauseWithLines;
    if k < 10 {
      LowTen(shown, 64 * high + mid, low, k);
      LowTen(cause, 64 * high + (cause / 0x400) % 64, low, k);
    } else if k < 16 {
      OverTwo(lines, k - 10);
      OverTen(shown, 64 * high + mid, low, k - 10);
      LowSix(64 * high + mid, high, mid, k - 10);
    } else {
      OverTen(shown, 64 * high + mid, low, k - 10);
      OverTen(cause, 64 * high + (cause / 0x400) % 64, low, k - 10);
      OverSix(64 * high + mid, high, mid, k - 16);
      OverSix(64 * high + (cause / 0x400) % 64, high, (cause / 0x400) % 64, k - 16);
    }
  }

  lemma CauseParts(cause: Word)
    ensures cause == 0x1_0000 * (cause / 0x1_0000) + 0x400 * ((cause / 0x400) % 64) + cause % 0x400
  {
    assert cause / 0x400 / 64 == cause / 0x1_0000;
  }

  lemma LowTen(x: nat, q: nat, low: nat, k: nat)
    requires x == 0x400 * q + low && low < 0x400 && k < 10
    ensures Bit(x, k) == Bit(low, k)
  {
    assert Pow2(5) == 32;
    assert Pow2(10) == 0x400;
    assert x % 0x400 == low;
    LowBits(x, 10, k);
  }

  lemma OverTen(x: nat, q: nat, low: nat, k: nat)
    requires x == 0x400 * q + low && low < 0x400
    ensures Bit(x, k + 10) == Bit(q, k)
  {
    OverByte(x, k + 2);
    OverTwo(x / 0x100, k);
    assert x / 0x100 / 4 == q;
  }

  lemma LowSix(x: nat, q: nat, low: nat, k: nat)
    requires x == 64 * q + low && low < 64 && k < 6
    ensures Bit(x, k) == Bit(low, k)
  {
    assert Pow2(3) == 8;
    assert Pow2(6) == 64;
    assert x % 64 == low;
    LowBits(x, 6, k);
  }

  lemma OverSix(x: nat, q: nat, low: nat, k: nat)
    requires x == 64 * q + low && low < 64
    ensures Bit(x, k + 6) == Bit(q, k)
  {
    OverTwo(x, k + 4);
    OverTwo(x / 4, k + 2);
    OverTwo(x / 4 / 4, k);
    assert x / 4 / 4 == x / 16 && x / 16 / 4 == q;
  }

  /** A step is replaced by an interrupt exactly when interrupts are on and one is both asked
      for and enabled. */
  lemma InterruptExact(c: Cpu)
    ensures Sampled(c).0 <==> c.sys.cp0.status % 2 == 1 && exists k: nat :: Asked(c, k) && Enabled(c, k)
  {
    var shown := (CauseWithLines(c.sys.cp0.cause, c.sys.irqLines) / 0x100) % 0x100;
    var im := (c.sys.cp0.status / 0x100) % 0x100;
    CommonBit(shown, im);
    forall k: nat
      ensures Bit(shown, k) == 1 <==> Asked(c, k)
      ensures Bit(im, k) == 1 <==> Enabled(c, k)
    {
      ShownBit(c, k);
      MaskBit(c.sys.cp0.status, k);
    }
    hide Bit, Bitwise, CauseWithLines, Asked, Enabled;
    assert forall k: nat :: Both(shown, im, k) <==> Asked(c, k) && Enabled(c, k);
    assert Sampled(c).0 <==> c.sys.cp0.status % 2 == 1 && Bitwise(BitAnd, shown, im) != 0;
  }

  // ------------------------------------------------------------ entering a handler

  /** `after` stands at the handler of exception `code`, with everything kept that the handler
      needs to resume `before`: EPC names the instruction that did not complete, or the
      branch whose delay slot it was in. */
  predicate Entered(before: Cpu, after: Cpu, code: nat, refill: bool) {
    var sr, sr', cause' := before.sys.cp0.status, after.sys.cp0.status, after.sys.cp0.cause;
    && (if before.branchPending then Add(after.sys.cp0.epc, 4) == before.pc else after.sys.cp0.epc == before.pc)
    && (cause' >= 0x8000_0000 <==> before.branchPending) && (cause' / 4) % 32 == code
    && after.pc == (if Bit(sr, 22) == 1 then (if refill then 0xBFC0_0100 else 0xBFC0_0180)
                    else if refill then 0x8000_0000 else 0x8000_0080)
    && after.nextPc == after.pc + 4 && !after.branchPending
    && sr' / 64 == sr / 64 && sr' % 64 == 4 * (sr % 16)
    && after.sys.excCount == before.sys.excCount + 1
  }

  /** All that entering a handler changes in CP0 and beside it: the other bits of Status and
      Cause, and every other register, stay. */
  predicate KeepsRest(was: Sys, now: Sys, badVaddr: Option<Word>) {
    && now.cp0.cause % 4 == was.cp0.cause % 4
    && (now.cp0.cause % 0x8000_0000) / 0x80 == (was.cp0.cause % 0x8000_0000) / 0x80
    && now.cp0.badVaddr == (if badVaddr.Some? then badVaddr.value else was.cp0.badVaddr)
    && now == was.(cp0 := was.cp0.(epc := now.cp0.epc, cause := now.cp0.cause, status := now.cp0.status,
                                   badVaddr := now.cp0.badVaddr),
                   excCount := now.excCount)
  }

  /** A handler is entered in kernel mode with interrupts off. */
  lemma HandlerMode(before: Cpu, after: Cpu, code: nat, refill: bool)
    requires Entered(before, after, code, refill)
    ensures KernelBit(after.sys.cp0.status) && Bit(after.sys.cp0.status, 0) == 0 && Bit(after.sys.cp0.status, 1) == 0
    ensures !Sampled(after).0
  {
    var sr, sr' := before.sys.cp0.status, after.sys.cp0.status;
    assert sr' == 64 * (sr / 64) + 4 * (sr % 16);
    KernelIs(sr');
    LowPair(sr');
    InterruptExact(after);
    hide Sampled, Asked, Enabled;
  }

  lemma KernelIs(status: Word)
    ensures KernelBit(status) <==> Bit(status, 1) == 0
  {
    assert Bit(status, 1) == Bit(status / 2, 0);
  }

  /** The segment map: user mode reaches no kernel address, the two unmapped segments show
      the low 512 MiB, and everything else needs the TLB if there is one. */
  lemma SegmentsMean(sys: Sys, va: Word)
    ensures sys.hasMmu && Bit(sys.cp0.status, 1) == 1 && va >= 0x8000_0000 ==> Physical(sys, va).None?
    ensures sys.hasMmu && !(0x8000_0000 <= va < 0xC000_0000) ==> Physical(sys, va).None?
    ensures !sys.hasMmu && !(0x8000_0000 <= va < 0xC000_0000) ==> Physical(sys, va) == Some(va)
    ensures (sys.hasMmu ==> Bit(sys.cp0.status, 1) == 0) && 0x8000_0000 <= va < 0xC000_0000 ==>
              exists k :: 4 <= k < 6 && Physical(sys, va) == Some(va - k * 0x2000_0000)
                          && Physical(sys, va).value < 0x2000_0000
  {
    KernelIs(sys.cp0.status);
    if (sys.hasMmu ==> Bit(sys.cp0.status, 1) == 0) && 0x8000_0000 <= va < 0xC000_0000 {
      var k := if va < 0xA000_0000 then 4 else 5;
      assert va % 0x2000_0000 == va - k * 0x2000_0000 by {
        ModUnique(va, 0x2000_0000, k, va - k * 0x2000_0000);
      }
      assert Physical(sys, va) == Some(va - k * 0x2000_0000);
    }
  }

  /** The registers and memory are as they were. */
  predicate Untouched(before: Cpu, after: Cpu) {
    after.r == before.r && after.hi == before.hi && after.lo == before.lo && after.mem == before.mem
  }

  lemma EpcFields(c: Cpu, e: Exception)
    ensures
      var cp0 := Raise(c, e).sys.cp0;
      if c.inDelay then Add(cp0.epc, 4) == c.curPc else cp0.epc == c.curPc
  {
  }

  lemma CauseFields(cause: Word, bd: Word, code: nat)
    requires (bd == 0 || bd == 0x8000_0000) && code < 32
    ensures
      var c1: Word := bd + cause % 0x8000_0000;
      var c2: Word := c1 - ((c1 / 4) % 32) * 4 + (code % 32) * 4;
      && (c2 >= 0x8000_0000 <==> bd != 0) && (c2 / 4) % 32 == code
  {
    var c1: Word := bd + cause % 0x8000_0000;
    var q, m := c1 / 128, c1 % 4;
    assert c1 == 128 * q + 4 * ((c1 / 4) % 32) + m by { ThreeFields(c1); }
    assert c1 >= 0x8000_0000 <==> q >= 0x100_0000;
    PutTogether(q, code, m);
  }

  lemma CauseKeeps(cause: Word, bd: Word, code: nat)
    requires (bd == 0 || bd == 0x8000_0000) && code < 32
    ensures
      var c1: Word := bd + cause % 0x8000_0000;
      var c2: Word := c1 - ((c1 / 4) % 32) * 4 + (code % 32) * 4;
      c2 % 4 == cause % 4 && (c2 % 0x8000_0000) / 0x80 == (cause % 0x8000_0000) / 0x80
  {
    var low: int := cause % 0x8000_0000;
    var c1: Word := bd + low;
    ThreeFields(c1);
    var q, m := c1 / 128, c1 % 4;
    var c2 := 128 * q + 4 * code + m;
    assert c2 == c1 - ((c1 / 4) % 32) * 4 + (code % 32) * 4;
    assert q == bd / 128 + low / 128;
    ModUnique(c2, 0x8000_0000, bd / 0x8000_0000, 128 * (low / 128) + 4 * code + m);
  }

  lemma ThreeFields(x: nat)
    ensures x == 128 * (x / 128) + 4 * ((x / 4) % 32) + x % 4
  {
    assert x / 4 / 32 == x / 128;
  }

  lemma PutTogether(q: nat, code: nat, m: nat)
    requires code < 32 && m < 4
    ensures
      var x := 128 * q + 4 * code + m;
      (x / 4) % 32 == code && (x >= 0x8000_0000 <==> q >= 0x100_0000)
  {
    var x := 128 * q + 4 * code + m;
    assert x / 4 == 32 * q + code;
  }

  lemma StatusFields(sr: Word)
    ensures
      var sr': Word := sr - sr % 64 + (sr % 16) * 4;
      sr' / 64 == sr / 64 && sr' % 64 == 4 * (sr % 16)
  {
    var sr': Word := sr - sr % 64 + (sr % 16) * 4;
    assert sr == 64 * (sr / 64) + sr % 64;
    assert sr' == 64 * (sr / 64) + 4 * (sr % 16);
  }

  lemma BootBit(sr: Word)
    ensures Bit(sr, 22) == (sr / 0x40_0000) % 2
  {
    OverByte(sr, 14);
    OverByte(sr / 0x100, 6);
    OverTwo(sr / 0x100 / 0x100, 4);
    OverTwo(sr / 0x100 / 0x100 / 4, 2);
    OverTwo(sr / 0x100 / 0x100 / 4 / 4, 0);
    assert sr / 0x100 / 0x100 == sr / 0x1_0000 && sr / 0x1_0000 / 4 == sr / 0x4_0000;
    assert sr / 0x4_0000 / 4 == sr / 0x10_0000 && sr / 0x10_0000 / 4 == sr / 0x40_0000;
  }

  /** Raising with the pipeline registers of the step from `before`. */
  lemma RaiseEnters(before: Cpu, c: Cpu, e: Exception)
    requires c.curPc == before.pc && c.inDelay == before.branchPending && e.code < 32
    requires c.sys.cp0.status == before.sys.cp0.status && c.sys.excCount == before.sys.excCount
    ensures Entered(before, Raise(c, e), e.code, e.refill) && Untouched(c, Raise(c, e))
    ensures KeepsRest(c.sys, Raise(c, e).sys, e.badVaddr)
  {
    EpcFields(c, e);
    CauseFields(c.sys.cp0.cause, if c.inDelay then 0x8000_0000 else 0, e.code);
    CauseKeeps(c.sys.cp0.cause, if c.inDelay then 0x8000_0000 else 0, e.code);
    StatusFields(c.sys.cp0.status);
    BootBit(c.sys.cp0.status);
    hide Bit, Add;
  }

  lemma SampledFields(c: Cpu)
    requires !Sampled(c).0
    ensures
      var c1 := Sampled(c).1;
      && c1.curPc == c.pc && c1.inDelay == c.branchPending && c1.pc == c.pc && c1.nextPc == c.nextPc
      && c1.branchPending == c.branchPending && Untouched(c, c1)
      && c1.sys.cp0.status == c.sys.cp0.status && c1.sys.excCount == c.sys.excCount
  {
    hide And, Or, CauseWithLines;
  }

  /** A step that an interrupt replaces enters its handler and completes nothing. */
  lemma InterruptEnters(env: Env, m: Machine)
    requires !m.c.sys.halted && !m.c.sys.powerStopped && Sampled(m.c).0
    ensures
      var m' := Step(env, m);
      && Entered(m.c, m'.c, 0, false) && Untouched(m.c, m'.c)
      && m'.c.sys.irqsTaken == m.c.sys.irqsTaken + 1 && m'.c.insns == m.c.insns && m'.busReads == m.busReads
  {
    var c := m.c.(curPc := m.c.pc, inDelay := m.c.branchPending);
    var cause := CauseWithLines(c.sys.cp0.cause, c.sys.irqLines);
    var im := (c.sys.cp0.status / 0x100) % 0x100;
    var c1 := c.(sys := c.sys.(cp0 := c.sys.cp0.(cause := cause), imEver := Or(c.sys.imEver, im)));
    var c2 := c1.(sys := c1.sys.(irqsTaken := c1.sys.irqsTaken + 1));
    hide And, Or, CauseWithLines, Entered;
    RaiseEnters(m.c, c2, Exception(EXC_INT, None, false));
  }

  /** A fetch from a misaligned address enters the address-error handler. */
  lemma MisalignedEnters(env: Env, m: Machine)
    requires !m.c.sys.halted && !m.c.sys.powerStopped && !Sampled(m.c).0 && m.c.pc % 4 != 0
    ensures
      var m' := Step(env, m);
      && Entered(m.c, m'.c, 4, false) && Untouched(m.c, m'.c)
      && m'.c.sys.cp0.badVaddr == m.c.pc && m'.busReads == m.busReads
  {
    SampledFields(m.c);
    hide Sampled, Entered, Raise;
    RaiseEnters(m.c, Sampled(m.c).1, Exception(EXC_ADEL, Some(m.c.pc), false));
  }

  /** The word is an addition or subtraction whose exact result is no signed word. */
  predicate Overflowing(w: Word, r: Regs) {
    var s, t := Signed(r[Rs(w)]), Signed(r[Rt(w)]);
    || (w / 0x400_0000 == 0 && w % 64 == 0x20 && !(-0x8000_0000 <= s + t < 0x8000_0000))
    || (w / 0x400_0000 == 0 && w % 64 == 0x22 && !(-0x8000_0000 <= s - t < 0x8000_0000))
    || (w / 0x400_0000 == 8 && !(-0x8000_0000 <= s + Signed(Simm(w)) < 0x8000_0000))
  }

  lemma OverflowTests(s: Word, t: Word)
    ensures AddOverflows(s, t) <==> !(-0x8000_0000 <= Signed(s) + Signed(t) < 0x8000_0000)
    ensures SubOverflows(s, t) <==> !(-0x8000_0000 <= Signed(s) - Signed(t) < 0x8000_0000)
  {
  }

  lemma OverflowRaises(env: Env, w: Word, c: Cpu)
    requires Overflowing(w, c.r)
    ensures Exec(env, w, c) == Effect(Raise(c, Exception(EXC_OV, None, false)), 0, 0)
  {
    OverflowTests(c.r[Rs(w)], c.r[Rt(w)]);
    OverflowTests(c.r[Rs(w)], Simm(w));
    hide Raise, RunOther, Load, Store, AddOverflows, SubOverflows, Signed, Simm, Add, Sub, And, Or, Xor, Product,
         BranchRel, JumpTarget, ShiftLeft, ShiftRight, ShiftArith, ExecRegimm;
  }

  /** An overflowing instruction enters the overflow handler and writes no register. */
  lemma OverflowEnters(env: Env, m: Machine, w: Word)
    requires !m.c.sys.halted && !m.c.sys.powerStopped && !Sampled(m.c).0 && m.c.pc % 4 == 0
    requires Fetch(Sampled(m.c).1, m.c.pc) == Some(w) && Overflowing(w, m.c.r) && m.c.r[0] == 0
    ensures
      var m' := Step(env, m);
      Entered(m.c, m'.c, 12, false) && Untouched(m.c, m'.c)
  {
    SampledFields(m.c);
    var c1 := Sampled(m.c).1;
    OverflowRaises(env, w, Advance(c1));
    hide Sampled, Entered, Raise, Exec, Fetch, Overflowing;
    RaiseEnters(m.c, Advance(c1), Exception(EXC_OV, None, false));
    RaiseIgnoresCounters(m.c, Raise(Advance(c1), Exception(EXC_OV, None, false)));
  }

  lemma RaiseIgnoresCounters(before: Cpu, c: Cpu)
    requires Entered(before, c, 12, false) && c.r[0] == 0
    ensures Entered(before, Complete(c), 12, false) && Complete(c).r == c.r
  {
    hide Bit;
  }

  // ------------------------------------------------------------ standing still

  /** A halted machine stands still; one whose power was stopped lets only time pass. */
  lemma {:induction false} StandsStill(env: Env, m: Machine, n: nat)
    requires m.c.sys.halted || m.c.sys.powerStopped
    ensures
      var t := if m.c.sys.halted then 0 else n;
      Steps(env, m, n) == m.(c := m.c.(insns := m.c.insns + t, cycles := m.c.cycles + t))
    decreases n
  {
    hide Sampled, Retire, OddStep;
    if n > 0 {
      StandsStill(env, Step(env, m), n - 1);
    }
  }
}
