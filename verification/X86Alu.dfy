/** Register arithmetic of the x86-64 back end: two-operand instructions with aliasing, and
    the one entry whose emitted code is not its meaning, with the exact condition. */
module X86Alu {
  import opened Words
  import opened Mips
  import opened MipsIr
  import opened HostCode
  import opened RegCache
  import opened A64Code
  import opened A64Proof
  import opened X86Code

  // ------------------------------------------------------------ operands

  lemma ZeroFlags()
    ensures XFlags(AluEor, 0, 0) == Flags(false, true, true, false)
  {
  }

  /** After a constant: the register has it, and the flags are those of a zero result if
      the constant is zero. */
  lemma ConstantApplies(env: Env, d: HReg, v: Word, h: Host)
    requires d != ZR
    ensures
      ApplyAll(env, MovI(d, v), h)
      == h.(x := h.x[d := W(v)], flags := if v == 0 then Flags(false, true, true, false) else h.flags)
  {
    ZeroFlags();
    hide XFlags;
    Apply1(env, MovI(d, v)[0], h);
  }

  predicate Scratch(j: HReg) {
    j == RAX || j == RCX || j == RDX
  }

  lemma ZeroReads(env: Env, rc: Cache, scratch: HReg, h: Host, r: Regs)
    requires X86(rc) && Ok(rc) && Represents(rc, h.x, h.m.c.r, r) && Scratch(scratch)
    ensures
      var h1 := ApplyAll(env, MovI(scratch, 0), h);
      && Get(h1, scratch) == 0 && Represents(rc, h1.x, h1.m.c.r, r) && Scratched(h, h1)
      && OnlyLoaded(rc, h.x, h1.x, scratch)
  {
    hide Ok, Represents, ApplyAll;
    ConstantApplies(env, scratch, 0, h);
    RepresentsFrame(rc, h.x, h.x[scratch := W(0)], h.m.c.r, r);
    HostsCached(rc);
  }

  lemma HostsCached(rc: Cache)
    requires X86(rc) && Ok(rc)
    ensures forall k :: 0 <= k < 32 && rc.host[k] != -1 ==> 6 <= rc.host[k] <= 11
  {
    forall k | 0 <= k < 32 && rc.host[k] != -1
      ensures 6 <= rc.host[k] <= 11
    {
      assert rc.host[k] in rc.regs;
    }
  }

  predicate XHost(j: HReg, scratch: HReg) {
    j == scratch || 6 <= j <= 11
  }

  lemma XOneRead(env: Env, rc: Cache, g: Reg, scratch: HReg, h: Host, r: Regs)
    requires X86(rc) && Ok(rc) && Represents(rc, h.x, h.m.c.r, r) && Scratch(scratch)
    ensures
      var (ops, a, rc1) := XRead(rc, g, scratch);
      var h1 := ApplyAll(env, ops, h);
      && Get(h1, a) == r[g] && Ok(rc1) && Represents(rc1, h1.x, h1.m.c.r, r) && Scratched(h, h1)
      && XHost(a, scratch) && OnlyLoaded(rc, h.x, h1.x, scratch)
  {
    hide Ok, Represents, ApplyAll, OnlyLoaded, MovI;
    if g == 0 {
      ZeroReads(env, rc, scratch, h, r);
      assert r[0] == 0 by { ZeroIsZero(rc, h.x, h.m.c.r, r); }
    } else {
      ReadRefines(env, rc, g, scratch, h, r);
      ReadOk(rc, g, scratch);
      var (_, a, rc1) := Read(rc, g, scratch);
      HostsCached(rc1);
      LoadedElsewhere(rc, h.x, ApplyAll(env, Read(rc, g, scratch).0, h).x, scratch);
    }
  }

  lemma LoadedElsewhere(rc: Cache, x: Vals, x1: Vals, scratch: HReg)
    requires X86(rc) && OnlyLoaded(rc, x, x1, scratch) && Scratch(scratch)
    ensures x1[TARGET] == x[TARGET] && x1[BUDGET] == x[BUDGET]
    ensures forall j :: 0 <= j < 3 && j != scratch ==> x1[j] == x[j]
  {
  }

  lemma ZeroIsZero(rc: Cache, x: Vals, image: Regs, r: Regs)
    requires Represents(rc, x, image, r)
    ensures r[0] == 0
  {
  }

  /** A first operand in eax or a cache register survives the second read. */
  lemma XSurvives(rc: Cache, g: Reg, x1: Vals, x2: Vals, scratch: HReg)
    requires X86(rc) && Ok(rc) && (scratch == RCX || scratch == RDX)
    requires OnlyLoaded(XRead(rc, g, RAX).2, x1, x2, scratch)
    ensures x2[XRead(rc, g, RAX).1] == x1[XRead(rc, g, RAX).1]
  {
    hide Ok;
    if g != 0 {
      ReadOk(rc, g, RAX);
    }
  }

  lemma XOperandsRefine(env: Env, rc: Cache, i: Ir, scratch: HReg, h: Host, r: Regs)
    requires X86(rc) && Ok(rc) && Represents(rc, h.x, h.m.c.r, r) && (scratch == RCX || scratch == RDX)
    ensures
      var (ops, l, rr, rc1) := XOperands(rc, i, scratch);
      var h1 := ApplyAll(env, ops, h);
      && Get(h1, l) == r[i.left] && (!i.immediate ==> Get(h1, rr) == r[i.right])
      && Ok(rc1) && Represents(rc1, h1.x, h1.m.c.r, r) && Scratched(h, h1)
      && XHost(l, RAX) && XHost(rr, scratch)
  {
    hide Ok, Represents, ApplyAll, OnlyLoaded, XRead;
    XOneRead(env, rc, i.left, RAX, h, r);
    if !i.immediate {
      XBothReads(env, rc, i.left, i.right, scratch, h, r);
    }
  }

  lemma XBothReads(env: Env, rc: Cache, a: Reg, b: Reg, scratch: HReg, h: Host, r: Regs)
    requires X86(rc) && Ok(rc) && Represents(rc, h.x, h.m.c.r, r) && (scratch == RCX || scratch == RDX)
    ensures
      var (aops, ah, rc1) := XRead(rc, a, RAX);
      var (bops, bh, rc2) := XRead(rc1, b, scratch);
      var h2 := ApplyAll(env, aops + bops, h);
      && Get(h2, ah) == r[a] && Get(h2, bh) == r[b]
      && Ok(rc2) && Represents(rc2, h2.x, h2.m.c.r, r) && Scratched(h, h2)
      && XHost(ah, RAX) && XHost(bh, scratch)
  {
    hide Ok, Represents, ApplyAll, OnlyLoaded, XRead;
    XOneRead(env, rc, a, RAX, h, r);
    var (aops, ah, rc1) := XRead(rc, a, RAX);
    var (bops, bh, rc2) := XRead(rc1, b, scratch);
    var h1 := ApplyAll(env, aops, h);
    XOneRead(env, rc1, b, scratch, h1, r);
    ApplyConcat(env, aops, bops, h);
    XSurvives(rc, a, h1.x, ApplyAll(env, bops, h1).x, scratch);
  }

  // ------------------------------------------------------------ results

  /** `h1` is `h` with register `d` and scratch registers changed. */
  predicate XComputed(h: Host, h1: Host, d: HReg, v: Word) {
    && h1 == h.(x := h1.x, flags := h1.flags)
    && d != ZR && Low(h1.x[d]) == v
    && forall j :: 3 <= j < 32 && j != d ==> h1.x[j] == h.x[j]
  }

  lemma WriteHostX(rc: Cache, g: Reg, scratch: HReg)
    requires X86(rc) && Ok(rc) && Scratch(scratch)
    ensures XHost(WriteReg(rc, g, scratch).0, scratch)
    ensures X86(WriteReg(rc, g, scratch).1) && Ok(WriteReg(rc, g, scratch).1)
  {
    WriteRegOk(rc, g, scratch);
  }

  lemma ComputedOnly(rc: Cache, h: Host, h1: Host, d: HReg, v: Word, scratch: HReg)
    requires X86(rc) && XComputed(h, h1, d, v) && XHost(d, scratch) && Scratch(scratch)
    ensures OnlyHost(rc, h, h1, d) && Get(h1, d) == v && h1 == h.(x := h1.x, flags := h1.flags)
    ensures h1.x[TARGET] == h.x[TARGET] && h1.x[BUDGET] == h.x[BUDGET]
  {
  }

  lemma XWriteSettles(env: Env, rc: Cache, g: Reg, scratch: HReg, h: Host, ops: seq<HOp>, v: Word, r: Regs)
    requires X86(rc) && Ok(rc) && Represents(rc, h.x, h.m.c.r, r) && Scratch(scratch)
    requires XComputed(h, ApplyAll(env, ops, h), WriteReg(rc, g, scratch).0, v)
    ensures
      var (d, rc1) := WriteReg(rc, g, scratch);
      Settles(rc1, h, ApplyAll(env, ops + Written(rc1, g, d), h), SetReg(r, g, v))
  {
    WriteHostX(rc, g, scratch);
    hide Ok, Represents, ApplyAll, WriteReg, Written, XComputed, OnlyHost;
    var (d, rc1) := WriteReg(rc, g, scratch);
    var h1 := ApplyAll(env, ops, h);
    ComputedOnly(rc, h, h1, d, v, scratch);
    WriteRefines(env, rc, g, scratch, h, h1, v, r);
    ApplyConcat(env, ops, Written(rc1, g, d), h);
  }

  lemma {:induction false} BitwiseCommutes(op: BitOp, a: nat, b: nat)
    ensures Bitwise(op, a, b) == Bitwise(op, b, a)
    decreases a + b
  {
    if a > 0 || b > 0 {
      BitwiseCommutes(op, a / 2, b / 2);
    }
  }

  lemma AluCommutes(op: Alu, a: Word, b: Word)
    requires !op.AluSub?
    ensures AluOf(op, a, b) == AluOf(op, b, a)
  {
    BitwiseCommutes(BitAnd, a, b);
    BitwiseCommutes(BitOr, a, b);
    BitwiseCommutes(BitXor, a, b);
  }

  /** Two-operand arithmetic computes the three-operand result under every aliasing. */
  lemma Alu3Computes(env: Env, op: Alu, d: HReg, l: HReg, r: HReg, h: Host)
    requires XHost(d, RAX) && XHost(l, RAX) && XHost(r, RDX)
    ensures XComputed(h, ApplyAll(env, Alu3(op, d, l, r), h), d, AluOf(op, Get(h, l), Get(h, r)))
  {
    hide AluOf, ApplyAll, XFlags;
    if d == l {
      Apply1(env, Two(XAlu(op, d, r)), h);
    } else if d != r {
      Apply2(env, MovReg(d, l), Two(XAlu(op, d, r)), h);
    } else if !op.AluSub? {
      Apply1(env, Two(XAlu(op, d, l)), h);
      AluCommutes(op, Get(h, l), Get(h, r));
    } else {
      Apply3(env, MovReg(RAX, l), Two(XAlu(op, RAX, r)), MovReg(d, RAX), h);
    }
  }

  /** What the emitted code leaves in the destination: an immediate of zero leaves the left
      operand, whatever the operation. */
  function SimpleValue(i: Ir, l: Word, r: Word): Word {
    var v := if i.immediate then (if i.value != 0 then AluOf(HostAlu(i.op), l, i.value) else l)
             else AluOf(HostAlu(i.op), l, r);
    if i.op.INor? then Not(v) else v
  }

  lemma ImmediateComputes(env: Env, op: Alu, d: HReg, l: HReg, v: Word, h: Host)
    requires XHost(d, RAX) && XHost(l, RAX)
    ensures
      var h1 := ApplyAll(env, [MovReg(d, l)] + AluImm(op, d, v), h);
      XComputed(h, h1, d, if v != 0 then AluOf(op, Get(h, l), v) else Get(h, l))
  {
    hide AluOf, ApplyAll, XFlags;
    if v != 0 {
      Apply2(env, MovReg(d, l), Two(XAluImm(op, d, v)), h);
      assert [MovReg(d, l)] + AluImm(op, d, v) == [MovReg(d, l), Two(XAluImm(op, d, v))];
    } else {
      Apply1(env, MovReg(d, l), h);
      assert [MovReg(d, l)] + AluImm(op, d, v) == [MovReg(d, l)];
    }
  }

  lemma SimpleComputes(env: Env, i: Ir, d: HReg, l: HReg, r: HReg, h: Host)
    requires XHost(d, RAX) && XHost(l, RAX) && XHost(r, RDX)
    ensures XComputed(h, ApplyAll(env, SimpleOps(i, d, l, r), h), d, SimpleValue(i, Get(h, l), Get(h, r)))
  {
    hide AluOf, ApplyAll, Not, Alu3, AluImm;
    var op := HostAlu(i.op);
    var first := if i.immediate then [MovReg(d, l)] + AluImm(op, d, i.value) else Alu3(op, d, l, r);
    if i.immediate {
      ImmediateComputes(env, op, d, l, i.value, h);
    } else {
      Alu3Computes(env, op, d, l, r, h);
    }
    var h1 := ApplyAll(env, first, h);
    if i.op.INor? {
      ApplyConcat(env, first, [Mvn(d, d)], h);
      Apply1(env, Mvn(d, d), h1);
    } else {
      assert first + [] == first;
    }
  }

  lemma CompareFlags(env: Env, i: Ir, l: HReg, r: HReg, h: Host)
    requires IsCompare(i.op) && XHost(l, RAX)
    ensures
      var h1 := ApplyAll(env, CompareOps(i, l, r), h);
      XComputed(h, h1, RAX, AluValue(i.op, Get(h, l), if i.immediate then i.value else Get(h, r)))
  {
    hide ApplyAll, FlagsOf, Holds, Signed;
    var b := if i.immediate then i.value else Get(h, r);
    Apply2(env, CompareOps(i, l, r)[0], CSet(RAX, if i.op.ISlt? then LT else CC), h);
    Compares(Get(h, l), b);
  }

  lemma XShiftComputes(env: Env, i: Ir, d: HReg, l: HReg, h: Host)
    requires i.op.IShl? || i.op.IShr? || i.op.ISar?
    requires XHost(d, RAX) && XHost(l, RAX)
    ensures XComputed(h, ApplyAll(env, XShiftOps(i, d, l), h), d,
                      AluValue(i.op, Get(h, l), if i.immediate then i.value else Get(h, RCX)))
  {
    hide ApplyAll, Apply, AluValue, XComputed;
    if !i.immediate {
      CountedShift(env, i, d, l, h);
    } else if i.value == 0 {
      Apply1(env, MovReg(d, l), h);
      assert XShiftOps(i, d, l) == [MovReg(d, l)];
      NoShift(env, i, d, l, h);
    } else {
      FixedShift(env, i, d, l, h);
    }
  }

  lemma NoShift(env: Env, i: Ir, d: HReg, l: HReg, h: Host)
    requires (i.op.IShl? || i.op.IShr? || i.op.ISar?) && XHost(d, RAX) && XHost(l, RAX)
    ensures XComputed(h, Apply(env, MovReg(d, l), h), d, AluValue(i.op, Get(h, l), 0))
  {
    ShiftByZero(Get(h, l));
    hide ShiftLeft, ShiftRight, ShiftArith;
  }

  lemma FixedShift(env: Env, i: Ir, d: HReg, l: HReg, h: Host)
    requires (i.op.IShl? || i.op.IShr? || i.op.ISar?) && XHost(d, RAX) && XHost(l, RAX)
    requires i.immediate && i.value != 0
    ensures XComputed(h, ApplyAll(env, XShiftOps(i, d, l), h), d, AluValue(i.op, Get(h, l), i.value))
  {
    hide ApplyAll, ShiftLeft, ShiftRight, ShiftArith;
    var shift: HOp := Two(XShift(ShiftKind(i.op), d, i.value));
    assert XShiftOps(i, d, l) == [MovReg(d, l), shift];
    Apply2(env, MovReg(d, l), shift, h);
  }

  lemma CountedShift(env: Env, i: Ir, d: HReg, l: HReg, h: Host)
    requires (i.op.IShl? || i.op.IShr? || i.op.ISar?) && XHost(d, RAX) && XHost(l, RAX) && !i.immediate
    ensures XComputed(h, ApplyAll(env, XShiftOps(i, d, l), h), d, AluValue(i.op, Get(h, l), Get(h, RCX)))
  {
    hide ApplyAll, ShiftLeft, ShiftRight, ShiftArith;
    var shift: HOp := Two(XShiftCl(ShiftKind(i.op), d));
    assert XShiftOps(i, d, l) == [MovReg(d, l), shift];
    Apply2(env, MovReg(d, l), shift, h);
  }

  lemma ShiftByZero(a: Word)
    ensures ShiftLeft(a, 0) == a && ShiftRight(a, 0) == a && ShiftArith(a, 0) == a
  {
    assert Pow2(0) == 1;
  }

  // ------------------------------------------------------------ whole entries

  /** What an arithmetic entry leaves, from its operands. */
  function XValue(i: Ir, l: Word, r: Word): Word
    requires IsAlu(i.op)
  {
    if IsSimple(i.op) then SimpleValue(i, l, r) else AluValue(i.op, l, if i.immediate then i.value else r)
  }

  /** What `XCompute` needs from the code before it. */
  predicate Ready(i: Ir, h: Host, l: HReg, rr: HReg, r: Regs)
    requires IsAlu(i.op)
  {
    if ZeroAnd(i) then true
    else if IsSimple(i.op) then
      XHost(l, RAX) && XHost(rr, RDX) && Get(h, l) == r[i.left] && (!i.immediate ==> Get(h, rr) == r[i.right])
    else if IsCompare(i.op) then Low(h.x[RAX]) == XValue(i, r[i.left], r[i.right])
    else XHost(l, RAX) && Get(h, l) == r[i.left] && (!i.immediate ==> Get(h, RCX) == r[i.right])
  }

  lemma XBeforeRefines(env: Env, rc: Cache, i: Ir, h: Host, r: Regs)
    requires X86(rc) && Ok(rc) && Represents(rc, h.x, h.m.c.r, r) && IsAlu(i.op)
    ensures
      var (ops, l, rr, rc1) := XBefore(rc, i);
      var h1 := ApplyAll(env, ops, h);
      && Ok(rc1) && Represents(rc1, h1.x, h1.m.c.r, r) && Scratched(h, h1) && Ready(i, h1, l, rr, r)
  {
    hide Ok, Represents, ApplyAll, XOperands, AluValue, SimpleValue, CompareOps, Low;
    if ZeroAnd(i) {
      ApplyNone(env, h);
    } else {
      var scratch: HReg := if IsSimple(i.op) || IsCompare(i.op) then RDX else RCX;
      var (ops, l, rr, rc1) := XOperands(rc, i, scratch);
      XOperandsRefine(env, rc, i, scratch, h, r);
      var h1 := ApplyAll(env, ops, h);
      if IsCompare(i.op) {
        CompareFlags(env, i, l, rr, h1);
        ApplyConcat(env, ops, CompareOps(i, l, rr), h);
        LowScratch(rc1, h1, ApplyAll(env, CompareOps(i, l, rr), h1), r);
      } else if !IsSimple(i.op) {
        if i.immediate {
          assert ops + [] == ops;
        } else {
          Apply1(env, MovReg(RCX, rr), h1);
          ApplyConcat(env, ops, [MovReg(RCX, rr)], h);
          LowScratch(rc1, h1, ApplyAll(env, [MovReg(RCX, rr)], h1), r);
          CountMoved(env, l, rr, h1);
        }
      }
    }
  }

  lemma CountMoved(env: Env, l: HReg, rr: HReg, h: Host)
    requires XHost(l, RAX) && XHost(rr, RCX)
    ensures
      var h1 := ApplyAll(env, [MovReg(RCX, rr)], h);
      Get(h1, RCX) == Get(h, rr) && Get(h1, l) == Get(h, l)
  {
    Apply1(env, MovReg(RCX, rr), h);
  }

  /** Changing scratch registers and flags leaves the cache alone. */
  lemma LowScratch(rc: Cache, h: Host, h1: Host, r: Regs)
    requires X86(rc) && Ok(rc) && Represents(rc, h.x, h.m.c.r, r)
    requires h1 == h.(x := h1.x, flags := h1.flags)
    requires forall j :: 3 <= j < 32 ==> h1.x[j] == h.x[j]
    ensures Represents(rc, h1.x, h1.m.c.r, r) && Scratched(h, h1)
  {
    hide Ok, Represents;
    RepresentsFrame(rc, h.x, h1.x, h.m.c.r, r);
  }

  lemma XComputeRefines(env: Env, i: Ir, d: HReg, l: HReg, rr: HReg, h: Host, r: Regs)
    requires IsAlu(i.op) && r[0] == 0 && XHost(d, RAX) && Ready(i, h, l, rr, r)
    ensures XComputed(h, ApplyAll(env, XCompute(i, d, l, rr), h), d, XValue(i, r[i.left], r[i.right]))
  {
    hide ApplyAll, AluValue, SimpleValue, SimpleOps, XShiftOps;
    if ZeroAnd(i) {
      ZeroValue(i, r);
      ConstantApplies(env, d, 0, h);
    } else if IsSimple(i.op) {
      SimpleComputes(env, i, d, l, rr, h);
      SimpleSame(i, r[i.left], Get(h, rr), r[i.right]);
    } else if IsCompare(i.op) {
      Apply1(env, MovReg(d, RAX), h);
    } else {
      XShiftComputes(env, i, d, l, h);
    }
  }

  lemma SimpleSame(i: Ir, l: Word, r: Word, r1: Word)
    requires !i.immediate ==> r == r1
    ensures SimpleValue(i, l, r) == SimpleValue(i, l, r1)
  {
  }

  lemma ZeroValue(i: Ir, r: Regs)
    requires r[0] == 0 && ZeroAnd(i)
    ensures SimpleValue(i, r[i.left], r[i.right]) == 0
  {
    BitAndZero(r[i.left]);
    BitAndZero(r[i.right]);
  }

  lemma SettlesAfter(rc: Cache, h: Host, h1: Host, h2: Host, r: Regs)
    requires Scratched(h, h1) && Settles(rc, h1, h2, r)
    ensures Settles(rc, h, h2, r)
  {
    hide Ok, Represents;
  }

  /** Emitted arithmetic leaves every guest register right but possibly the destination,
      which holds `XValue`. */
  lemma XAluRefines(env: Env, rc: Cache, i: Ir, h: Host, r: Regs)
    requires X86(rc) && Ok(rc) && Represents(rc, h.x, h.m.c.r, r) && IsAlu(i.op)
    ensures
      var (ops, rc1) := XAluCode(rc, i);
      X86(rc1) && Settles(rc1, h, ApplyAll(env, ops, h), SetReg(r, i.dst, XValue(i, r[i.left], r[i.right])))
  {
    assert r[0] == 0 by { ZeroIsZero(rc, h.x, h.m.c.r, r); }
    hide Ok, Represents, ApplyAll, XBefore, XCompute, WriteReg, Written, XValue, Ready;
    if i.dst == 0 {
      ApplyNone(env, h);
    } else {
      hide Settles, Scratched, XComputed, SetReg, Apply;
      var (ops, l, rr, rc1) := XBefore(rc, i);
      var (d, rc2) := WriteReg(rc1, i.dst, RAX);
      var v := XValue(i, r[i.left], r[i.right]);
      var h1 := ApplyAll(env, ops, h);
      XBeforeRefines(env, rc, i, h, r);
      WriteHostX(rc1, i.dst, RAX);
      XComputeRefines(env, i, d, l, rr, h1, r);
      XWriteSettles(env, rc1, i.dst, RAX, h1, XCompute(i, d, l, rr), v, r);
      ApplyConcat(env, ops, XCompute(i, d, l, rr) + Written(rc2, i.dst, d), h);
      assert ops + (XCompute(i, d, l, rr) + Written(rc2, i.dst, d)) == XAluCode(rc, i).0;
      SettlesAfter(rc2, h, h1, ApplyAll(env, XAluCode(rc, i).0, h), SetReg(r, i.dst, v));
    }
  }

  lemma XConstRefines(env: Env, rc: Cache, i: Ir, h: Host, r: Regs)
    requires X86(rc) && Ok(rc) && Represents(rc, h.x, h.m.c.r, r)
    requires i.op.IConst? || i.op.IMfhi? || i.op.IMflo?
    ensures
      var (ops, rc1) := XConstCode(rc, i);
      var v := if i.op.IConst? then i.value else if i.op.IMfhi? then h.m.c.hi else h.m.c.lo;
      X86(rc1) && Settles(rc1, h, ApplyAll(env, ops, h), SetReg(r, i.dst, v))
  {
    hide Ok, Represents, ApplyAll, WriteReg, Written;
    if i.dst == 0 {
      ApplyNone(env, h);
    } else {
      var (d, rc1) := WriteReg(rc, i.dst, RAX);
      var v := if i.op.IConst? then i.value else if i.op.IMfhi? then h.m.c.hi else h.m.c.lo;
      WriteHostX(rc, i.dst, RAX);
      if i.op.IConst? {
        ConstantApplies(env, d, i.value, h);
      } else {
        Apply1(env, XConstOps(i, d)[0], h);
      }
      XWriteSettles(env, rc, i.dst, RAX, h, XConstOps(i, d), v, r);
    }
  }

  // ------------------------------------------------------------ the skipped AND

  /** An immediate AND with zero into a register is the one entry whose code is skipped
      wrongly. */
  predicate SkipsAnd(i: Ir) {
    i.op.IAnd? && i.immediate && i.value == 0 && i.left != 0 && i.dst != 0
  }

  lemma SkippedValue(i: Ir, l: Word, r: Word)
    requires SkipsAnd(i)
    ensures IsAlu(i.op) && !IsBranch(i.op) && XValue(i, l, r) == l
  {
  }

  lemma {:induction false} BitwiseZero(op: BitOp, a: nat)
    requires !op.BitAnd?
    ensures Bitwise(op, a, 0) == a
    decreases a
  {
    if a > 0 {
      BitwiseZero(op, a / 2);
    }
  }

  lemma ZeroImmediate(l: Word)
    ensures Add(l, 0) == l && Sub(l, 0) == l && Or(l, 0) == l && Xor(l, 0) == l && And(l, 0) == 0
  {
    BitwiseZero(BitOr, l);
    BitwiseZero(BitXor, l);
    BitAndZero(l);
  }

  /** In one state: the emitted code leaves the registers as the entry means, unless it
      skips an AND of something else than zero. */
  lemma AluRightAt(i: Ir, r: Regs)
    requires IsAlu(i.op) && r[0] == 0
    ensures SetReg(r, i.dst, XValue(i, r[i.left], r[i.right])) ==
            SetReg(r, i.dst, AluValue(i.op, r[i.left], RightValue(i, r)))
            <==> !(SkipsAnd(i) && r[i.left] != 0)
  {
    var v, w := XValue(i, r[i.left], r[i.right]), AluValue(i.op, r[i.left], RightValue(i, r));
    if i.dst != 0 {
      assert SetReg(r, i.dst, v) == SetReg(r, i.dst, w) <==> v == w by {
        assert SetReg(r, i.dst, v)[i.dst] == v && SetReg(r, i.dst, w)[i.dst] == w;
      }
      ValueRightAt(i, r);
    }
  }

  lemma ValueRightAt(i: Ir, r: Regs)
    requires IsAlu(i.op) && r[0] == 0 && i.dst != 0
    ensures XValue(i, r[i.left], r[i.right]) == AluValue(i.op, r[i.left], RightValue(i, r))
            <==> !(SkipsAnd(i) && r[i.left] != 0)
  {
    ZeroImmediate(r[i.left]);
    hide And, Or, Xor, Add, Sub;
  }

  /** Over all register states: the code is right if and only if the entry is not an
      immediate AND of a register with zero into a register. */
  lemma AluExact(i: Ir)
    requires IsAlu(i.op)
    ensures (forall r: Regs :: r[0] == 0 ==>
               SetReg(r, i.dst, XValue(i, r[i.left], r[i.right])) ==
               SetReg(r, i.dst, AluValue(i.op, r[i.left], RightValue(i, r))))
            <==> !SkipsAnd(i)
  {
    hide XValue, AluValue, RightValue;
    forall r: Regs | r[0] == 0
      ensures SetReg(r, i.dst, XValue(i, r[i.left], r[i.right])) ==
              SetReg(r, i.dst, AluValue(i.op, r[i.left], RightValue(i, r)))
              <==> !(SkipsAnd(i) && r[i.left] != 0)
    {
      AluRightAt(i, r);
    }
    if SkipsAnd(i) {
      var r: Regs := seq(32, _ => 0)[i.left := 1];
      assert r[0] == 0 && r[i.left] != 0;
    }
  }

  /** `andi r2, r1, 0` decodes to such an entry: the code copies r1. */
  lemma SkippedAndExample()
    ensures
      var i := Decode(0x3022_0000);
      SkipsAnd(i) && i.dst == 2 && i.left == 1 && XValue(i, 7, 0) == 7 && AluValue(i.op, 7, i.value) == 0
  {
    BitAndZero(7);
  }
}
