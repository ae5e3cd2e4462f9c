/** The AArch64 back end's straight-line code computes what the IR means, whatever mix of
    cached, uncached, dirty and $zero registers it meets. */
module A64Proof {
  import opened Words
  import opened Mips
  import opened MipsIr
  import opened NativeBlock
  import opened HostCode
  import opened RegCache
  import opened A64Code

  lemma EmptyOk()
    ensures Ok(Empty()) && A64(Empty())
  {
    ResetOk(CACHE_REGS);
  }

  /** Conditions after a compare are the comparisons they are named for. */
  lemma Compares(l: Word, r: Word)
    ensures
      var f := FlagsOf(true, l, r);
      && (Holds(f, EQ) <==> l == r) && (Holds(f, NE) <==> l != r) && (Holds(f, CC) <==> l < r)
      && (Holds(f, LT) <==> Signed(l) < Signed(r)) && (Holds(f, GE) <==> Signed(l) >= Signed(r))
      && (Holds(f, LE) <==> Signed(l) <= Signed(r)) && (Holds(f, GT) <==> Signed(l) > Signed(r))
  {
  }

  /** The host overflow flag is the reference's overflow test. */
  lemma Overflows(l: Word, r: Word)
    ensures FlagsOf(false, l, r).v == AddOverflows(l, r)
    ensures FlagsOf(true, l, r).v == SubOverflows(l, r)
  {
  }

  /** Only general registers and flags changed, and not the block's own two. */
  predicate Scratched(h: Host, h1: Host) {
    h1 == h.(x := h1.x, flags := h1.flags) && h1.x[TARGET] == h.x[TARGET] && h1.x[BUDGET] == h.x[BUDGET]
  }

  predicate OperandHost(j: HReg) {
    j == ZR || j == 1 || j == 2 || j in CACHE_REGS
  }

  /** A register read into a cache host or the first scratch survives the next read. */
  lemma ReadSurvives(rc: Cache, a: Reg, x1: Vals, x2: Vals)
    requires A64(rc) && Ok(rc)
    requires OnlyLoaded(Read(rc, a, 1).2, x1, x2, 2)
    ensures x2[Read(rc, a, 1).1] == x1[Read(rc, a, 1).1] || Read(rc, a, 1).1 == ZR
  {
    hide Ok;
    ReadOk(rc, a, 1);
  }

  /** Reading two guest registers in turn keeps the first result. */
  lemma BothReads(env: Env, rc: Cache, a: Reg, b: Reg, h: Host, r: Regs)
    requires A64(rc) && Ok(rc) && Represents(rc, h.x, h.m.c.r, r)
    ensures
      var (aops, ah, rc1) := Read(rc, a, 1);
      var (bops, bh, rc2) := Read(rc1, b, 2);
      var h2 := ApplyAll(env, aops + bops, h);
      && Get(h2, ah) == r[a] && Get(h2, bh) == r[b]
      && Ok(rc2) && Represents(rc2, h2.x, h2.m.c.r, r) && Scratched(h, h2)
      && OperandHost(ah) && OperandHost(bh)
  {
    hide Ok, Represents, ApplyAll, Read, OnlyLoaded;
    var (aops, ah, rc1) := Read(rc, a, 1);
    var (bops, bh, rc2) := Read(rc1, b, 2);
    var h1 := ApplyAll(env, aops, h);
    OneRead(env, rc, a, 1, h, r);
    OneRead(env, rc1, b, 2, h1, r);
    ApplyConcat(env, aops, bops, h);
    ReadSurvives(rc, a, h1.x, ApplyAll(env, bops, h1).x);
  }

  lemma OneRead(env: Env, rc: Cache, a: Reg, scratch: HReg, h: Host, r: Regs)
    requires A64(rc) && Ok(rc) && Represents(rc, h.x, h.m.c.r, r) && (scratch == 1 || scratch == 2 || scratch == 9)
    ensures
      var (ops, ah, rc1) := Read(rc, a, scratch);
      var h1 := ApplyAll(env, ops, h);
      && Get(h1, ah) == r[a] && Ok(rc1) && Represents(rc1, h1.x, h1.m.c.r, r) && Scratched(h, h1)
      && (ah == ZR || ah == scratch || ah in CACHE_REGS)
      && h1 == h.(x := h1.x) && OnlyLoaded(rc, h.x, h1.x, scratch)
  {
    hide Ok, Represents, ApplyAll;
    ReadOk(rc, a, scratch);
    ReadRefines(env, rc, a, scratch, h, r);
  }

  lemma OperandsRefine(env: Env, rc: Cache, i: Ir, h: Host, r: Regs)
    requires A64(rc) && Ok(rc) && Represents(rc, h.x, h.m.c.r, r)
    ensures
      var (ops, l, rr, rc1) := Operands(rc, i);
      var h1 := ApplyAll(env, ops, h);
      && Get(h1, l) == r[i.left]
      && (!ImmediateForm(i) ==> Get(h1, rr) == RightValue(i, r))
      && Ok(rc1) && Represents(rc1, h1.x, h1.m.c.r, r) && Scratched(h, h1)
      && OperandHost(l) && OperandHost(rr)
  {
    hide Ok, Represents, ApplyAll, Read;
    if !i.immediate {
      BothReads(env, rc, i.left, i.right, h, r);
    } else {
      OneRead(env, rc, i.left, 1, h, r);
      var (lops, l, rc1) := Read(rc, i.left, 1);
      if !ImmediateForm(i) {
        var h0 := ApplyAll(env, lops, h);
        ApplyConcat(env, lops, [MovImm(2, i.value)], h);
        Apply1(env, MovImm(2, i.value), h0);
        RepresentsFrame(rc1, h0.x, h0.x[2 := W(i.value)], h0.m.c.r, r);
      }
    }
  }

  /** `h1` is `h` with register `d` (and the address scratch) changed. */
  predicate Computed(h: Host, h1: Host, d: HReg, v: Word) {
    && h1 == h.(x := h1.x, flags := h1.flags)
    && d != ZR && Low(h1.x[d]) == v
    && forall j :: 0 <= j < 32 && j != d && j != 17 ==> h1.x[j] == h.x[j]
  }

  lemma NegatedImmediate(x: Word, v: Word)
    ensures Sub(x, Sub(0, v)) == Add(x, v)
  {
  }

  lemma AddImm32Computes(env: Env, d: HReg, s: HReg, v: Word, h: Host)
    requires d != ZR && d != 17 && s != 17
    ensures Computed(h, ApplyAll(env, AddImm32(d, s, v), h), d, Add(Get(h, s), v))
  {
    hide ApplyAll, Add, Sub;
    if s == ZR {
      Apply1(env, MovImm(d, v), h);
      assert Add(0, v) == v by { AddZero(v); }
    } else if v < 4096 {
      Apply1(env, AddImm(d, s, v), h);
    } else if Sub(0, v) < 4096 {
      Apply1(env, SubImm(d, s, Sub(0, v)), h);
      NegatedImmediate(Get(h, s), v);
    } else {
      Apply2(env, MovImm(17, v), Arith(AluAdd, d, s, 17), h);
    }
  }

  lemma AddZero(v: Word)
    ensures Add(0, v) == v
  {
  }

  lemma MoveComputes(env: Env, d: HReg, s: HReg, h: Host)
    requires d != ZR
    ensures Computed(h, ApplyAll(env, Move(d, s), h), d, Get(h, s))
  {
    if d != s {
      Apply1(env, MovReg(d, s), h);
    }
  }

  lemma ShiftComputes(env: Env, i: Ir, d: HReg, l: HReg, rr: HReg, h: Host, a: Word, b: Word)
    requires i.op.IShl? || i.op.IShr? || i.op.ISar?
    requires d != ZR && Get(h, l) == a && b == (if i.immediate then i.value else Get(h, rr))
    ensures Computed(h, ApplyAll(env, Compute(i, d, l, rr), h), d, AluValue(i.op, a, b))
  {
    var ops := Compute(i, d, l, rr);
    assert Pow2(0) == 1;
    if i.immediate && i.value % 32 == 0 {
      MoveComputes(env, d, l, h);
      assert ShiftLeft(a, 0) == a && ShiftRight(a, 0) == a && ShiftArith(a, 0) == a;
    } else {
      Apply1(env, ops[0], h);
    }
  }

  lemma CompareComputes(env: Env, cond: Cond, d: HReg, l: HReg, rr: HReg, h: Host)
    requires d != ZR
    ensures Computed(h, ApplyAll(env, [ArithFlags(true, ZR, l, rr), CSet(d, cond)], h), d,
                     Flag(Holds(FlagsOf(true, Get(h, l), Get(h, rr)), cond)))
  {
    Apply2(env, ArithFlags(true, ZR, l, rr), CSet(d, cond), h);
  }

  lemma NorComputes(env: Env, d: HReg, l: HReg, rr: HReg, h: Host)
    requires d != ZR
    ensures Computed(h, ApplyAll(env, [Arith(AluOrr, d, l, rr), Mvn(d, d)], h), d,
                     Not(Or(Get(h, l), Get(h, rr))))
  {
    Apply2(env, Arith(AluOrr, d, l, rr), Mvn(d, d), h);
  }

  lemma ComputeRefines(env: Env, i: Ir, d: HReg, l: HReg, rr: HReg, h: Host, a: Word, b: Word)
    requires IsAlu(i.op) && d != ZR && d != 17 && l != 17
    requires Get(h, l) == a && b == (if ImmediateForm(i) then i.value else Get(h, rr))
    ensures Computed(h, ApplyAll(env, Compute(i, d, l, rr), h), d, AluValue(i.op, a, b))
  {
    var ops := Compute(i, d, l, rr);
    match i.op
    case IAdd =>
      if i.immediate {
        AddImm32Computes(env, d, l, i.value, h);
      } else {
        Apply1(env, ops[0], h);
      }
    case ISub => Apply1(env, ops[0], h);
    case IAnd => Apply1(env, ops[0], h);
    case IOr => Apply1(env, ops[0], h);
    case IXor => Apply1(env, ops[0], h);
    case INor => NorComputes(env, d, l, rr, h);
    case ISlt => CompareComputes(env, LT, d, l, rr, h); Compares(a, b);
    case ISltu => CompareComputes(env, CC, d, l, rr, h); Compares(a, b);
    case _ => ShiftComputes(env, i, d, l, rr, h, a, b);
  }

  /** `h1` represents `r` under `rc`, and beyond that only scratch state and the memory
      image of the registers changed. */
  predicate Settles(rc: Cache, h: Host, h1: Host, r: Regs) {
    && Ok(rc) && Represents(rc, h1.x, h1.m.c.r, r)
    && h1 == h.(x := h1.x, flags := h1.flags, m := h.m.(c := h.m.c.(r := h1.m.c.r)))
    && h1.x[TARGET] == h.x[TARGET] && h1.x[BUDGET] == h.x[BUDGET]
  }

  predicate Settled(rc: Cache, h: Host, h1: Host, r: Regs) {
    A64(rc) && Settles(rc, h, h1, r)
  }

  /** Computing a value into the write register and completing the write. */
  lemma WriteSettles(env: Env, rc: Cache, g: Reg, scratch: HReg, h: Host, ops: seq<HOp>, v: Word, r: Regs)
    requires A64(rc) && Ok(rc) && Represents(rc, h.x, h.m.c.r, r)
    requires (scratch == 3 || scratch == 9) && g != 0
    requires Computed(h, ApplyAll(env, ops, h), WriteReg(rc, g, scratch).0, v)
    ensures
      var (d, rc1) := WriteReg(rc, g, scratch);
      Settled(rc1, h, ApplyAll(env, ops + Written(rc1, g, d), h), SetReg(r, g, v))
  {
    hide Ok, Represents, ApplyAll;
    var (d, rc1) := WriteReg(rc, g, scratch);
    var h1 := ApplyAll(env, ops, h);
    WriteRegOk(rc, g, scratch);
    WriteRefines(env, rc, g, scratch, h, h1, v, r);
    ApplyConcat(env, ops, Written(rc1, g, d), h);
  }

  lemma WriteRegHost(rc: Cache, g: Reg, scratch: HReg)
    requires A64(rc) && Ok(rc) && (scratch == 3 || scratch == 9)
    ensures var d := WriteReg(rc, g, scratch).0; d == scratch || d in CACHE_REGS
  {
    hide Ok;
    WriteRegOk(rc, g, scratch);
  }

  lemma NothingSettles(env: Env, rc: Cache, h: Host, r: Regs)
    requires A64(rc) && Ok(rc) && Represents(rc, h.x, h.m.c.r, r)
    ensures Settled(rc, h, ApplyAll(env, [], h), r)
  {
  }

  lemma AluRefines(env: Env, rc: Cache, i: Ir, h: Host, r: Regs)
    requires A64(rc) && Ok(rc) && Represents(rc, h.x, h.m.c.r, r) && IsAlu(i.op)
    ensures
      var (ops, rc1) := AluCode(rc, i);
      Settled(rc1, h, ApplyAll(env, ops, h), SetReg(r, i.dst, AluValue(i.op, r[i.left], RightValue(i, r))))
  {
    hide Ok, Represents, ApplyAll, Compute, AluValue, Operands, WriteReg, Written;
    if i.dst == 0 {
      NothingSettles(env, rc, h, r);
    } else {
      var (ops, l, rr, rc2) := Operands(rc, i);
      var (d, rc3) := WriteReg(rc2, i.dst, 3);
      OperandsRefine(env, rc, i, h, r);
      var h1 := ApplyAll(env, ops, h);
      WriteRegHost(rc2, i.dst, 3);
      var v := AluValue(i.op, r[i.left], RightValue(i, r));
      ComputeRefines(env, i, d, l, rr, h1, r[i.left], RightValue(i, r));
      WriteSettles(env, rc2, i.dst, 3, h1, Compute(i, d, l, rr), v, r);
      ApplyConcat(env, ops, Compute(i, d, l, rr) + Written(rc3, i.dst, d), h);
      assert ops + (Compute(i, d, l, rr) + Written(rc3, i.dst, d)) == AluCode(rc, i).0;
    }
  }

  lemma ConstComputes(env: Env, i: Ir, d: HReg, h: Host)
    requires i.op.IConst? || i.op.IMfhi? || i.op.IMflo?
    requires d == 3 || d in CACHE_REGS
    ensures
      var v := if i.op.IConst? then i.value else if i.op.IMfhi? then h.m.c.hi else h.m.c.lo;
      Computed(h, ApplyAll(env, ConstOps(i, d), h), d, v)
  {
    hide ApplyAll;
    Apply1(env, ConstOps(i, d)[0], h);
  }

  lemma ConstRefines(env: Env, rc: Cache, i: Ir, h: Host, r: Regs)
    requires A64(rc) && Ok(rc) && Represents(rc, h.x, h.m.c.r, r)
    requires i.op.IConst? || i.op.IMfhi? || i.op.IMflo?
    ensures
      var (ops, rc1) := ConstCode(rc, i);
      var v := if i.op.IConst? then i.value else if i.op.IMfhi? then h.m.c.hi else h.m.c.lo;
      Settled(rc1, h, ApplyAll(env, ops, h), SetReg(r, i.dst, v))
  {
    hide Ok, Represents, ApplyAll, WriteReg, Written;
    if i.dst == 0 {
      NothingSettles(env, rc, h, r);
    } else {
      hide Settled, SetReg, Computed, ConstOps;
      var (d, rc1) := WriteReg(rc, i.dst, 3);
      var v := if i.op.IConst? then i.value else if i.op.IMfhi? then h.m.c.hi else h.m.c.lo;
      WriteRegHost(rc, i.dst, 3);
      ConstComputes(env, i, d, h);
      WriteSettles(env, rc, i.dst, 3, h, ConstOps(i, d), v, r);
    }
  }
}
