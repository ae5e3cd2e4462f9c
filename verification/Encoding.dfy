/** What the fields of an instruction word are, told from the word alone: the decoder and the
    reference share them, so that they are pinned here. */
module Encoding {
  import opened Words
  import opened BusMap
  import opened Mips
  import opened MipsIr

  /** The six fields are the word, digit by digit. */
  lemma FieldsExact(w: Word)
    ensures w == 0x400_0000 * Op(w) + 0x20_0000 * Rs(w) + 0x1_0000 * Rt(w) + 0x800 * Rd(w) + 0x40 * Sa(w) + Fn(w)
    ensures Op(w) < 64 && Sa(w) < 32 && Fn(w) < 64
  {
    Digits(w, 0x40, 32);
    Digits(w, 0x800, 32);
    Digits(w, 0x1_0000, 32);
    Digits(w, 0x20_0000, 32);
  }

  lemma Digits(w: nat, unit: nat, base: nat)
    requires unit > 0 && base > 0 && unit * base > 0
    ensures w / unit == base * (w / (unit * base)) + w / unit % base
  {
    var q := w / unit;
    var a, m := q / base, q % base;
    assert q == base * a + m;
    assert w == unit * q + w % unit;
    MulGap(unit, m, base);
    assert unit * q == unit * (base * a) + unit * m;
    assert unit * (base * a) == (unit * base) * a;
    ModUnique(w, unit * base, a, unit * m + w % unit);
  }

  /** A sign-extended immediate is the number that the low half of the word stands for. */
  lemma SignedImmediate(w: Word)
    ensures (Simm(w) - w) % 0x1_0000 == 0 && -0x8000 <= Signed(Simm(w)) < 0x8000
  {
    var h := w % 0x1_0000;
    var q := w / 0x1_0000;
    assert w == 0x1_0000 * q + h;
    if h < 0x8000 {
      ModUnique(Simm(w) - w, 0x1_0000, -q, 0);
    } else {
      assert Simm(w) == h + 0xFFFF_0000;
      ModUnique(Simm(w) - w, 0x1_0000, 0xFFFF - q, 0);
    }
  }

  predicate IsLogic(op: IrOp) {
    op.IAnd? || op.IOr? || op.IXor?
  }

  /** An entry's immediate operand: signed for arithmetic, compares, loads and stores, not
      extended for logic, and in the upper half for LUI. */
  lemma ImmediateOf(w: Word)
    requires 8 <= w / 0x400_0000 && (IsAlu(Decode(w).op) || IsAccess(Decode(w).op) || Decode(w).op.IAddOv?
                                     || Decode(w).op.IConst?)
    ensures
      var value, op := Decode(w).value, Decode(w).op;
      if IsLogic(op) then value == w % 0x1_0000
      else if op.IConst? then value == (w % 0x1_0000) * 0x1_0000
      else (value - w) % 0x1_0000 == 0 && -0x8000 <= Signed(value) < 0x8000
  {
    SignedImmediate(w);
    UpperImmediate(w);
    hide Simm, Signed, Wrap;
  }

  /** A jump whose low 26 bits are those of an aligned address' word number goes to that
      address, anywhere in the 256 MiB region of its delay slot. */
  lemma JumpReaches(env: Env, w: Word, c: Cpu, t: Word)
    requires w / 0x400_0000 == 2 || w / 0x400_0000 == 3
    requires t % 4 == 0 && t / 0x1000_0000 == c.pc / 0x1000_0000 && w % 0x400_0000 == (t / 4) % 0x400_0000
    ensures IsBranch(Decode(w).op) && BranchTarget(Decode(w), c) == t
    ensures Exec(env, w, c).c.nextPc == t && Exec(env, w, c).c.branchPending
  {
    WordNumber(t);
    hide RunOther;
  }

  lemma WordNumber(t: Word)
    requires t % 4 == 0
    ensures t == (t / 0x1000_0000) * 0x1000_0000 + 4 * ((t / 4) % 0x400_0000)
  {
    Digits(t, 4, 0x400_0000);
  }

  /** A taken branch whose low half is the distance in words goes to the address at that
      distance from its delay slot. */
  lemma BranchReaches(w: Word, pc: Word, t: Word)
    requires IsCondBranch(Decode(w).op)
    requires -0x2_0000 <= t - pc < 0x2_0000 && (t - pc) % 4 == 0 && w % 0x1_0000 == ((t - pc) / 4) % 0x1_0000
    ensures Add(pc, Decode(w).value) == t
  {
    assert 1 <= Op(w) <= 7;
    var d := (t - pc) / 4;
    assert t == pc + 4 * d;
    HalfOf(w, d);
    assert Decode(w).value == Wrap(Simm(w) * 4);
    hide Simm;
    Distance(pc, d, Simm(w), t);
  }

  /** The immediate of a word whose low half is `d`. */
  lemma HalfOf(w: Word, d: int)
    requires -0x8000 <= d < 0x8000 && w % 0x1_0000 == d % 0x1_0000
    ensures Simm(w) == if d >= 0 then d else d + TWO32
  {
    if d >= 0 {
      ModUnique(d, 0x1_0000, 0, d);
    } else {
      ModUnique(d, 0x1_0000, -1, d + 0x1_0000);
    }
  }

  lemma Distance(pc: Word, d: int, s: Word, t: Word)
    requires t == pc + 4 * d && -0x8000 <= d < 0x8000 && s == (if d >= 0 then d else d + TWO32)
    ensures Add(pc, Wrap(s * 4)) == t
  {
    var v := Wrap(s * 4);
    if d >= 0 {
      ModUnique(s * 4, TWO32, 0, 4 * d);
      ModUnique(pc + v, TWO32, 0, t);
    } else {
      ModUnique(s * 4, TWO32, 3, 4 * d + TWO32);
      ModUnique(pc + v, TWO32, 1, t);
    }
  }
}
