/** The block IR: one entry per guest instruction, its meaning, and the decoder that
    produces it from a MIPS word. */
module MipsIr {
  import opened Words
  import opened Wrappers
  import opened Mips

  datatype IrOp =
    | IAdd | ISub | IAnd | IOr | IXor | INor | ISlt | ISltu
    | IShl | IShr | ISar | IConst
    | IAddOv | ISubOv
    | IMult | IMultu
    | IMfhi | IMflo | IMthi | IMtlo
    | ILoad | IStore | IExec
    | IBeq | IBne | IBlez | IBgtz | IBltz | IBgez
    | IJump | IJumpr

  datatype Ir = Ir(op: IrOp, dst: Reg, left: Reg, right: Reg, immediate: bool, size: nat,
                   sign: bool, endsBlock: bool, value: Word, word: Word)

  predicate IsCondBranch(op: IrOp) {
    op.IBeq? || op.IBne? || op.IBlez? || op.IBgtz? || op.IBltz? || op.IBgez?
  }

  predicate IsBranch(op: IrOp) {
    IsCondBranch(op) || op.IJump? || op.IJumpr?
  }

  predicate IsAlu(op: IrOp) {
    op.IAdd? || op.ISub? || op.IAnd? || op.IOr? || op.IXor? || op.INor? || op.ISlt? || op.ISltu?
    || op.IShl? || op.IShr? || op.ISar?
  }

  predicate IsAccess(op: IrOp) {
    op.ILoad? || op.IStore?
  }

  /** Entries the back ends may rely on: access sizes, and no register of a branch
      compared against $zero. */
  predicate WellFormed(i: Ir) {
    && (IsAccess(i.op) ==> AccessSize(i.size))
    && (i.op.IBlez? || i.op.IBgtz? || i.op.IBltz? || i.op.IBgez? ==> i.right == 0)
    && (i.op.IJump? ==> i.value < 0x1000_0000)
  }

  // ------------------------------------------------------------ meaning

  function AluValue(op: IrOp, l: Word, r: Word): Word
    requires IsAlu(op)
  {
    match op
    case IAdd => Add(l, r)
    case ISub => Sub(l, r)
    case IAnd => And(l, r)
    case IOr => Or(l, r)
    case IXor => Xor(l, r)
    case INor => Not(Or(l, r))
    case ISlt => Flag(Signed(l) < Signed(r))
    case ISltu => Flag(l < r)
    case IShl => ShiftLeft(l, r % 32)
    case IShr => ShiftRight(l, r % 32)
    case ISar => ShiftArith(l, r % 32)
  }

  predicate Taken(op: IrOp, l: Word, r: Word)
    requires IsCondBranch(op)
  {
    match op
    case IBeq => l == r
    case IBne => l != r
    case IBlez => Signed(l) <= Signed(r)
    case IBgtz => Signed(l) > Signed(r)
    case IBltz => Signed(l) < Signed(r)
    case IBgez => Signed(l) >= Signed(r)
  }

  function RightValue(i: Ir, r: Regs): Word {
    if i.immediate then i.value else r[i.right]
  }

  /** Where a branch at address `pc - 4` goes. */
  function BranchTarget(i: Ir, c: Cpu): Word
    requires IsBranch(i.op)
  {
    match i.op
    case IJump => (c.pc / 0x1000_0000) * 0x1000_0000 + i.value % 0x1000_0000
    case IJumpr => c.r[i.left]
    case _ => if Taken(i.op, c.r[i.left], c.r[i.right]) then Add(c.pc, i.value) else c.nextPc
  }

  /** Running one IR entry, in the same pipeline position as the exec body. */
  function IrExec(env: Env, i: Ir, c: Cpu): Effect
    requires WellFormed(i)
  {
    var l, r := c.r[i.left], RightValue(i, c.r);
    if IsAlu(i.op) then Writes(c, i.dst, AluValue(i.op, l, r))
    else if IsBranch(i.op) then
      Plain(Branch(c.(r := SetReg(c.r, i.dst, c.nextPc)), BranchTarget(i, c)))
    else
      match i.op
      case IConst => Writes(c, i.dst, i.value)
      case IAddOv =>
        if AddOverflows(l, r) then Plain(Raise(c, Exception(EXC_OV, None, false)))
        else Writes(c, i.dst, Add(l, r))
      case ISubOv =>
        if SubOverflows(l, r) then Plain(Raise(c, Exception(EXC_OV, None, false)))
        else Writes(c, i.dst, Sub(l, r))
      case IMult => Plain(c.(lo := LowWord(Product(true, l, r)), hi := HighWord(Product(true, l, r))))
      case IMultu => Plain(c.(lo := LowWord(Product(false, l, r)), hi := HighWord(Product(false, l, r))))
      case IMfhi => Writes(c, i.dst, c.hi)
      case IMflo => Writes(c, i.dst, c.lo)
      case IMthi => Plain(c.(hi := l))
      case IMtlo => Plain(c.(lo := l))
      case ILoad => Load(env, i.word, c, Add(l, i.value), i.size, i.sign, i.dst)
      case IStore => Store(env, i.word, c, Add(l, i.value), i.size, c.r[i.right])
      case _ => Exec(env, i.word, c)
  }

  // ------------------------------------------------------------ decoder

  function DefaultIr(w: Word): Ir {
    Ir(IExec, Rt(w), Rs(w), Rt(w), false, 0, false, false, 0, w)
  }

  function DecodeSpecial(w: Word): Ir {
    var i := DefaultIr(w).(dst := Rd(w));
    var shift := i.(left := Rt(w), immediate := true, value := Sa(w));
    var shiftv := i.(left := Rt(w), right := Rs(w));
    match Fn(w)
    case 0x00 => shift.(op := IShl)
    case 0x02 => shift.(op := IShr)
    case 0x03 => shift.(op := ISar)
    case 0x04 => shiftv.(op := IShl)
    case 0x06 => shiftv.(op := IShr)
    case 0x07 => shiftv.(op := ISar)
    case 0x08 => i.(op := IJumpr, dst := 0)
    case 0x09 => i.(op := IJumpr, dst := if Rd(w) != 0 then Rd(w) else 31)
    case 0x10 => i.(op := IMfhi)
    case 0x11 => i.(op := IMthi, dst := 0)
    case 0x12 => i.(op := IMflo)
    case 0x13 => i.(op := IMtlo, dst := 0)
    case 0x18 => i.(op := IMult, dst := 0)
    case 0x19 => i.(op := IMultu, dst := 0)
    case 0x20 => i.(op := IAddOv)
    case 0x21 => i.(op := IAdd)
    case 0x22 => i.(op := ISubOv)
    case 0x23 => i.(op := ISub)
    case 0x24 => i.(op := IAnd)
    case 0x25 => i.(op := IOr)
    case 0x26 => i.(op := IXor)
    case 0x27 => i.(op := INor)
    case 0x2A => i.(op := ISlt)
    case 0x2B => i.(op := ISltu)
    case 0x0C => i.(endsBlock := true)
    case 0x0D => i.(endsBlock := true)
    case _ => i.(endsBlock := !(Fn(w) == 0x1A || Fn(w) == 0x1B))
  }

  function DecodeBranch(w: Word): Ir
    requires 1 <= Op(w) <= 7
  {
    var i := DefaultIr(w).(dst := 0, value := Wrap(Simm(w) * 4));
    match Op(w)
    case 1 =>
      if Rt(w) != 0 && Rt(w) != 1 && Rt(w) != 16 && Rt(w) != 17 then i.(endsBlock := true)
      else i.(op := if Rt(w) % 2 == 1 then IBgez else IBltz,
              dst := if Rt(w) >= 16 then 31 else 0, right := 0)
    case 2 => i.(op := IJump, value := JumpField(w))
    case 3 => i.(op := IJump, value := JumpField(w), dst := 31)
    case 4 => i.(op := IBeq)
    case 5 => i.(op := IBne)
    case 6 => i.(op := IBlez, right := 0)
    case 7 => i.(op := IBgtz, right := 0)
  }

  function DecodeImmediate(w: Word): Ir {
    var i := DefaultIr(w).(immediate := true, value := Simm(w));
    match Op(w)
    case 0x08 => i.(op := IAddOv)
    case 0x09 => i.(op := IAdd)
    case 0x0A => i.(op := ISlt)
    case 0x0B => i.(op := ISltu)
    case 0x0C => i.(op := IAnd, value := Imm(w))
    case 0x0D => i.(op := IOr, value := Imm(w))
    case 0x0E => i.(op := IXor, value := Imm(w))
    case 0x0F => i.(op := IConst, value := Wrap(w * 0x1_0000))
    case 0x20 => i.(op := ILoad, size := 1, sign := true)
    case 0x21 => i.(op := ILoad, size := 2, sign := true)
    case 0x23 => i.(op := ILoad, size := 4, sign := true)
    case 0x24 => i.(op := ILoad, size := 1)
    case 0x25 => i.(op := ILoad, size := 2)
    case 0x28 => i.(op := IStore, dst := 0, size := 1)
    case 0x29 => i.(op := IStore, dst := 0, size := 2)
    case 0x2B => i.(op := IStore, dst := 0, size := 4)
    case 0x22 => i.(immediate := false)
    case 0x26 => i.(immediate := false)
    case 0x2A => i.(immediate := false)
    case 0x2E => i.(immediate := false)
    case 0x2F => i.(immediate := false)
    case 0x10 => i.(immediate := false, endsBlock := Rs(w) != 0)
    case _ => i.(immediate := false, endsBlock := true)
  }

  function Decode(w: Word): Ir {
    if Op(w) == 0 then DecodeSpecial(w)
    else if 1 <= Op(w) <= 7 then DecodeBranch(w)
    else DecodeImmediate(w)
  }

  /** The decoder as written: defaults first, then field by field. */
  method DecodeMips(w: Word) returns (ok: bool, i: Ir)
    ensures ok && i == Decode(w)
  {
    var op, fn := Op(w), Fn(w);
    var rs, rt, rd := Rs(w), Rt(w), Rd(w);
    ok := true;
    i := Ir(IExec, rt, rs, rt, false, 0, false, false, 0, w);
    if op == 0 {
      i := i.(dst := rd);
      if fn == 0 || fn == 2 || fn == 3 {
        i := i.(op := if fn == 0 then IShl else if fn == 2 then IShr else ISar);
        i := i.(left := rt, immediate := true, value := Sa(w));
      } else if fn == 4 || fn == 6 || fn == 7 {
        i := i.(op := if fn == 4 then IShl else if fn == 6 then IShr else ISar);
        i := i.(left := rt, right := rs);
      } else if fn == 8 || fn == 9 {
        i := i.(op := IJumpr);
        i := i.(dst := if fn == 9 then (if rd != 0 then rd else 31) else 0);
      } else if fn == 0x10 {
        i := i.(op := IMfhi);
      } else if fn == 0x11 {
        i := i.(op := IMthi, dst := 0);
      } else if fn == 0x12 {
        i := i.(op := IMflo);
      } else if fn == 0x13 {
        i := i.(op := IMtlo, dst := 0);
      } else if fn == 0x18 {
        i := i.(op := IMult, dst := 0);
      } else if fn == 0x19 {
        i := i.(op := IMultu, dst := 0);
      } else if 0x20 <= fn <= 0x27 {
        i := i.(op := [IAddOv, IAdd, ISubOv, ISub, IAnd, IOr, IXor, INor][fn - 0x20]);
      } else if fn == 0x2A {
        i := i.(op := ISlt);
      } else if fn == 0x2B {
        i := i.(op := ISltu);
      } else if fn == 0x0C || fn == 0x0D {
        i := i.(endsBlock := true);
      } else {
        i := i.(endsBlock := !(fn == 0x1A || fn == 0x1B));
      }
      return;
    }
    if 1 <= op <= 7 {
      i := i.(dst := 0);
      i := i.(value := Wrap(Simm(w) * 4));
      if op == 1 {
        if rt != 0 && rt != 1 && rt != 16 && rt != 17 {
          i := i.(endsBlock := true);
          return;
        }
        i := i.(op := if rt % 2 == 1 then IBgez else IBltz);
        i := i.(dst := if rt >= 16 then 31 else 0, right := 0);
      } else if op == 2 || op == 3 {
        i := i.(op := IJump, value := JumpField(w));
        i := i.(dst := if op == 3 then 31 else 0);
      } else if op == 4 {
        i := i.(op := IBeq);
      } else if op == 5 {
        i := i.(op := IBne);
      } else {
        i := i.(op := if op == 6 then IBlez else IBgtz, right := 0);
      }
      return;
    }
    i := i.(immediate := true);
    i := i.(value := Simm(w));
    if 8 <= op <= 11 {
      i := i.(op := [IAddOv, IAdd, ISlt, ISltu][op - 8]);
    } else if 12 <= op <= 14 {
      i := i.(op := [IAnd, IOr, IXor][op - 12], value := Imm(w));
    } else if op == 15 {
      i := i.(op := IConst, value := Wrap(w * 0x1_0000));
    } else if op == 0x20 || op == 0x21 || op == 0x23 || op == 0x24 || op == 0x25 {
      i := i.(op := ILoad);
      i := i.(size := if op == 0x23 then 4 else if op % 2 == 1 then 2 else 1, sign := op < 0x24);
    } else if op == 0x28 || op == 0x29 || op == 0x2B {
      i := i.(op := IStore, dst := 0);
      i := i.(size := if op == 0x2B then 4 else if op == 0x29 then 2 else 1);
    } else if op == 0x22 || op == 0x26 || op == 0x2A || op == 0x2E || op == 0x2F {
      i := i.(immediate := false);
    } else if op == 0x10 {
      i := i.(immediate := false);
      i := i.(endsBlock := rs != 0);
    } else {
      i := i.(immediate := false, endsBlock := true);
    }
  }

  lemma DecodeWellFormed(w: Word)
    ensures WellFormed(Decode(w)) && Decode(w).word == w
  {
  }

  /** An entry that may sit inside a block keeps Status and Cause unless it raises. */
  lemma InlineKeepsStatus(w: Word)
    requires (Decode(w).op.IExec? && !Decode(w).endsBlock) || IsAccess(Decode(w).op)
    ensures KeepsStatus(w)
  {
  }

  lemma SignedZero(s: Word)
    ensures Signed(0) == 0
    ensures Signed(s) < 0 <==> s >= 0x8000_0000
  {
  }

  lemma AluMeaning(env: Env, i: Ir, c: Cpu)
    requires WellFormed(i) && IsAlu(i.op)
    ensures IrExec(env, i, c) == Writes(c, i.dst, AluValue(i.op, c.r[i.left], RightValue(i, c.r)))
  {
  }

  lemma BranchMeaning(env: Env, i: Ir, c: Cpu)
    requires WellFormed(i) && IsBranch(i.op)
    ensures IrExec(env, i, c) == Plain(Branch(c.(r := SetReg(c.r, i.dst, c.nextPc)), BranchTarget(i, c)))
  {
  }

  lemma ShiftPreserves(env: Env, w: Word, c: Cpu)
    requires Op(w) == 0 && Decode(w).op in {IShl, IShr, ISar}
    ensures IrExec(env, Decode(w), c) == Exec(env, w, c)
  {
    hide ShiftLeft, ShiftRight, ShiftArith, RunOther, Raise, Load, Store;
    DecodeWellFormed(w);
    AluMeaning(env, Decode(w), c);
    assert Sa(w) % 32 == Sa(w);
  }

  lemma RegisterJumpPreserves(env: Env, w: Word, c: Cpu)
    requires Op(w) == 0 && Decode(w).op.IJumpr?
    ensures IrExec(env, Decode(w), c) == Exec(env, w, c)
  {
    DecodeWellFormed(w);
    BranchMeaning(env, Decode(w), c);
    assert Fn(w) == 8 || Fn(w) == 9;
    assert c.(r := c.r) == c;
  }

  lemma HiLoPreserves(env: Env, w: Word, c: Cpu)
    requires Op(w) == 0 && Decode(w).op in {IMfhi, IMflo, IMthi, IMtlo}
    ensures IrExec(env, Decode(w), c) == Exec(env, w, c)
  {
    hide RunOther, Raise, Load, Store, Product, HighWord, LowWord;
  }

  lemma MultiplyPreserves(env: Env, w: Word, c: Cpu)
    requires Op(w) == 0 && Decode(w).op in {IMult, IMultu}
    ensures IrExec(env, Decode(w), c) == Exec(env, w, c)
  {
    hide RunOther, Raise, Load, Store, Product, HighWord, LowWord;
  }

  lemma TrappingPreserves(env: Env, w: Word, c: Cpu)
    requires Op(w) == 0 && Decode(w).op in {IAddOv, ISubOv}
    ensures IrExec(env, Decode(w), c) == Exec(env, w, c)
  {
    hide RunOther, Raise, Load, Store, Product, HighWord, LowWord;
  }

  lemma RegisterAluPreserves(env: Env, w: Word, c: Cpu)
    requires Op(w) == 0 && IsAlu(Decode(w).op) && !(Decode(w).op in {IShl, IShr, ISar})
    ensures IrExec(env, Decode(w), c) == Exec(env, w, c)
  {
    hide RunOther, Raise, Load, Store, And, Or, Xor;
    DecodeWellFormed(w);
    AluMeaning(env, Decode(w), c);
  }

  lemma JumpPreserves(env: Env, w: Word, c: Cpu)
    requires 2 <= Op(w) <= 3
    ensures IrExec(env, Decode(w), c) == Exec(env, w, c)
  {
    hide RunOther, Raise, Load, Store, And, Or, Xor;
    DecodeWellFormed(w);
    BranchMeaning(env, Decode(w), c);
    assert c.(r := c.r) == c;
  }

  lemma RegimmPreserves(env: Env, w: Word, c: Cpu)
    requires Op(w) == 1 && IsBranch(Decode(w).op) && c.r[0] == 0
    ensures IrExec(env, Decode(w), c) == Exec(env, w, c)
  {
    hide RunOther, Raise, Load, Store, And, Or, Xor;
    DecodeWellFormed(w);
    BranchMeaning(env, Decode(w), c);
    SignedZero(c.r[Rs(w)]);
    assert c.(r := c.r) == c;
  }

  lemma ComparePreserves(env: Env, w: Word, c: Cpu)
    requires 4 <= Op(w) <= 7 && c.r[0] == 0
    ensures IrExec(env, Decode(w), c) == Exec(env, w, c)
  {
    hide RunOther, Raise, Load, Store, And, Or, Xor;
    DecodeWellFormed(w);
    BranchMeaning(env, Decode(w), c);
    SignedZero(c.r[Rs(w)]);
    assert c.(r := c.r) == c;
  }

  lemma AddImmediatePreserves(env: Env, w: Word, c: Cpu)
    requires 8 <= Op(w) <= 11
    ensures IrExec(env, Decode(w), c) == Exec(env, w, c)
  {
    hide RunOther, Raise, Load, Store, And, Or, Xor;
    DecodeWellFormed(w);
    if Op(w) != 8 {
      AluMeaning(env, Decode(w), c);
    }
  }

  lemma LogicPreserves(env: Env, w: Word, c: Cpu)
    requires 12 <= Op(w) <= 14
    ensures IrExec(env, Decode(w), c) == Exec(env, w, c)
  {
    hide RunOther, Raise, Load, Store, And, Or, Xor;
    DecodeWellFormed(w);
    AluMeaning(env, Decode(w), c);
  }

  lemma UpperImmediate(w: Word)
    ensures Wrap(w * 0x1_0000) == Imm(w) * 0x1_0000
  {
    var q := w / 0x1_0000;
    assert w * 0x1_0000 == q * TWO32 + Imm(w) * 0x1_0000;
  }

  lemma LuiPreserves(env: Env, w: Word, c: Cpu)
    requires Op(w) == 15
    ensures IrExec(env, Decode(w), c) == Exec(env, w, c)
  {
    hide RunOther, Raise, Load, Store, And, Or, Xor, Wrap;
    UpperImmediate(w);
  }

  lemma LoadPreserves(env: Env, w: Word, c: Cpu)
    requires Decode(w).op.ILoad? && Op(w) > 15
    ensures IrExec(env, Decode(w), c) == Exec(env, w, c)
  {
    hide RunOther, Raise, Load, Store, And, Or, Xor, Signed;
    LoadFields(w);
  }

  lemma LoadFields(w: Word)
    requires Decode(w).op.ILoad? && Op(w) > 15
    ensures
      var i := Decode(w);
      && i.word == w && i.left == Rs(w) && i.dst == Rt(w) && i.value == Simm(w)
      && (Op(w) == 0x20 || Op(w) == 0x21 || Op(w) == 0x23 || Op(w) == 0x24 || Op(w) == 0x25)
      && i.size == (if Op(w) == 0x23 then 4 else if Op(w) % 2 == 1 then 2 else 1)
      && i.sign == (Op(w) < 0x24)
  {
  }

  lemma StorePreserves(env: Env, w: Word, c: Cpu)
    requires Decode(w).op.IStore? && Op(w) > 15
    ensures IrExec(env, Decode(w), c) == Exec(env, w, c)
  {
    hide RunOther, Raise, Load, Store, And, Or, Xor, Signed;
    assert Op(w) == 0x28 || Op(w) == 0x29 || Op(w) == 0x2B;
  }

  lemma HelperMeaning(env: Env, i: Ir, c: Cpu)
    requires i.op.IExec?
    ensures IrExec(env, i, c) == Exec(env, i.word, c)
  {
  }

  /** The front end preserves meaning: for every word and every state with $zero
      holding zero, the decoded entry does what the interpreter's exec body does. */
  lemma DecodePreserves(env: Env, w: Word, c: Cpu)
    requires c.r[0] == 0
    ensures WellFormed(Decode(w)) && IrExec(env, Decode(w), c) == Exec(env, w, c)
  {
    DecodeWellFormed(w);
    var op := Decode(w).op;
    if op.IExec? {
      HelperMeaning(env, Decode(w), c);
    } else if Op(w) == 0 {
      SpecialPreserves(env, w, c);
    } else if Op(w) == 1 {
      RegimmPreserves(env, w, c);
    } else if Op(w) <= 3 {
      JumpPreserves(env, w, c);
    } else if Op(w) <= 7 {
      ComparePreserves(env, w, c);
    } else if Op(w) <= 11 {
      AddImmediatePreserves(env, w, c);
    } else if Op(w) <= 14 {
      LogicPreserves(env, w, c);
    } else if Op(w) == 15 {
      LuiPreserves(env, w, c);
    } else if op.ILoad? {
      LoadPreserves(env, w, c);
    } else {
      StorePreserves(env, w, c);
    }
  }

  lemma SpecialPreserves(env: Env, w: Word, c: Cpu)
    requires Op(w) == 0 && !Decode(w).op.IExec?
    ensures IrExec(env, Decode(w), c) == Exec(env, w, c)
  {
    var op := Decode(w).op;
    if op in {IShl, IShr, ISar} {
      ShiftPreserves(env, w, c);
    } else if IsAlu(op) {
      RegisterAluPreserves(env, w, c);
    } else if op.IJumpr? {
      RegisterJumpPreserves(env, w, c);
    } else if op in {IAddOv, ISubOv} {
      TrappingPreserves(env, w, c);
    } else if op in {IMult, IMultu} {
      MultiplyPreserves(env, w, c);
    } else {
      HiLoPreserves(env, w, c);
    }
  }
}
