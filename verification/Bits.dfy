/** The bits of words, and what the operations on words do to them: the reference and both
    back ends share these operations, so that they are pinned here. */
module Bits {
  import opened Words
  import opened Mips

  /** Bit `k` of a number. */
  function Bit(x: nat, k: nat): nat
    decreases k
  {
    if k == 0 then x % 2 else Bit(x / 2, k - 1)
  }

  lemma {:induction false} NoBit(k: nat)
    ensures Bit(0, k) == 0
  {
    if k > 0 {
      NoBit(k - 1);
    }
  }

  /** Taking the low `n` bits keeps exactly those. */
  lemma {:induction false} LowBits(y: nat, n: nat, k: nat)
    ensures Bit(y % Pow2(n), k) == if k < n then Bit(y, k) else 0
    decreases n
  {
    if n == 0 {
      NoBit(k);
    } else {
      ModDouble(y, Pow2(n - 1));
      var z := y % Pow2(n);
      assert z % 2 == y % 2 && z / 2 == (y / 2) % Pow2(n - 1);
      if k > 0 {
        LowBits(y / 2, n - 1, k - 1);
      }
    }
  }

  // ------------------------------------------------------------ logic

  /** And, or and exclusive or work bit by bit. */
  lemma {:induction false} BitwiseBits(a: nat, b: nat, k: nat)
    ensures Bit(Bitwise(BitAnd, a, b), k) == 1 <==> Bit(a, k) == 1 && Bit(b, k) == 1
    ensures Bit(Bitwise(BitOr, a, b), k) == 1 <==> Bit(a, k) == 1 || Bit(b, k) == 1
    ensures Bit(Bitwise(BitXor, a, b), k) == 1 <==> Bit(a, k) != Bit(b, k)
    ensures Bit(a, k) < 2
    decreases k
  {
    BitStep(BitAnd, a, b);
    BitStep(BitOr, a, b);
    BitStep(BitXor, a, b);
    if k > 0 {
      BitwiseBits(a / 2, b / 2, k - 1);
    }
  }

  lemma BitStep(op: BitOp, a: nat, b: nat)
    ensures Bitwise(op, a, b) % 2 == OneBit(op, a % 2, b % 2) && Bitwise(op, a, b) / 2 == Bitwise(op, a / 2, b / 2)
  {
  }

  lemma {:induction false} Complement(x: nat, n: nat, k: nat)
    requires x < Pow2(n) && k < n
    ensures Bit(Pow2(n) - 1 - x, k) == 1 - Bit(x, k)
    decreases n
  {
    var y: nat := Pow2(n) - 1 - x;
    assert Pow2(n) == 2 * Pow2(n - 1);
    assert y % 2 == 1 - x % 2 && y / 2 == Pow2(n - 1) - 1 - x / 2;
    if k > 0 {
      Complement(x / 2, n - 1, k - 1);
    }
  }

  lemma NotBits(a: Word, k: nat)
    requires k < 32
    ensures Bit(Not(a), k) == 1 - Bit(a, k)
  {
    Pow2Of32();
    Complement(a, 32, k);
    hide Pow2, Bit;
  }

  // ------------------------------------------------------------ shifts

  function Halved(x: nat, n: nat): nat
    decreases n
  {
    if n == 0 then x else Halved(x / 2, n - 1)
  }

  lemma {:induction false} HalvedIs(x: nat, n: nat)
    ensures Halved(x, n) == x / Pow2(n)
    decreases n
  {
    if n > 0 {
      HalvedIs(x / 2, n - 1);
      HalfThenRest(x, Pow2(n - 1));
    }
  }

  lemma {:induction false} HalvedBits(x: nat, n: nat, k: nat)
    ensures Bit(Halved(x, n), k) == Bit(x, n + k)
    decreases n
  {
    if n > 0 {
      HalvedBits(x / 2, n - 1, k);
    }
  }

  lemma {:induction false} DoubledBits(x: nat, n: nat, k: nat)
    ensures x * Pow2(n) >= 0 && Bit(x * Pow2(n), k) == if k < n then 0 else Bit(x, k - n)
    decreases n
  {
    if n > 0 {
      DoubledBits(x, n - 1, 0);
      var y: nat := x * Pow2(n - 1);
      assert x * Pow2(n) == 2 * y;
      if k > 0 {
        DoubledBits(x, n - 1, k - 1);
      }
    }
  }

  /** A left shift moves bit k - n to bit k and fills with zeros. */
  lemma LeftShiftBits(v: Word, n: nat, k: nat)
    requires k < 32
    ensures Bit(ShiftLeft(v, n), k) == if k < n then 0 else Bit(v, k - n)
  {
    DoubledBits(v, n, k);
    Pow2Of32();
    LowBits(v * Pow2(n), 32, k);
    hide Pow2, Bit;
  }

  lemma RightShiftIs(v: Word, n: nat)
    ensures ShiftRight(v, n) == Halved(v, n) <= v
  {
    hide Pow2, Halved;
    HalvedIs(v, n);
    HalvedLess(v, n);
  }

  lemma {:induction false} HalvedLess(x: nat, n: nat)
    ensures Halved(x, n) <= x
  {
    if n > 0 {
      HalvedLess(x / 2, n - 1);
    }
  }

  /** A right shift moves bit n + k to bit k. */
  lemma RightShiftBits(v: Word, n: nat, k: nat)
    ensures Bit(ShiftRight(v, n), k) == Bit(v, n + k)
  {
    RightShiftIs(v, n);
    HalvedBits(v, n, k);
  }

  /** An arithmetic shift of a negative word is a logical one of its complement. */
  lemma NegativeShift(v: Word, n: nat)
    requires v >= 0x8000_0000
    ensures ShiftArith(v, n) == Not(ShiftRight(Not(v), n))
  {
    RightShiftIs(Not(v), n);
    HalvedIs(Not(v), n);
    var q: int := ShiftRight(Not(v), n);
    var y: int := Not(v);
    assert Signed(v) == -y - 1;
    FloorOfNegative(y, Pow2(n));
    hide Pow2, Halved;
    ModUnique(-q - 1, TWO32, -1, TWO32 - 1 - q);
  }

  lemma FloorOfNegative(y: int, p: int)
    requires p > 0
    ensures (-y - 1) / p == -(y / p) - 1
  {
    var q, m := y / p, y % p;
    assert y == p * q + m;
    assert p * (-q - 1) == -(p * q) - p;
    ModUnique(-y - 1, p, -q - 1, p - 1 - m);
  }

  lemma {:induction false} HighBitsClear(x: nat, n: nat, k: nat)
    requires x < Pow2(n) && n <= k
    ensures Bit(x, k) == 0
    decreases n
  {
    if n == 0 {
      NoBit(k);
    } else {
      HighBitsClear(x / 2, n - 1, k - 1);
    }
  }

  lemma BeyondWord(v: Word, k: nat)
    requires k >= 32
    ensures Bit(v, k) == 0
  {
    Pow2Of32();
    hide Pow2, Bit;
    HighBitsClear(v, 32, k);
  }

  /** And an arithmetic one fills with the sign. */
  lemma ArithShiftBits(v: Word, n: nat, k: nat)
    requires k < 32
    ensures Bit(ShiftArith(v, n), k) == if n + k < 32 then Bit(v, n + k) else if v >= 0x8000_0000 then 1 else 0
  {
    if v >= 0x8000_0000 {
      NegativeShift(v, n);
      NotBits(ShiftRight(Not(v), n), k);
      RightShiftBits(Not(v), n, k);
      if n + k < 32 {
        NotBits(v, n + k);
      } else {
        BeyondWord(Not(v), n + k);
      }
    } else {
      assert ShiftArith(v, n) == ShiftRight(v, n);
      RightShiftBits(v, n, k);
      if n + k >= 32 {
        BeyondWord(v, n + k);
      }
    }
  }

  // ------------------------------------------------------------ sums, products and extensions

  /** A sum or difference of words is the exact one but for one wrap, and a word is the signed
      number it stands for but for one. */
  lemma SumExact(a: Word, b: Word)
    ensures Add(a, b) == (if a + b < TWO32 then a + b else a + b - TWO32)
    ensures Sub(a, b) == (if a >= b then a - b else a - b + TWO32)
    ensures (Signed(a) == a || Signed(a) == a - TWO32) && -0x8000_0000 <= Signed(a) < 0x8000_0000
  {
    ModUnique(a + b, TWO32, if a + b < TWO32 then 0 else 1, Add(a, b));
    ModUnique(a - b, TWO32, if a >= b then 0 else -1, Sub(a, b));
  }

  /** Hi and lo together are the exact product. */
  lemma ProductExact(s: Word, t: Word)
    ensures
      var p := Product(true, s, t);
      Signed(HighWord(p)) * TWO32 + LowWord(p) == Signed(s) * Signed(t)
    ensures
      var p := Product(false, s, t);
      HighWord(p) * TWO32 + LowWord(p) == s * t
  {
    SignedBound(Signed(s), Signed(t));
    SignedWhole(Signed(s) * Signed(t));
    WordBound(s, t);
    UnsignedWhole(s * t);
  }

  lemma SignedWhole(p: int)
    requires -0x8000_0000 <= p / TWO32 < 0x8000_0000
    ensures Signed(HighWord(p)) * TWO32 + LowWord(p) == p
  {
    Halves(p);
  }

  lemma UnsignedWhole(p: int)
    requires 0 <= p / TWO32 < TWO32
    ensures HighWord(p) * TWO32 + LowWord(p) == p
  {
    Halves(p);
  }

  lemma Halves(p: int)
    ensures p == TWO32 * (p / TWO32) + LowWord(p) && HighWord(p) == Wrap(p / TWO32)
  {
  }

  lemma ProductBound(x: int, y: int, m: int)
    requires 0 <= x <= m && 0 <= y <= m
    ensures 0 <= x * y <= m * m
  {
    assert (m - x) * y >= 0 && m * (m - y) >= 0 && x * y >= 0;
    assert m * m - x * y == (m - x) * y + m * (m - y);
  }

  lemma SignedBound(a: int, b: int)
    requires -0x8000_0000 <= a < 0x8000_0000 && -0x8000_0000 <= b < 0x8000_0000
    ensures -0x8000_0000 <= a * b / TWO32 < 0x8000_0000
  {
    var x, y := if a < 0 then -a else a, if b < 0 then -b else b;
    ProductBound(x, y, 0x8000_0000);
    assert a * b == x * y || a * b == -(x * y) by {
      assert (-a) * b == -(a * b) && a * (-b) == -(a * b) && (-a) * (-b) == a * b;
    }
    QuotientBound(a * b);
  }

  lemma QuotientBound(p: int)
    requires -0x4000_0000_0000_0000 <= p <= 0x4000_0000_0000_0000
    ensures -0x8000_0000 <= p / TWO32 < 0x8000_0000
  {
  }

  lemma WordBound(a: Word, b: Word)
    ensures 0 <= a * b / TWO32 < TWO32
  {
    ProductBound(a, b, TWO32 - 1);
  }

  /** A sign-extended byte or halfword is the number its low bits stand for. */
  lemma ExtendExact(x: Word)
    ensures (SignExtend8(x) - x) % 0x100 == 0 && -0x80 <= Signed(SignExtend8(x)) < 0x80
    ensures (SignExtend16(x) - x) % 0x1_0000 == 0 && -0x8000 <= Signed(SignExtend16(x)) < 0x8000
  {
    ExtendOne(x, 0x100, SignExtend8(x));
    ExtendOne(x, 0x1_0000, SignExtend16(x));
  }

  /** What a load makes of the bytes it read. */
  lemma ExtendMeans(size: nat, sign: bool, v: Word)
    requires AccessSize(size) && (size == 1 ==> v < 0x100) && (size == 2 ==> v < 0x1_0000)
    ensures
      var loaded := Extend(size, sign, v);
      if !sign || size == 4 then loaded == v
      else if size == 1 then Signed(loaded) == (if v < 0x80 then v else v - 0x100)
      else Signed(loaded) == (if v < 0x8000 then v else v - 0x1_0000)
  {
    assert v % 0x1_0000 == v || size == 4;
  }

  lemma ExtendOne(x: Word, unit: nat, y: Word)
    requires unit == 0x100 || unit == 0x1_0000
    requires y == x % unit || y == x % unit + TWO32 - unit
    ensures (y - x) % unit == 0
  {
    var q := x / unit;
    assert x == unit * q + x % unit;
    if y == x % unit {
      ModUnique(y - x, unit, -q, 0);
    } else if unit == 0x100 {
      ModUnique(y - x, unit, 0xFF_FFFF - q, 0);
    } else {
      ModUnique(y - x, unit, 0xFFFF - q, 0);
    }
  }

  // ------------------------------------------------------------ memory

  /** What was stored is loaded again, and no other byte changed. */
  lemma StoredBack(mem: seq<Byte>, at: nat, size: nat, v: Word)
    requires AccessSize(size) && at + size <= |mem| && (size == 1 ==> v < 0x100) && (size == 2 ==> v < 0x1_0000)
    ensures
      var mem' := StoreBE(mem, at, size, v);
      && LoadBE(mem', at, size) == v
      && mem'[..at] == mem[..at] && mem'[at + size..] == mem[at + size..]
  {
    var mem' := StoreBE(mem, at, size, v);
    if size == 4 {
      Word4Back(v);
      assert mem'[at] == Word4(v)[0] && mem'[at + 1] == Word4(v)[1];
      assert mem'[at + 2] == Word4(v)[2] && mem'[at + 3] == Word4(v)[3];
      assert LoadBE(mem', at, 4) == LoadBE(Word4(v), 0, 4);
    }
  }
}
