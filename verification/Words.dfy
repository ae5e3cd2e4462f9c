/** Machine words, bytes and the bit operations the emulator's C code applies to them.
    A word is an `int` in range, so wrap-around, truncation and sign extension are
    written out wherever the source relies on them. */
module Words {

  const TWO32: int := 0x1_0000_0000

  type Byte = n: int | 0 <= n < 0x100
  type Word = n: int | 0 <= n < 0x1_0000_0000
  type Reg = n: int | 0 <= n < 32

  /** Truncation to 32 bits, as every `uint32_t` operation does. */
  function Wrap(x: int): Word {
    x % TWO32
  }

  function Add(a: int, b: int): Word {
    Wrap(a + b)
  }

  function Sub(a: int, b: int): Word {
    Wrap(a - b)
  }

  function Signed(w: Word): int {
    if w < 0x8000_0000 then w else w - TWO32
  }

  function SignExtend16(x: int): Word {
    var h := x % 0x1_0000;
    if h < 0x8000 then h else h + 0xFFFF_0000
  }

  function SignExtend8(x: int): Word {
    var h := x % 0x100;
    if h < 0x80 then h else h + 0xFFFF_FF00
  }

  function Pow2(n: nat): (p: nat)
    ensures p > 0
  {
    if n == 0 then 1 else 2 * Pow2(n - 1)
  }

  datatype BitOp = BitAnd | BitOr | BitXor

  /** One bit of a bitwise operation. */
  function OneBit(op: BitOp, a: int, b: int): int {
    match op
    case BitAnd => if a == 1 && b == 1 then 1 else 0
    case BitOr => if a == 1 || b == 1 then 1 else 0
    case BitXor => if a == b then 0 else 1
  }

  /** Bitwise operation, bit by bit from the low end. */
  function Bitwise(op: BitOp, a: nat, b: nat): nat
    decreases a + b
  {
    if a == 0 && b == 0 then 0
    else OneBit(op, a % 2, b % 2) + 2 * Bitwise(op, a / 2, b / 2)
  }

  lemma {:induction false} BitwiseBound(op: BitOp, a: nat, b: nat, n: nat)
    requires a < Pow2(n) && b < Pow2(n)
    ensures Bitwise(op, a, b) < Pow2(n)
  {
    if n > 0 {
      BitwiseBound(op, a / 2, b / 2, n - 1);
    }
  }

  lemma Pow2Of32()
    ensures Pow2(32) == TWO32
  {
    assert Pow2(8) == 256;
    assert Pow2(16) == 0x1_0000;
    assert Pow2(24) == 0x100_0000;
  }

  function And(a: Word, b: Word): Word {
    Pow2Of32(); BitwiseBound(BitAnd, a, b, 32);
    Bitwise(BitAnd, a, b)
  }

  function Or(a: Word, b: Word): Word {
    Pow2Of32(); BitwiseBound(BitOr, a, b, 32);
    Bitwise(BitOr, a, b)
  }

  function Xor(a: Word, b: Word): Word {
    Pow2Of32(); BitwiseBound(BitXor, a, b, 32);
    Bitwise(BitXor, a, b)
  }

  function Not(a: Word): Word {
    TWO32 - 1 - a
  }

  /** And with a power of two picks out one bit; or with it sets that bit. */
  lemma {:induction false} OneBitOnly(v: nat, n: nat)
    ensures Bitwise(BitAnd, v, Pow2(n)) == if v / Pow2(n) % 2 == 1 then Pow2(n) else 0
    ensures Bitwise(BitOr, v, Pow2(n)) == if v / Pow2(n) % 2 == 1 then v else v + Pow2(n)
    decreases n
  {
    if n == 0 {
      BitAndZero(v / 2);
      BitOrZero(v / 2);
    } else {
      OneBitOnly(v / 2, n - 1);
      HalfThenRest(v, Pow2(n - 1));
    }
  }

  lemma {:induction false} BitOrZero(a: nat)
    ensures Bitwise(BitOr, a, 0) == a
  {
    if a > 0 {
      BitOrZero(a / 2);
    }
  }

  lemma HalfThenRest(x: nat, p: nat)
    requires p > 0
    ensures x / (2 * p) == x / 2 / p
  {
    var q, m := x / 2 / p, x / 2 % p;
    assert x / 2 == p * q + m;
    assert (2 * p) * q == 2 * (p * q);
    ModUnique(x, 2 * p, q, x % 2 + 2 * m);
  }

  lemma {:induction false} BitAndSelf(a: nat)
    ensures Bitwise(BitAnd, a, a) == a
  {
    if a > 0 {
      BitAndSelf(a / 2);
    }
  }

  lemma {:induction false} BitAndZero(a: nat)
    ensures Bitwise(BitAnd, a, 0) == 0
    ensures Bitwise(BitAnd, 0, a) == 0
  {
    if a > 0 {
      BitAndZero(a / 2);
    }
  }

  lemma {:induction false} MulGap(d: int, x: int, y: int)
    requires d >= 0 && x < y
    ensures d * x + d <= d * y
    decreases y - x
  {
    assert d * (y - 1) + d == d * y;
    if x < y - 1 {
      MulGap(d, x, y - 1);
    }
  }

  /** Quotient and remainder are the only pair of their kind. */
  lemma ModUnique(a: int, d: int, q: int, m: int)
    requires d > 0 && 0 <= m < d && a == d * q + m
    ensures a % d == m && a / d == q
  {
    var q' := a / d;
    assert d * q' <= a < d * q' + d;
    if q < q' {
      MulGap(d, q, q');
    } else if q' < q {
      MulGap(d, q', q);
    }
  }

  lemma ModDouble(a: nat, h: nat)
    requires h > 0
    ensures a % (2 * h) == a % 2 + 2 * ((a / 2) % h)
  {
    var q, m := (a / 2) / h, (a / 2) % h;
    assert a / 2 == h * q + m;
    assert (2 * h) * q == 2 * (h * q);
    ModUnique(a, 2 * h, q, a % 2 + 2 * m);
  }

  /** `len & (len - 1) == 0` is the source's power-of-two test; for such a length the
      mask `off & (len - 1)` is the remainder. */
  lemma {:induction false} MaskIsRemainder(off: nat, len: nat)
    requires len > 0 && Bitwise(BitAnd, len, len - 1) == 0
    ensures Bitwise(BitAnd, off, len - 1) == off % len
    decreases len
  {
    if len == 1 {
      BitAndZero(off);
    } else {
      var h := len / 2;
      if len % 2 == 1 {
        BitAndSelf(h);
        assert false;
      }
      assert (len - 1) / 2 == h - 1 && (len - 1) % 2 == 1;
      MaskIsRemainder(off / 2, h);
      ModDouble(off, h);
    }
  }

  /** Big-endian assembly of one, two or four bytes. */
  function LoadBE(mem: seq<Byte>, at: nat, size: nat): Word
    requires size == 1 || size == 2 || size == 4
    requires at + size <= |mem|
  {
    var b0: int := mem[at];
    if size == 1 then b0
    else
      var b1: int := mem[at + 1];
      if size == 2 then b0 * 0x100 + b1
      else
        var b2: int, b3: int := mem[at + 2], mem[at + 3];
        b0 * 0x100_0000 + b1 * 0x1_0000 + b2 * 0x100 + b3
  }

  function StoreBE(mem: seq<Byte>, at: nat, size: nat, v: Word): (mem': seq<Byte>)
    requires size == 1 || size == 2 || size == 4
    requires at + size <= |mem|
    ensures |mem'| == |mem|
  {
    if size == 4 then
      mem[at := v / 0x100_0000][at + 1 := (v / 0x1_0000) % 0x100]
         [at + 2 := (v / 0x100) % 0x100][at + 3 := v % 0x100]
    else if size == 2 then mem[at := (v / 0x100) % 0x100][at + 1 := v % 0x100]
    else mem[at := v % 0x100]
  }

  /** A word as four bytes, high first. */
  function Word4(w: Word): (r: seq<Byte>)
    ensures |r| == 4
  {
    [w / 0x100_0000, (w / 0x1_0000) % 0x100, (w / 0x100) % 0x100, w % 0x100]
  }

  lemma Word4Back(w: Word)
    ensures LoadBE(Word4(w), 0, 4) == w
  {
    assert w == (w / 0x100) * 0x100 + w % 0x100;
    assert w / 0x100 == (w / 0x1_0000) * 0x100 + (w / 0x100) % 0x100;
    assert w / 0x1_0000 == (w / 0x100_0000) * 0x100 + (w / 0x1_0000) % 0x100;
  }
}
