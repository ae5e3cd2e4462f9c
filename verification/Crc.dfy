/** The three checksums the link and network code computes: the table-driven CRC-32 of the
    PC link, the bitwise Ethernet CRC, and the multicast hash, which shifts the other way.
    They are one polynomial division seen three ways (section 3.2.9 of IEEE 802.3-2018). */
module Crc {

  const POLY: bv32 := 0xEDB8_8320
  const MIRRORED_POLY: bv32 := 0x04C1_1DB7

  // ------------------------------------------------------------ the reflected division

  /** One bit of it. */
  function Shift1(c: bv32): bv32 {
    (c >> 1) ^ (if c & 1 == 1 then POLY else 0)
  }

  function Shift8(c: bv32): bv32 {
    Shift1(Shift1(Shift1(Shift1(Shift1(Shift1(Shift1(Shift1(c))))))))
  }

  function ShiftBy(c: bv32, n: nat): bv32 {
    if n == 0 then c else Shift1(ShiftBy(c, n - 1))
  }

  /** A data byte enters at the low end. */
  function Mix(c: bv32, d: bv8): bv32 {
    c ^ (d as bv32)
  }

  /** The register after `data`. */
  function Register(data: seq<bv8>): bv32
    decreases |data|
  {
    if data == [] then 0xFFFF_FFFF else Shift8(Mix(Register(data[..|data| - 1]), data[|data| - 1]))
  }

  lemma ShiftsAre8(c: bv32)
    ensures ShiftBy(c, 8) == Shift8(c)
  {
    hide Shift1;
    assert ShiftBy(c, 0) == c;
    assert ShiftBy(c, 2) == Shift1(Shift1(ShiftBy(c, 0)));
    assert ShiftBy(c, 4) == Shift1(Shift1(ShiftBy(c, 2)));
    assert ShiftBy(c, 6) == Shift1(Shift1(ShiftBy(c, 4)));
  }

  lemma RegisterNext(data: seq<bv8>, i: nat)
    requires i < |data|
    ensures Register(data[..i + 1]) == Shift8(Mix(Register(data[..i]), data[i]))
  {
    hide Shift8, Mix;
    assert data[..i + 1][..i] == data[..i];
  }

  // ------------------------------------------------------------ by table

  function Low(c: bv32): bv32 { c & 0xFF }
  function Down(c: bv32): bv32 { c >> 8 }
  function Join(a: bv32, b: bv32): bv32 { a ^ b }

  /** Dividing by a byte at a time with a table is dividing bit by bit: the high bytes only
      move down. */
  lemma TableStep(c: bv32)
    ensures Shift8(c) == Join(Shift8(Low(c)), Down(c))
  {
  }

  lemma MixKeepsHigh(c: bv32, d: bv8)
    ensures Down(Mix(c, d)) == Down(c)
  {
  }

  function Index(c: bv32): (k: nat)
    ensures k < 256
  {
    LowIsByte(c);
    Low(c) as nat
  }

  lemma LowIsByte(c: bv32)
    ensures Low(c) as int < 256
  {
    assert Low(c) <= 0xFF;
  }

  lemma IndexBack(c: bv32)
    ensures Index(c) as bv32 == Low(c)
  {
    hide Low;
  }

  /** The table holds what eight shifts make of each byte. */
  predicate IsTable(table: seq<bv32>) {
    |table| == 256 && forall j: nat :: j < 256 ==> table[j] == Shift8(j as bv32)
  }

  lemma TableByte(table: seq<bv32>, c: bv32, d: bv8)
    requires IsTable(table)
    ensures Join(table[Index(Mix(c, d))], Down(c)) == Shift8(Mix(c, d))
  {
    hide Shift8, Low, Down, Join, Mix, Index;
    IndexBack(Mix(c, d));
    TableStep(Mix(c, d));
    MixKeepsHigh(c, d);
  }

  method TableEntry(i: bv32) returns (t: bv32)
    ensures t == Shift8(i)
  {
    hide Shift1, Shift8;
    t := i;
    for k := 0 to 8
      invariant t == ShiftBy(i, k)
    {
      OneShift(t);
      t := if t & 1 == 1 then POLY ^ (t >> 1) else t >> 1;
    }
    ShiftsAre8(i);
  }

  lemma OneShift(t: bv32)
    ensures Shift1(t) == if t & 1 == 1 then POLY ^ (t >> 1) else t >> 1
  {
  }

  method Crc32Of(data: seq<bv8>) returns (c: bv32)
    ensures c == Register(data)
  {
    hide Shift8, Low, Down, Join, Mix, Index;
    var table := new bv32[256];
    for i := 0 to 256
      invariant forall j: nat :: j < i ==> table[j] == Shift8(j as bv32)
    {
      var t := TableEntry(i as bv32);
      table[i] := t;
    }
    ghost var filled := table[..];
    assert IsTable(filled);
    c := 0xFFFF_FFFF;
    assert data[..0] == [];
    for i := 0 to |data|
      invariant c == Register(data[..i]) && table[..] == filled
    {
      RegisterNext(data, i);
      TableByte(filled, c, data[i]);
      assert table[Index(Mix(c, data[i]))] == filled[Index(Mix(c, data[i]))];
      c := Join(table[Index(Mix(c, data[i]))], Down(c));
    }
    assert data[..|data|] == data;
  }

  // ------------------------------------------------------------ bit by bit

  method ShiftByte(c: bv32) returns (crc: bv32)
    ensures crc == Shift8(c)
  {
    hide Shift1, Shift8;
    crc := c;
    for b := 0 to 8
      invariant crc == ShiftBy(c, b)
    {
      crc := Shift1(crc);
    }
    ShiftsAre8(c);
  }

  function Complement(c: bv32): bv32 { !c }

  method EthernetCrc(data: seq<bv8>) returns (crc: bv32)
    ensures crc == Complement(Register(data))
  {
    hide Shift8, Mix, Complement;
    crc := 0xFFFF_FFFF;
    assert data[..0] == [];
    for i := 0 to |data|
      invariant crc == Register(data[..i])
    {
      RegisterNext(data, i);
      crc := ShiftByte(Mix(crc, data[i]));
    }
    assert data[..|data|] == data;
    crc := Complement(crc);
  }

  lemma Complements(c: bv32)
    ensures Complement(Complement(c)) == c
  {
  }

  /** The PC link's checksum is the Ethernet one without its final complement. */
  method BothCrcs(data: seq<bv8>) returns (link: bv32, ethernet: bv32)
    ensures link == Complement(ethernet) && ethernet == Complement(link)
  {
    hide Register, Complement;
    link := Crc32Of(data);
    ethernet := EthernetCrc(data);
    Complements(link);
  }

  // ------------------------------------------------------------ the residue

  function Octet(c: bv32, k: bv6): bv8
    requires k <= 24
  {
    ((c >> k) & 0xFF) as bv8
  }

  /** The four octets of a check sequence, low one first. */
  function Trailer(c: bv32): seq<bv8> {
    [Octet(c, 0), Octet(c, 8), Octet(c, 16), Octet(c, 24)]
  }

  const RESIDUE: bv32 := 0xDEBB_20E3

  lemma RegisterMore(data: seq<bv8>, d: bv8)
    ensures Register(data + [d]) == Shift8(Mix(Register(data), d))
  {
    hide Shift8, Mix;
    assert (data + [d])[..|data|] == data;
  }

  lemma ResidueStep(c: bv32)
    ensures Shift8(Mix(Shift8(Mix(Shift8(Mix(Shift8(Mix(c, Octet(!c, 0))), Octet(!c, 8))), Octet(!c, 16))),
                       Octet(!c, 24))) == RESIDUE
  {
  }

  /** Data followed by its complemented register, low octet first, always leaves the same
      register. */
  lemma Residue(data: seq<bv8>)
    ensures Register(data + Trailer(Complement(Register(data)))) == RESIDUE
  {
    hide Shift8, Mix, Octet;
    var c := Register(data);
    var t := Trailer(Complement(c));
    RegisterMore(data, t[0]);
    RegisterMore(data + t[..1], t[1]);
    RegisterMore(data + t[..2], t[2]);
    RegisterMore(data + t[..3], t[3]);
    assert data + t[..1] == data + [t[0]] && data + t[..2] == data + t[..1] + [t[1]];
    assert data + t[..3] == data + t[..2] + [t[2]] && data + t == data + t[..3] + [t[3]];
    ResidueStep(c);
  }

  /** The check value of the polynomial: the digits 1 to 9. */
  lemma CheckValue()
    ensures Complement(Register([0x31, 0x32, 0x33, 0x34, 0x35, 0x36, 0x37, 0x38, 0x39])) == 0xCBF4_3926
  {
    hide Shift8, Mix;
    Digits();
    var d: seq<bv8> := [0x31, 0x32, 0x33, 0x34, 0x35, 0x36, 0x37, 0x38, 0x39];
    assert d[..0] == [] && d[..9] == d;
    assert Register(d[..0]) == 0xFFFF_FFFF;
    hide Register;
    RegisterNext(d, 0);
    RegisterNext(d, 1);
    RegisterNext(d, 2);
    RegisterNext(d, 3);
    RegisterNext(d, 4);
    RegisterNext(d, 5);
    RegisterNext(d, 6);
    RegisterNext(d, 7);
    RegisterNext(d, 8);
  }

  lemma Digits()
    ensures Shift8(Mix(0xFFFF_FFFF, 0x31)) == 0x7C23_1048
    ensures Shift8(Mix(0x7C23_1048, 0x32)) == 0xB0AC_BB32
    ensures Shift8(Mix(0xB0AC_BB32, 0x33)) == 0x77B7_9C2D
    ensures Shift8(Mix(0x77B7_9C2D, 0x34)) == 0x641C_1F5C
    ensures Shift8(Mix(0x641C_1F5C, 0x35)) == 0x340A_C5E3
    ensures Shift8(Mix(0x340A_C5E3, 0x36)) == 0xF68D_2C9E
    ensures Shift8(Mix(0xF68D_2C9E, 0x37)) == 0xAFFC_9660
    ensures Shift8(Mix(0xAFFC_9660, 0x38)) == 0x651F_2550
    ensures Shift8(Mix(0x651F_2550, 0x39)) == 0x340B_C6D9
  {
  }

  // ------------------------------------------------------------ the multicast hash

  predicate Mirrored0(x: bv32, y: bv32) {
    && (x & 0x1 != 0 <==> y & 0x80000000 != 0)
    && (x & 0x2 != 0 <==> y & 0x40000000 != 0)
    && (x & 0x4 != 0 <==> y & 0x20000000 != 0)
    && (x & 0x8 != 0 <==> y & 0x10000000 != 0)
    && (x & 0x10 != 0 <==> y & 0x8000000 != 0)
    && (x & 0x20 != 0 <==> y & 0x4000000 != 0)
    && (x & 0x40 != 0 <==> y & 0x2000000 != 0)
    && (x & 0x80 != 0 <==> y & 0x1000000 != 0)
  }

  predicate Mirrored1(x: bv32, y: bv32) {
    && (x & 0x100 != 0 <==> y & 0x800000 != 0)
    && (x & 0x200 != 0 <==> y & 0x400000 != 0)
    && (x & 0x400 != 0 <==> y & 0x200000 != 0)
    && (x & 0x800 != 0 <==> y & 0x100000 != 0)
    && (x & 0x1000 != 0 <==> y & 0x80000 != 0)
    && (x & 0x2000 != 0 <==> y & 0x40000 != 0)
    && (x & 0x4000 != 0 <==> y & 0x20000 != 0)
    && (x & 0x8000 != 0 <==> y & 0x10000 != 0)
  }

  predicate Mirrored2(x: bv32, y: bv32) {
    && (x & 0x10000 != 0 <==> y & 0x8000 != 0)
    && (x & 0x20000 != 0 <==> y & 0x4000 != 0)
    && (x & 0x40000 != 0 <==> y & 0x2000 != 0)
    && (x & 0x80000 != 0 <==> y & 0x1000 != 0)
    && (x & 0x100000 != 0 <==> y & 0x800 != 0)
    && (x & 0x200000 != 0 <==> y & 0x400 != 0)
    && (x & 0x400000 != 0 <==> y & 0x200 != 0)
    && (x & 0x800000 != 0 <==> y & 0x100 != 0)
  }

  predicate Mirrored3(x: bv32, y: bv32) {
    && (x & 0x1000000 != 0 <==> y & 0x80 != 0)
    && (x & 0x2000000 != 0 <==> y & 0x40 != 0)
    && (x & 0x4000000 != 0 <==> y & 0x20 != 0)
    && (x & 0x8000000 != 0 <==> y & 0x10 != 0)
    && (x & 0x10000000 != 0 <==> y & 0x8 != 0)
    && (x & 0x20000000 != 0 <==> y & 0x4 != 0)
    && (x & 0x40000000 != 0 <==> y & 0x2 != 0)
    && (x & 0x80000000 != 0 <==> y & 0x1 != 0)
  }

  /** `y` is `x` with its bits in the opposite order. */
  predicate Mirrored(x: bv32, y: bv32) {
    Mirrored0(x, y) && Mirrored1(x, y) && Mirrored2(x, y) && Mirrored3(x, y)
  }

  function Left(x: bv32): bv32 { x << 1 }
  function Right(x: bv32): bv32 { x >> 1 }
  predicate Top(x: bv32) { x & 0x8000_0000 != 0 }
  predicate Bottom(x: bv32) { x & 1 != 0 }

  /** One bit of the division that shifts left. */
  function ShiftLeft1(c: bv32, bit: bool): bv32 {
    Join(Left(c), if Top(c) != bit then MIRRORED_POLY else 0)
  }

  /** One bit of the reflected division, fed a data bit. */
  function ShiftIn(c: bv32, bit: bool): bv32 {
    Join(Right(c), if Bottom(c) != bit then POLY else 0)
  }

  lemma MirrorShift(x: bv32, y: bv32)
    requires Mirrored(x, y)
    ensures Mirrored(Left(x), Right(y))
  {
  }

  lemma MirrorXor0(x: bv32, y: bv32, x1: bv32, y1: bv32)
    requires Mirrored0(x, y) && Mirrored0(x1, y1)
    ensures Mirrored0(x ^ x1, y ^ y1)
  {
  }

  lemma MirrorXor1(x: bv32, y: bv32, x1: bv32, y1: bv32)
    requires Mirrored1(x, y) && Mirrored1(x1, y1)
    ensures Mirrored1(x ^ x1, y ^ y1)
  {
  }

  lemma MirrorXor2(x: bv32, y: bv32, x1: bv32, y1: bv32)
    requires Mirrored2(x, y) && Mirrored2(x1, y1)
    ensures Mirrored2(x ^ x1, y ^ y1)
  {
  }

  lemma MirrorXor3(x: bv32, y: bv32, x1: bv32, y1: bv32)
    requires Mirrored3(x, y) && Mirrored3(x1, y1)
    ensures Mirrored3(x ^ x1, y ^ y1)
  {
  }

  lemma MirrorJoin(x: bv32, y: bv32, x1: bv32, y1: bv32)
    requires Mirrored(x, y) && Mirrored(x1, y1)
    ensures Mirrored(Join(x, x1), Join(y, y1))
  {
    hide Mirrored0, Mirrored1, Mirrored2, Mirrored3;
    MirrorXor0(x, y, x1, y1);
    MirrorXor1(x, y, x1, y1);
    MirrorXor2(x, y, x1, y1);
    MirrorXor3(x, y, x1, y1);
  }

  lemma MirrorConstants()
    ensures Mirrored(MIRRORED_POLY, POLY) && Mirrored(0, 0) && Mirrored(0xFFFF_FFFF, 0xFFFF_FFFF)
  {
  }

  lemma MirrorEnds(x: bv32, y: bv32)
    requires Mirrored(x, y)
    ensures Top(x) == Bottom(y)
  {
  }

  /** The two divisions mirror each other at every step. */
  lemma MirrorStep(x: bv32, y: bv32, bit: bool)
    requires Mirrored(x, y)
    ensures Mirrored(ShiftLeft1(x, bit), ShiftIn(y, bit))
  {
    hide Mirrored, Left, Right, Top, Bottom, Join;
    MirrorShift(x, y);
    MirrorConstants();
    MirrorEnds(x, y);
    MirrorJoin(Left(x), Right(y), MIRRORED_POLY, POLY);
    MirrorJoin(Left(x), Right(y), 0, 0);
  }

  // ------------------------------------------------------------ a byte at a time

  function RightBy(e: bv32, n: nat): bv32 {
    if n == 0 then e else Right(RightBy(e, n - 1))
  }

  /** The reflected register after the low `n` bits of `e`, fed one at a time. */
  function Fed(c: bv32, e: bv32, n: nat): bv32 {
    if n == 0 then c else ShiftIn(Fed(c, e, n - 1), Bottom(RightBy(e, n - 1)))
  }

  lemma RightJoin(a: bv32, b: bv32)
    ensures Right(Join(a, b)) == Join(Right(a), Right(b)) && Bottom(Join(a, b)) == (Bottom(a) != Bottom(b))
  {
  }

  lemma ShiftIsJoin(c: bv32)
    ensures Shift1(c) == Join(Right(c), if Bottom(c) then POLY else 0)
  {
  }

  lemma JoinCommutes(a: bv32, b: bv32)
    ensures Join(a, b) == Join(b, a)
  {
  }

  lemma JoinAssociates(a: bv32, b: bv32, p: bv32)
    ensures Join(Join(a, b), p) == Join(a, Join(b, p))
  {
  }

  lemma JoinSwaps(a: bv32, b: bv32, p: bv32)
    ensures Join(Join(a, b), p) == Join(Join(a, p), b)
  {
    hide Join;
    JoinAssociates(a, b, p);
    JoinAssociates(a, p, b);
    JoinCommutes(b, p);
  }

  lemma FeedStep(c: bv32, e: bv32)
    ensures Shift1(Join(c, e)) == Join(ShiftIn(c, Bottom(e)), Right(e))
  {
    hide Shift1, Join, Bottom, Right;
    RightJoin(c, e);
    ShiftIsJoin(Join(c, e));
    JoinSwaps(Right(c), Right(e), if Bottom(c) != Bottom(e) then POLY else 0);
  }

  /** Mixing a byte in at once and feeding its bits one by one differ by the bits to come. */
  lemma {:induction false} FeedIs(c: bv32, e: bv32, n: nat)
    ensures ShiftBy(Join(c, e), n) == Join(Fed(c, e, n), RightBy(e, n))
  {
    hide Shift1, Join, ShiftIn, Bottom, Right;
    if n > 0 {
      FeedIs(c, e, n - 1);
      FeedStep(Fed(c, e, n - 1), RightBy(e, n - 1));
    }
  }

  lemma ByteRunsOut(d: bv8)
    ensures RightBy(d as bv32, 8) == 0
  {
    assert RightBy(d as bv32, 2) == Right(Right(RightBy(d as bv32, 0)));
    assert RightBy(d as bv32, 4) == Right(Right(RightBy(d as bv32, 2)));
    assert RightBy(d as bv32, 6) == Right(Right(RightBy(d as bv32, 4)));
    assert RightBy(d as bv32, 8) == Right(Right(RightBy(d as bv32, 6)));
    ShiftsOut(d);
  }

  lemma ShiftsOut(d: bv8)
    ensures
      var e := d as bv32;
      Right(Right(Right(Right(Right(Right(Right(Right(e)))))))) == 0
  {
  }

  lemma JoinZero(x: bv32)
    ensures Join(x, 0) == x
  {
  }

  lemma FeedByte(c: bv32, d: bv8)
    ensures Fed(c, d as bv32, 8) == Shift8(Mix(c, d))
  {
    hide Shift1, Shift8, Join, ShiftIn, Right;
    MixIsJoin(c, d);
    FeedIs(c, d as bv32, 8);
    ByteRunsOut(d);
    ShiftsAre8(Mix(c, d));
    JoinZero(Fed(c, d as bv32, 8));
  }

  lemma MixIsJoin(c: bv32, d: bv8)
    ensures Mix(c, d) == Join(c, d as bv32)
  {
  }

  /** Bit i of a hash is bit 5 - i of the register. */
  predicate Reversed6(hash: bv32, y: bv32) {
    && hash < 64
    && (hash & 1 != 0 <==> y & 32 != 0) && (hash & 2 != 0 <==> y & 16 != 0) && (hash & 4 != 0 <==> y & 8 != 0)
    && (hash & 8 != 0 <==> y & 4 != 0) && (hash & 16 != 0 <==> y & 2 != 0) && (hash & 32 != 0 <==> y & 1 != 0)
  }

  function TopSix(c: bv32): bv32 { c >> 26 }

  /** The low six bits of a register, reversed. */
  function Reverse6(y: bv32): bv32 {
    ((y & 1) << 5) | ((y & 2) << 3) | ((y & 4) << 1) | ((y & 8) >> 1) | ((y & 16) >> 3) | ((y & 32) >> 5)
  }

  lemma Reverse6Is(y: bv32)
    ensures Reversed6(Reverse6(y), y)
  {
  }

  lemma Reversed6Unique(a: bv32, b: bv32, y: bv32)
    requires Reversed6(a, y) && Reversed6(b, y)
    ensures a == b
  {
  }

  lemma TopSixReversed(x: bv32, y: bv32)
    requires Mirrored(x, y)
    ensures Reversed6(TopSix(x), y)
  {
  }

  /** The multicast hash is the bit reversal of the low six bits of the CRC register. */
  method MulticastHash(mac: seq<bv8>) returns (hash: bv32)
    ensures hash == Reverse6(Register(mac)) && Reversed6(hash, Register(mac))
  {
    hide Reverse6, Shift1, Shift8, Mix, Mirrored, ShiftLeft1, ShiftIn, Bottom, Right, TopSix, Reversed6, Top, Join,
         Left;
    var crc: bv32 := 0xFFFF_FFFF;
    ghost var y: bv32 := 0xFFFF_FFFF;
    MirrorConstants();
    assert mac[..0] == [];
    for i := 0 to |mac|
      invariant y == Register(mac[..i]) && Mirrored(crc, y)
    {
      var byte := mac[i] as bv32;
      ghost var y0 := y;
      for b := 0 to 8
        invariant byte == RightBy(mac[i] as bv32, b) && y == Fed(y0, mac[i] as bv32, b) && Mirrored(crc, y)
      {
        var carry := Top(crc) != Bottom(byte);
        MirrorStep(crc, y, Bottom(byte));
        y := ShiftIn(y, Bottom(byte));
        CarryIs(crc, Bottom(byte));
        crc := Left(crc);
        if carry {
          crc := Join(crc, MIRRORED_POLY);
        }
        byte := Right(byte);
      }
      FeedByte(y0, mac[i]);
      RegisterNext(mac, i);
    }
    assert mac[..|mac|] == mac;
    TopSixReversed(crc, y);
    hash := TopSix(crc);
    Reverse6Is(y);
    Reversed6Unique(hash, Reverse6(y), y);
  }

  lemma CarryIs(c: bv32, bit: bool)
    ensures ShiftLeft1(c, bit) == if Top(c) != bit then Join(Left(c), MIRRORED_POLY) else Left(c)
  {
    hide Join, Left, Top;
    JoinZero(Left(c));
  }
}
