/** Bits of bytes, and bit maps stored eight to a byte, low bit first. */
module ByteBits {
  function Mask(k: nat): (m: bv8)
    requires k < 8
    ensures m == (if k == 0 then 1 else if k == 1 then 2 else if k == 2 then 4 else if k == 3 then 8
                  else if k == 4 then 16 else if k == 5 then 32 else if k == 6 then 64 else 128)
  {
    1 << (k as bv4)
  }

  /** Bit `k` of a byte. */
  predicate Bit(b: bv8, k: nat)
    requires k < 8
  {
    b & Mask(k) != 0
  }

  function Put(b: bv8, k: nat, bit: bool): bv8
    requires k < 8
  {
    if bit then b | Mask(k) else b & !Mask(k)
  }

  lemma MasksApart(k: nat, j: nat)
    requires k < 8 && j < 8
    ensures Mask(k) & Mask(j) == if k == j then Mask(k) else 0
    ensures Mask(k) != 0
  {
  }

  lemma MaskedOut(b: bv8, m: bv8, n: bv8)
    requires m & n == 0
    ensures (b | m) & n == b & n && (b & !m) & n == b & n
  {
  }

  lemma MaskedIn(b: bv8, m: bv8)
    ensures (b | m) & m == m && (b & !m) & m == 0
  {
  }

  lemma PutBit(b: bv8, k: nat, bit: bool, j: nat)
    requires k < 8 && j < 8
    ensures Bit(Put(b, k, bit), j) == if j == k then bit else Bit(b, j)
  {
    hide Mask;
    MasksApart(k, j);
    if k == j {
      MaskedIn(b, Mask(k));
    } else {
      MaskedOut(b, Mask(k), Mask(j));
    }
  }

  /** The bits of the bytes, in order. */
  ghost function Unpack(bytes: seq<bv8>): (r: seq<bool>)
    ensures |r| == 8 * |bytes|
  {
    seq(8 * |bytes|, k requires 0 <= k < 8 * |bytes| => Bit(bytes[k / 8], k % 8))
  }

  /** Storing one bit changes that bit of the map and no other. */
  lemma StoreBit(bytes: seq<bv8>, p: nat, bit: bool)
    requires p < 8 * |bytes|
    ensures Unpack(bytes[p / 8 := Put(bytes[p / 8], p % 8, bit)]) == Unpack(bytes)[p := bit]
  {
    hide Bit, Put;
    var r := bytes[p / 8 := Put(bytes[p / 8], p % 8, bit)];
    forall k | 0 <= k < 8 * |bytes|
      ensures Unpack(r)[k] == Unpack(bytes)[p := bit][k]
    {
      PutBit(bytes[p / 8], p % 8, bit, k % 8);
    }
  }

  /** Moving every bit of one map into another. */
  lemma OrBits(a: bv8, b: bv8, k: nat)
    requires k < 8
    ensures Bit(a | b, k) == (Bit(a, k) || Bit(b, k))
  {
    hide Mask;
    OrMasked(a, b, Mask(k));
    SingleMask(a, k);
    SingleMask(b, k);
    SingleMask(a | b, k);
  }

  lemma AndBits(a: bv8, b: bv8, k: nat)
    requires k < 8
    ensures Bit(a & b, k) == (Bit(a, k) && Bit(b, k))
  {
    hide Mask;
    AndMasked(a, b, Mask(k));
    SingleMask(a, k);
    SingleMask(b, k);
    MasksApart(k, k);
  }

  lemma AndMasked(a: bv8, b: bv8, m: bv8)
    ensures (a & b) & m == (a & m) & (b & m)
  {
  }

  /** A byte is zero exactly when none of its bits is set. */
  lemma ZeroByte(b: bv8)
    ensures b == 0 <==> forall k :: 0 <= k < 8 ==> !Bit(b, k)
  {
    if b != 0 {
      assert Bit(b, 0) || Bit(b, 1) || Bit(b, 2) || Bit(b, 3) || Bit(b, 4) || Bit(b, 5) || Bit(b, 6) || Bit(b, 7);
    }
  }

  lemma OrMasked(a: bv8, b: bv8, m: bv8)
    ensures (a | b) & m == (a & m) | (b & m)
  {
  }

  lemma SingleMask(b: bv8, k: nat)
    requires k < 8
    ensures b & Mask(k) == 0 || b & Mask(k) == Mask(k)
  {
  }

  function Weight(bit: bool, w: bv8): bv8 {
    if bit then w else 0
  }

  function Pack(a: bool, b: bool, c: bool, d: bool, e: bool, f: bool, g: bool, h: bool): bv8 {
    Weight(a, 128) | Weight(b, 64) | Weight(c, 32) | Weight(d, 16) | Weight(e, 8) | Weight(f, 4) | Weight(g, 2)
    | Weight(h, 1)
  }

  /** What is left of `n` without the binary digit of weight `w`. */
  function Less(n: nat, w: nat): nat {
    if n >= w then n - w else n
  }

  /** The byte with value `n`. */
  function ByteOf(n: nat): bv8
    requires n < 256
  {
    var a := Less(n, 128);
    var b := Less(a, 64);
    var c := Less(b, 32);
    var d := Less(c, 16);
    var e := Less(d, 8);
    var f := Less(e, 4);
    Pack(n >= 128, a >= 64, b >= 32, c >= 16, d >= 8, e >= 4, f >= 2, Less(f, 2) >= 1)
  }

  predicate Has(b: bv8, m: bv8) {
    b & m != 0
  }

  function Worth(bit: bool, w: nat): nat {
    if bit then w else 0
  }

  /** The value of a byte. */
  function ValueOf(b: bv8): (n: nat)
    ensures n < 256
  {
    Worth(Has(b, 128), 128) + Worth(Has(b, 64), 64) + Worth(Has(b, 32), 32) + Worth(Has(b, 16), 16)
    + Worth(Has(b, 8), 8) + Worth(Has(b, 4), 4) + Worth(Has(b, 2), 2) + Worth(Has(b, 1), 1)
  }

  lemma PackBits(a: bool, b: bool, c: bool, d: bool, e: bool, f: bool, g: bool, h: bool)
    ensures
      var p := Pack(a, b, c, d, e, f, g, h);
      && Has(p, 128) == a && Has(p, 64) == b && Has(p, 32) == c && Has(p, 16) == d
      && Has(p, 8) == e && Has(p, 4) == f && Has(p, 2) == g && Has(p, 1) == h
  {
  }

  lemma TopDigit(n: nat, w: nat)
    requires n < 2 * w
    ensures Less(n, w) < w && n == Worth(n >= w, w) + Less(n, w)
  {
  }

  lemma ByteValue(n: nat)
    requires n < 256
    ensures ValueOf(ByteOf(n)) == n
  {
    hide Pack, Has, Less, Worth;
    var a := Less(n, 128);
    TopDigit(n, 128);
    var b := Less(a, 64);
    TopDigit(a, 64);
    var c := Less(b, 32);
    TopDigit(b, 32);
    var d := Less(c, 16);
    TopDigit(c, 16);
    var e := Less(d, 8);
    TopDigit(d, 8);
    var f := Less(e, 4);
    TopDigit(e, 4);
    var g := Less(f, 2);
    TopDigit(f, 2);
    LastDigit(g);
    PackBits(n >= 128, a >= 64, b >= 32, c >= 16, d >= 8, e >= 4, f >= 2, g >= 1);
  }

  lemma LastDigit(n: nat)
    requires n < 2
    ensures n == Worth(n >= 1, 1)
  {
  }
}
