/** AT set 2 scan codes of the host's keys, and the keys they come from. */
module KeyCodes {
  import opened ByteBits
  import opened KeyRing
  import opened Wrappers

  const USAGES: nat := 256

  function Letters(u: nat): (r: nat)
    requires u < 26
    ensures 0 < r % 256 < 0x84 && r < 512
  {
    [0x1c, 0x32, 0x21, 0x23, 0x24, 0x2b, 0x34, 0x33, 0x43, 0x3b, 0x42, 0x4b, 0x3a,
     0x31, 0x44, 0x4d, 0x15, 0x2d, 0x1b, 0x2c, 0x3c, 0x2a, 0x1d, 0x22, 0x35, 0x1a][u]
  }

  function Middle(u: nat): (r: nat)
    requires u < 28
    ensures 0 < r % 256 < 0x84 && r < 512
  {
    [0x16, 0x1e, 0x26, 0x25, 0x2e, 0x36, 0x3d, 0x3e, 0x46, 0x45, 0x5a, 0x76, 0x66, 0x0d,
     0x29, 0x4e, 0x55, 0x54, 0x5b, 0x5d, 0x5d, 0x4c, 0x52, 0x0e, 0x41, 0x49, 0x4a, 0x58][u]
  }

  function Functions(u: nat): (r: nat)
    requires u < 12
    ensures 0 < r % 256 < 0x84 && r < 512
  {
    [0x05, 0x06, 0x04, 0x0c, 0x03, 0x0b, 0x83, 0x0a, 0x01, 0x09, 0x78, 0x07][u]
  }

  function Arrows(u: nat): (r: nat)
    requires u < 10
    ensures 0 < r % 256 < 0x84 && r < 512
  {
    [0x170, 0x16c, 0x17d, 0x171, 0x169, 0x17a, 0x174, 0x16b, 0x172, 0x175][u]
  }

  function Keypad(u: nat): (r: nat)
    requires u < 18
    ensures 0 < r % 256 < 0x84 && r < 512
  {
    [0x77, 0x14a, 0x7c, 0x7b, 0x79, 0x15a, 0x69, 0x72, 0x7a, 0x6b, 0x73, 0x74, 0x6c, 0x75, 0x7d,
     0x70, 0x71, 0x61][u]
  }

  function Modifiers(u: nat): (r: nat)
    requires u < 8
    ensures 0 < r % 256 < 0x84 && r < 512
  {
    [0x14, 0x12, 0x11, 0x11f, 0x114, 0x59, 0x111, 0x127][u]
  }

  /** Set 2 code of a HID usage, 256 added for an extended key; 0 for none. */
  function Table(usage: nat): (r: nat)
    ensures r == 0 || (0 < r % 256 < 0x84 && r < 512)
  {
    if 4 <= usage < 30 then Letters(usage - 4)
    else if 30 <= usage < 58 then Middle(usage - 30)
    else if 58 <= usage < 70 then Functions(usage - 58)
    else if usage == 71 then 0x7e
    else if 73 <= usage < 83 then Arrows(usage - 73)
    else if 83 <= usage < 101 then Keypad(usage - 83)
    else if 224 <= usage < 232 then Modifiers(usage - 224)
    else 0
  }

  datatype Key = Key(code: Byte, extended: bool)

  /** Only usages with a code a single event can carry are known. */
  function Usage(usage: nat): (r: Option<Key>)
    ensures r.Some? ==> usage < USAGES && Plain(r.value.code)
  {
    var m := Table(usage);
    if usage >= USAGES || m == 0 then None
    else
      PlainCode(m % 256);
      Some(Key(ByteOf(m % 256), m >= 256))
  }

  lemma PlainCode(n: nat)
    requires 0 < n < 0x84
    ensures Plain(ByteOf(n))
  {
    ByteValue(n);
  }

  // ------------------------------------------------------------ back from code to key

  function PlainHost(row: nat, column: nat): nat
    requires column < 16
  {
    if row == 0x0 then [0, 66, 0, 62, 60, 58, 59, 69, 0, 67, 65, 63, 61, 43, 53, 0][column]
    else if row == 0x1 then [0, 226, 225, 0, 224, 20, 30, 0, 0, 0, 29, 22, 4, 26, 31, 0][column]
    else if row == 0x2 then [0, 6, 27, 7, 8, 33, 32, 0, 0, 44, 25, 9, 23, 21, 34, 0][column]
    else if row == 0x3 then [0, 17, 5, 11, 10, 28, 35, 0, 0, 0, 16, 13, 24, 36, 37, 0][column]
    else if row == 0x4 then [0, 54, 14, 12, 18, 39, 38, 0, 0, 55, 56, 15, 51, 19, 45, 0][column]
    else if row == 0x5 then [0, 0, 52, 0, 47, 46, 0, 0, 57, 229, 40, 48, 0, 49, 0, 0][column]
    else if row == 0x6 then [0, 100, 0, 0, 0, 0, 42, 0, 0, 89, 0, 92, 95, 0, 0, 0][column]
    else if row == 0x7 then [98, 99, 90, 93, 94, 96, 41, 83, 68, 87, 91, 86, 85, 97, 71, 0][column]
    else if row == 0x8 then [0, 0, 0, 64, 0, 0, 0, 0, 0, 0, 0, 0, 0, 0, 0, 0][column]
    else 0
  }

  function ExtendedHost(row: nat, column: nat): nat
    requires column < 16
  {
    if row == 0x11 then [0, 230, 0, 0, 228, 0, 0, 0, 0, 0, 0, 0, 0, 0, 0, 227][column]
    else if row == 0x12 then [0, 0, 0, 0, 0, 0, 0, 231, 0, 0, 0, 0, 0, 0, 0, 0][column]
    else if row == 0x14 then [0, 0, 0, 0, 0, 0, 0, 0, 0, 0, 84, 0, 0, 0, 0, 0][column]
    else if row == 0x15 then [0, 0, 0, 0, 0, 0, 0, 0, 0, 0, 88, 0, 0, 0, 0, 0][column]
    else if row == 0x16 then [0, 0, 0, 0, 0, 0, 0, 0, 0, 77, 0, 80, 74, 0, 0, 0][column]
    else if row == 0x17 then [73, 76, 81, 0, 79, 82, 0, 0, 0, 0, 78, 0, 0, 75, 0, 0][column]
    else 0
  }

  /** The key with a code: the same layout read the other way. */
  function Host(code: nat): nat {
    var row, column := code / 16, code % 16;
    if row < 16 then PlainHost(row, column) else ExtendedHost(row, column)
  }

  lemma LettersBack(u: nat)
    requires u < 26
    ensures Host(Letters(u)) == 4 + u
  {
  }

  lemma MiddleBack(u: nat)
    requires u < 28
    ensures Host(Middle(u)) == if u == 20 then 49 else 30 + u
  {
  }

  lemma FunctionsBack(u: nat)
    requires u < 12
    ensures Host(Functions(u)) == 58 + u
  {
  }

  lemma ArrowsBack(u: nat)
    requires u < 10
    ensures Host(Arrows(u)) == 73 + u
  {
  }

  lemma KeypadBack(u: nat)
    requires u < 18
    ensures Host(Keypad(u)) == 83 + u
  {
  }

  lemma ModifiersBack(u: nat)
    requires u < 8
    ensures Host(Modifiers(u)) == 224 + u
  {
  }

  /** Every key but one can be told from its code: the two backslash keys share one. */
  lemma HostBack(usage: nat)
    requires Table(usage) != 0
    ensures Host(Table(usage)) == if usage == 50 then 49 else usage
  {
    assert Host(0x7e) == 71;
    hide Letters, Middle, Functions, Arrows, Keypad, Modifiers, Host;
    if 4 <= usage < 30 {
      LettersBack(usage - 4);
    } else if 30 <= usage < 58 {
      MiddleBack(usage - 30);
    } else if 58 <= usage < 70 {
      FunctionsBack(usage - 58);
    } else if 73 <= usage < 83 {
      ArrowsBack(usage - 73);
    } else if 83 <= usage < 101 {
      KeypadBack(usage - 83);
    } else if 224 <= usage < 232 {
      ModifiersBack(usage - 224);
    }
  }

  /** No two other keys look alike to the guest. */
  lemma KeysDistinct(u: nat, v: nat)
    requires Usage(u).Some? && Usage(u) == Usage(v)
    ensures u == v || (u == 49 && v == 50) || (u == 50 && v == 49)
  {
    hide Table, ByteOf, ValueOf, Host, Plain;
    ByteValue(Table(u) % 256);
    ByteValue(Table(v) % 256);
    HostBack(u);
    HostBack(v);
  }
}
