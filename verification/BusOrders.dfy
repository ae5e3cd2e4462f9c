/** The order words of the accessory bus and what they do to the transfer registers of the
    keyboard (src/machines/datarover840/keyboard.c). */
module BusOrders {
  import opened Words
  import opened Wrappers

  const CODES: seq<bv16> :=
    [0, 0xc018, 0xc024, 0xc028, 0xc030, 0xc03c, 0xc044, 0xc048, 0xc050,
     0xc000, 0xc00c, 0xc014, 0xc05c, 0xc060, 0xc06c, 0xc074, 0xc078,
     0xc084, 0xc088, 0xc090, 0xc09c, 0xd0e0, 0xd0ec, 0xd0a4, 0xd0a8,
     0xd0b0, 0xd0bc, 0xd0c4, 0xd0c8, 0xd0d0, 0xd0dc, 0xd0f4, 0xd0f8]

  const ADDRESSES: seq<bv16> := [0xc00, 0xa00, 0x804, 0x600, 0x404, 0x204, 0, 0xe04]

  datatype Order = Order(op: nat, address: nat)

  predicate Means(word: bv16, address: nat, op: nat)
    requires address < 8 && op < 33
  {
    CODES[op] ^ ADDRESSES[address] == word
  }

  // ------------------------------------------------------- no two orders share a word

  /** The five bits of the word, from bit 3, that carry the operation. */
  function Opcode(op: nat): (r: nat)
    requires 1 <= op < 33
    ensures r < 32
  {
    if op <= 8 then op + 2
    else if op <= 11 then op - 9
    else if op <= 20 || op > 30 then op - 1
    else if op <= 22 then op + 7
    else op - 3
  }

  /** The three bits of the word, from bit 9, that carry the address. */
  function Place(address: nat): (r: nat)
    requires address < 8
    ensures r < 8
  {
    if address == 7 then 7 else 6 - address
  }

  /** One bit of a word. */
  function On(word: bv16, mask: bv16): nat {
    if word & mask != 0 then 1 else 0
  }

  function OpcodeField(word: bv16): nat {
    On(word, 0x8) + 2 * On(word, 0x10) + 4 * On(word, 0x20) + 8 * On(word, 0x40) + 16 * On(word, 0x80)
  }

  function PlaceField(word: bv16): nat {
    On(word, 0x200) + 2 * On(word, 0x400) + 4 * On(word, 0x800)
  }

  lemma Operations1To8(op: nat)
    requires 1 <= op < 9
    ensures OpcodeField(CODES[op]) == Opcode(op) && CODES[op] & 0xe00 == 0
  {
  }

  lemma Operations9To16(op: nat)
    requires 9 <= op < 17
    ensures OpcodeField(CODES[op]) == Opcode(op) && CODES[op] & 0xe00 == 0
  {
  }

  lemma Operations17To24(op: nat)
    requires 17 <= op < 25
    ensures OpcodeField(CODES[op]) == Opcode(op) && CODES[op] & 0xe00 == 0
  {
  }

  lemma Operations25To32(op: nat)
    requires 25 <= op < 33
    ensures OpcodeField(CODES[op]) == Opcode(op) && CODES[op] & 0xe00 == 0
  {
  }

  lemma Operations(op: nat)
    requires 1 <= op < 33
    ensures OpcodeField(CODES[op]) == Opcode(op) && CODES[op] & 0xe00 == 0
  {
    if op < 9 {
      Operations1To8(op);
    } else if op < 17 {
      Operations9To16(op);
    } else if op < 25 {
      Operations17To24(op);
    } else {
      Operations25To32(op);
    }
  }

  lemma Places(address: nat)
    requires address < 8
    ensures PlaceField(ADDRESSES[address]) == Place(address) && ADDRESSES[address] & 0xf8 == 0
  {
  }

  lemma FieldsSplit(word: bv16, code: bv16, place: bv16)
    requires code ^ place == word && code & 0xe00 == 0 && place & 0xf8 == 0
    ensures OpcodeField(word) == OpcodeField(code) && PlaceField(word) == PlaceField(place)
  {
    hide *;
    assert word & 0x8 == code & 0x8;
    assert word & 0x10 == code & 0x10;
    assert word & 0x20 == code & 0x20;
    assert word & 0x40 == code & 0x40;
    assert word & 0x80 == code & 0x80;
    assert word & 0x200 == place & 0x200;
    assert word & 0x400 == place & 0x400;
    assert word & 0x800 == place & 0x800;
    SameFields(word, code, place);
  }

  lemma SameFields(word: bv16, code: bv16, place: bv16)
    requires && word & 0x8 == code & 0x8 && word & 0x10 == code & 0x10 && word & 0x20 == code & 0x20
             && word & 0x40 == code & 0x40 && word & 0x80 == code & 0x80 && word & 0x200 == place & 0x200
             && word & 0x400 == place & 0x400 && word & 0x800 == place & 0x800
    ensures OpcodeField(word) == OpcodeField(code) && PlaceField(word) == PlaceField(place)
  {
  }

  /** The word carries the operation and the address in fields of their own. */
  lemma WordFields(word: bv16, address: nat, op: nat)
    requires address < 8 && 1 <= op < 33 && Means(word, address, op)
    ensures OpcodeField(word) == Opcode(op) && PlaceField(word) == Place(address)
  {
    Operations(op);
    Places(address);
    FieldsSplit(word, CODES[op], ADDRESSES[address]);
    hide OpcodeField, PlaceField, Opcode, Place;
  }

  lemma FieldsTell(a: nat, op: nat, a': nat, op': nat)
    requires a < 8 && 1 <= op < 33 && a' < 8 && 1 <= op' < 33
    requires Opcode(op) == Opcode(op') && Place(a) == Place(a')
    ensures a == a' && op == op'
  {
  }

  /** A word is the word of one order at most. */
  lemma OneMeaning(word: bv16, a: nat, op: nat, a': nat, op': nat)
    requires a < 8 && 1 <= op < 33 && Means(word, a, op)
    requires a' < 8 && 1 <= op' < 33 && Means(word, a', op')
    ensures a == a' && op == op'
  {
    hide *;
    WordFields(word, a, op);
    WordFields(word, a', op');
    FieldsTell(a, op, a', op');
  }

  /** The order a word encodes, or none. */
  ghost predicate Reads(word: bv16, order: Option<Order>) {
    match order
    case Some(o) => o.address < 8 && 1 <= o.op < 33 && Means(word, o.address, o.op)
    case None => forall a, op :: 0 <= a < 8 && 1 <= op < 33 ==> !Means(word, a, op)
  }

  /** Looks the word up, addresses outermost. */
  method Interpret(word: bv16) returns (order: Option<Order>)
    ensures Reads(word, order)
    ensures forall a, op :: 0 <= a < 8 && 1 <= op < 33 ==> (Means(word, a, op) <==> order == Some(Order(op, a)))
  {
    hide Means;
    var a := 0;
    while a < 8
      invariant a <= 8
      invariant forall b, op :: 0 <= b < a && 1 <= op < 33 ==> !Means(word, b, op)
    {
      var op := 1;
      while op < 33
        invariant 1 <= op <= 33
        invariant forall o :: 1 <= o < op ==> !Means(word, a, o)
      {
        if Means(word, a, op) {
          forall b, o | 0 <= b < 8 && 1 <= o < 33 && Means(word, b, o)
            ensures b == a && o == op
          {
            OneMeaning(word, a, op, b, o);
          }
          return Some(Order(op, a));
        }
        op := op + 1;
      }
      a := a + 1;
    }
    order := None;
  }

  // ------------------------------------------------------- what the orders do

  /** The transfer registers of the accessory. */
  datatype Registers = Registers(known: bool, notified: bool, selection: nat, pending: nat, writeSize: nat,
                                 inputHigh: bool)

  /** What a bus order does, `waiting` telling whether scan bytes wait: the general reset and
      the address order always count, the rest only once addressed. */
  function Obeyed(r: Registers, connected: bool, waiting: bool, order: Option<Order>): Registers {
    match order
    case None => r
    case Some(Order(op, a)) =>
      if op == 31 && a == 7 then Registers(false, false, 0, 0, 0, connected || r.inputHigh)
      else if op == 24 && a == 0 then r.(known := true)
      else if !r.known || (a != 0 && a != 7) then r
      else if op == 28 then r.(inputHigh := if connected then waiting && !r.notified else r.inputHigh)
      else if a == 7 then r
      else if op == 21 then r.(inputHigh := !connected && r.inputHigh)
      else if op == 1 || op == 2 then r.(pending := op)
      else if op == 5 then r.(selection := 5, writeSize := 0)
      else if op == 12 || op == 13 then r.(selection := op)
      else r
  }

  /** The same register by register: the orders each one answers to. */
  lemma ByRegister(r: Registers, connected: bool, waiting: bool, op: nat, a: nat)
    ensures
      var n := Obeyed(r, connected, waiting, Some(Order(op, a)));
      var reset, mine := op == 31 && a == 7, r.known && a == 0;
      && (n.known <==> !reset && (r.known || (op == 24 && a == 0)))
      && (n.notified <==> !reset && r.notified)
      && n.selection == (if reset then 0 else if mine && op in {5, 12, 13} then op else r.selection)
      && n.pending == (if reset then 0 else if mine && op in {1, 2} then op else r.pending)
      && n.writeSize == (if reset || (mine && op == 5) then 0 else r.writeSize)
      && n.inputHigh == (if !connected then r.inputHigh
                         else if reset then true
                         else if r.known && op == 28 && (a == 0 || a == 7) then waiting && !r.notified
                         else if mine && op == 21 then false
                         else r.inputHigh)
  {
  }

  predicate IsReset(order: Option<Order>) {
    order == Some(Order(31, 7))
  }

  predicate IsAddress(order: Option<Order>) {
    order == Some(Order(24, 0))
  }

  /** The orders this accessory ever acts on. */
  predicate Heard(order: Option<Order>) {
    && order.Some?
    && var Order(op, a) := order.value;
       || (op == 31 && a == 7)
       || (op == 28 && (a == 0 || a == 7))
       || (op in {1, 2, 5, 12, 13, 21, 24} && a == 0)
  }

  /** An order is without effect in every state exactly when it is none of those. */
  lemma ActsOnExactly(order: Option<Order>)
    ensures Heard(order) <==> exists r, connected, waiting :: Obeyed(r, connected, waiting, order) != r
  {
    if Heard(order) {
      var Order(op, a) := order.value;
      var r := Registers(op != 24, true, 1, 3, 1, op != 28);
      var s := r.(notified := false);
      assert Obeyed(r, true, true, order) != r || Obeyed(s, true, true, order) != s;
    }
  }

  /** An order as it arrives: whether the accessory is connected and scan bytes wait. */
  datatype Turn = Turn(order: Option<Order>, connected: bool, waiting: bool)

  /** The registers after a run of orders. */
  ghost function After(r: Registers, turns: seq<Turn>): Registers {
    if turns == [] then r
    else
      var t := turns[|turns| - 1];
      Obeyed(After(r, turns[..|turns| - 1]), t.connected, t.waiting, t.order)
  }

  ghost predicate NoReset(turns: seq<Turn>, from: nat) {
    forall k :: from <= k < |turns| ==> !IsReset(turns[k].order)
  }

  ghost predicate AddressedIn(turns: seq<Turn>) {
    exists k :: 0 <= k < |turns| && IsAddress(turns[k].order) && NoReset(turns, k + 1)
  }

  /** After any run the accessory is addressed exactly when the address order came after
      the last reset, or it was addressed before and no reset came. */
  lemma {:induction false} AddressedExactly(r: Registers, turns: seq<Turn>)
    ensures After(r, turns).known <==> AddressedIn(turns) || (r.known && NoReset(turns, 0))
  {
    if turns != [] {
      var n := |turns| - 1;
      var before := turns[..n];
      AddressedExactly(r, before);
      if IsAddress(turns[n].order) {
        assert NoReset(turns, n + 1);
      } else if !IsReset(turns[n].order) {
        if AddressedIn(before) {
          var k :| 0 <= k < n && IsAddress(before[k].order) && NoReset(before, k + 1);
          assert IsAddress(turns[k].order) && NoReset(turns, k + 1);
        }
        if AddressedIn(turns) {
          var k :| 0 <= k <= n && IsAddress(turns[k].order) && NoReset(turns, k + 1);
          assert IsAddress(before[k].order) && NoReset(before, k + 1);
        }
      }
    }
  }

  ghost predicate ResetWhileConnected(turns: seq<Turn>) {
    exists k :: 0 <= k < |turns| && IsReset(turns[k].order) && turns[k].connected
  }

  /** Until it is addressed, a run of orders leaves an accessory as it was, or as a reset
      leaves it. */
  lemma {:induction false} SilentUntilAddressed(r: Registers, turns: seq<Turn>)
    requires !r.known && forall k :: 0 <= k < |turns| ==> !IsAddress(turns[k].order)
    ensures
      var after := After(r, turns);
      if NoReset(turns, 0) then after == r
      else after == Registers(false, false, 0, 0, 0, r.inputHigh || ResetWhileConnected(turns))
  {
    if turns != [] {
      var n := |turns| - 1;
      SilentUntilAddressed(r, turns[..n]);
      assert NoReset(turns, 0) <==> NoReset(turns[..n], 0) && !IsReset(turns[n].order);
      assert forall k :: 0 <= k < n ==> turns[..n][k] == turns[k];
    }
  }
}
