/** The 256-bit serial memory of the battery pack: one wire, a command of eight slots sent
    low bit first, then 256 data slots. `EconoRam` is the device; `Chip` is its value. */
module EconoRam {
  import opened ByteBits

  const SIZE: nat := 256

  /** One slot on the wire: the host pulls low, lets go, and looks at the line. */
  datatype Slot = Slot(start: nat, stop: nat, sample: nat)

  datatype Chip = Chip(bits: seq<bool>, command: seq<bool>, data: bool, writing: bool, position: nat,
                       hostLow: bool, readSlot: bool, output: bool, lowAt: nat)

  /** A transfer is never past its last bit and never overlaps a command. */
  predicate Ok(c: Chip) {
    && |c.bits| == SIZE && |c.command| < 8
    && (c.data ==> c.position < SIZE && c.command == [])
    && (c.command != [] ==> c.command[0])
  }

  /** Valid commands have the low three bits 001. */
  predicate Known(command: seq<bool>)
    requires |command| == 8
  {
    command[0] && !command[1] && !command[2]
  }

  predicate Writes(command: seq<bool>)
    requires |command| == 8
  {
    command[3] && command[4] && command[5] && command[6] && command[7]
  }

  function Step(c: Chip): Chip {
    c.(position := c.position + 1, data := c.position + 1 != SIZE)
  }

  function Received(c: Chip, bit: bool): (r: Chip)
    requires Ok(c)
    ensures Ok(r) && r.hostLow == c.hostLow && r.readSlot == c.readSlot
  {
    if c.data then Step(if c.writing then c.(bits := c.bits[c.position := bit]) else c)
    else if c.command == [] && !bit then c
    else
      var command := c.command + [bit];
      if |command| < 8 then c.(command := command)
      else if Known(command) then
        c.(command := [], data := true, writing := Writes(command), position := 0)
      else c.(command := [])
  }

  /** The host lets go early enough for a one. */
  predicate Short(from: nat, to: nat, hz: nat) {
    to >= from && (to - from) * 1000000 < hz * 15
  }

  /** The device still holds the line for the slot begun at `from`. */
  predicate Holding(from: nat, now: nat, hz: nat) {
    now >= from && (now - from) * 1000000 < hz * 45
  }

  function Driven(c: Chip, low: bool, now: nat, hz: nat): (r: Chip)
    requires Ok(c)
    ensures Ok(r) && r.hostLow == low
  {
    if low == c.hostLow then c
    else if low then
      var c1 := c.(hostLow := true, lowAt := now, readSlot := c.data && !c.writing);
      if c1.readSlot then Step(c1.(output := c.bits[c.position])) else c1.(output := true)
    else if c.readSlot then c.(hostLow := false)
    else Received(c.(hostLow := false), Short(c.lowAt, now, hz))
  }

  predicate Line(c: Chip, now: nat, hz: nat) {
    !c.hostLow && (c.readSlot && Holding(c.lowAt, now, hz) ==> c.output)
  }

  // ------------------------------------------------------------ runs of slots

  function Pulse(c: Chip, s: Slot, hz: nat): (r: Chip)
    requires Ok(c)
    ensures Ok(r) && !r.hostLow
  {
    Driven(Driven(c, true, s.start, hz), false, s.stop, hz)
  }

  function Run(c: Chip, slots: seq<Slot>, hz: nat): (r: Chip)
    requires Ok(c)
    ensures Ok(r) && (!c.hostLow ==> !r.hostLow)
  {
    if slots == [] then c
    else Pulse(Run(c, slots[..|slots| - 1], hz), slots[|slots| - 1], hz)
  }

  /** What the host samples over the slots. */
  function Sampled(c: Chip, slots: seq<Slot>, hz: nat): (r: seq<bool>)
    requires Ok(c)
    ensures |r| == |slots|
  {
    if slots == [] then []
    else
      var last := slots[|slots| - 1];
      Sampled(c, slots[..|slots| - 1], hz) + [Line(Run(c, slots, hz), last.sample, hz)]
  }

  /** The bits the slots send. */
  function Sent(slots: seq<Slot>, hz: nat): (r: seq<bool>)
    ensures |r| == |slots|
    ensures forall k :: 0 <= k < |slots| ==> r[k] == Short(slots[k].start, slots[k].stop, hz)
  {
    seq(|slots|, k requires 0 <= k < |slots| => Short(slots[k].start, slots[k].stop, hz))
  }

  lemma SentPrefix(slots: seq<Slot>, hz: nat)
    requires slots != []
    ensures Sent(slots, hz) ==
            Sent(slots[..|slots| - 1], hz) + [Short(slots[|slots| - 1].start, slots[|slots| - 1].stop, hz)]
  {
  }

  lemma {:induction false} RunConcat(c: Chip, a: seq<Slot>, b: seq<Slot>, hz: nat)
    requires Ok(c)
    ensures Run(c, a + b, hz) == Run(Run(c, a, hz), b, hz)
  {
    if b == [] {
      assert a + b == a;
    } else {
      assert (a + b)[..|a + b| - 1] == a + b[..|b| - 1];
      RunConcat(c, a, b[..|b| - 1], hz);
    }
  }

  lemma RunLast(c: Chip, slots: seq<Slot>, hz: nat)
    requires Ok(c) && slots != []
    ensures Run(c, slots, hz) == Pulse(Run(c, slots[..|slots| - 1], hz), slots[|slots| - 1], hz)
  {
  }

  predicate Idle(c: Chip) {
    !c.data && c.command == []
  }

  /** A slot outside a read transfer delivers its bit. */
  lemma WriteSlot(c: Chip, s: Slot, hz: nat)
    requires Ok(c) && !c.hostLow && !(c.data && !c.writing)
    ensures
      Pulse(c, s, hz) ==
      Received(c.(lowAt := s.start, readSlot := false, output := true), Short(s.start, s.stop, hz))
  {
  }

  /** Eight slots starting with a one are one command. */
  lemma {:induction false} CommandRun(c: Chip, slots: seq<Slot>, hz: nat)
    requires Ok(c) && Idle(c) && !c.hostLow && 0 < |slots| <= 8 && Sent(slots, hz)[0]
    ensures
      var r := Run(c, slots, hz);
      var command := Sent(slots, hz);
      && r.bits == c.bits
      && (|slots| < 8 ==> !r.data && r.command == command)
      && (|slots| == 8 ==> r.command == [] && r.data == Known(command)
                           && (r.data ==> r.position == 0 && r.writing == Writes(command)))
  {
    SentPrefix(slots, hz);
    var last := |slots| - 1;
    if last > 0 {
      CommandRun(c, slots[..last], hz);
      WriteSlot(Run(c, slots[..last], hz), slots[last], hz);
    } else {
      assert slots[..0] == [] && Run(c, slots[..0], hz) == c;
      WriteSlot(c, slots[0], hz);
      assert c.command + [true] == Sent(slots, hz);
    }
  }

  lemma StoreSlot(c: Chip, s: Slot, hz: nat)
    requires Ok(c) && !c.hostLow && c.data && c.writing
    ensures
      var r := Pulse(c, s, hz);
      && r.bits == c.bits[c.position := Short(s.start, s.stop, hz)]
      && r.command == [] && r.data == (c.position + 1 < SIZE)
      && (r.data ==> r.writing && r.position == c.position + 1)
  {
    WriteSlot(c, s, hz);
  }

  lemma Overwrite(a: seq<bool>, b: seq<bool>, bit: bool)
    requires |a| < |b|
    ensures (a + b[|a|..])[|a| := bit] == a + [bit] + b[|a| + 1..]
  {
  }

  /** A write transfer stores the bits sent, in order. */
  lemma {:induction false} WriteRun(c: Chip, slots: seq<Slot>, hz: nat)
    requires Ok(c) && c.data && c.writing && c.position == 0 && !c.hostLow && |slots| <= SIZE
    ensures
      var r := Run(c, slots, hz);
      && r.bits == Sent(slots, hz) + c.bits[|slots|..]
      && r.data == (|slots| < SIZE) && r.command == []
      && (r.data ==> r.writing && r.position == |slots|)
  {
    if slots == [] {
      assert Sent(slots, hz) == [] && c.bits[0..] == c.bits;
    } else {
      hide Run, Sent, Pulse;
      var last := |slots| - 1;
      SentPrefix(slots, hz);
      WriteRun(c, slots[..last], hz);
      RunLast(c, slots, hz);
      var before, bit := Run(c, slots[..last], hz), Short(slots[last].start, slots[last].stop, hz);
      StoreSlot(before, slots[last], hz);
      Overwrite(Sent(slots[..last], hz), c.bits, bit);
    }
  }

  /** The host looks while the device holds the line. */
  predicate InWindow(slots: seq<Slot>, hz: nat) {
    forall k :: 0 <= k < |slots| ==> Holding(slots[k].start, slots[k].sample, hz)
  }

  lemma ReadSlot(c: Chip, s: Slot, hz: nat)
    requires Ok(c) && !c.hostLow && c.data && !c.writing && Holding(s.start, s.sample, hz)
    ensures
      var r := Pulse(c, s, hz);
      && Line(r, s.sample, hz) == c.bits[c.position]
      && r.bits == c.bits && r.command == [] && r.data == (c.position + 1 < SIZE)
      && (r.data ==> !r.writing && r.position == c.position + 1)
  {
  }

  /** A read transfer shows the bits stored, in order, and changes none, whatever the host's
      release times. */
  lemma {:induction false} ReadRun(c: Chip, slots: seq<Slot>, hz: nat)
    requires Ok(c) && c.data && !c.writing && c.position == 0 && !c.hostLow && |slots| <= SIZE
    requires InWindow(slots, hz)
    ensures
      var r := Run(c, slots, hz);
      && Sampled(c, slots, hz) == c.bits[..|slots|] && r.bits == c.bits
      && r.data == (|slots| < SIZE) && r.command == []
      && (r.data ==> !r.writing && r.position == |slots|)
  {
    if slots != [] {
      hide Run, Pulse, Line, Holding;
      var last := |slots| - 1;
      ReadRun(c, slots[..last], hz);
      RunLast(c, slots, hz);
      ReadSlot(Run(c, slots[..last], hz), slots[last], hz);
      assert c.bits[..|slots|] == c.bits[..last] + [c.bits[last]];
    } else {
      assert c.bits[..0] == [];
    }
  }

  /** F9 and 256 bits, then any other valid command and 256 looks: the host sees the bits it
      sent, and the parser is idle again. */
  lemma ReadBack(c: Chip, f9: seq<Slot>, sent: seq<Slot>, command: seq<Slot>, looks: seq<Slot>, hz: nat)
    requires Ok(c) && Idle(c) && !c.hostLow
    requires |f9| == 8 && Known(Sent(f9, hz)) && Writes(Sent(f9, hz)) && |sent| == SIZE
    requires |command| == 8 && Known(Sent(command, hz)) && !Writes(Sent(command, hz))
    requires |looks| == SIZE && InWindow(looks, hz)
    ensures Idle(Run(c, f9 + sent + command + looks, hz))
    ensures Run(c, f9 + sent + command + looks, hz).bits == Sent(sent, hz)
    ensures Sampled(Run(c, f9 + sent + command, hz), looks, hz) == Sent(sent, hz)
  {
    var c1 := Run(c, f9, hz);
    var c2 := Run(c1, sent, hz);
    var c3 := Run(c2, command, hz);
    CommandRun(c, f9, hz);
    WriteRun(c1, sent, hz);
    assert c2.bits == Sent(sent, hz);
    CommandRun(c2, command, hz);
    ReadRun(c3, looks, hz);
    RunConcat(c, f9, sent, hz);
    RunConcat(c, f9 + sent, command, hz);
    RunConcat(c, f9 + sent + command, looks, hz);
    assert c3.bits[..SIZE] == c3.bits;
  }

  // ------------------------------------------------------------ synchronisation

  /** The command a partial one becomes when zeros follow. */
  function Padded(command: seq<bool>): (r: seq<bool>)
    requires |command| < 8
    ensures |r| == 8
  {
    command + seq(8 - |command|, _ => false)
  }

  /** How many zero slots the device needs to be idle. */
  function Owed(c: Chip): nat
    requires Ok(c)
  {
    if c.data then SIZE - c.position
    else if c.command == [] then 0
    else 8 - |c.command| + (if Known(Padded(c.command)) then SIZE else 0)
  }

  lemma ZeroSlot(c: Chip, s: Slot, hz: nat)
    requires Ok(c) && !c.hostLow && !Short(s.start, s.stop, hz)
    ensures Owed(Pulse(c, s, hz)) == if Owed(c) == 0 then 0 else Owed(c) - 1
  {
    if c.data && !c.writing {
    } else {
      WriteSlot(c, s, hz);
      if !c.data && c.command != [] {
        var command := c.command + [false];
        if |command| < 8 {
          assert Padded(command) == Padded(c.command);
        } else {
          assert command == Padded(c.command);
        }
      }
    }
  }

  /** Zero slots leave the device idle exactly when there are as many as it is owed, and it
      is never owed more than 263: the 264 of the data sheet always do. */
  lemma {:induction false} ZerosSynchronise(c: Chip, slots: seq<Slot>, hz: nat)
    requires Ok(c) && !c.hostLow
    requires forall k :: 0 <= k < |slots| ==> !Short(slots[k].start, slots[k].stop, hz)
    ensures Owed(c) <= 263
    ensures Owed(Run(c, slots, hz)) == if Owed(c) <= |slots| then 0 else Owed(c) - |slots|
    ensures Idle(Run(c, slots, hz)) <==> |slots| >= Owed(c)
  {
    if slots != [] {
      var last := |slots| - 1;
      ZerosSynchronise(c, slots[..last], hz);
      assert !Short(slots[last].start, slots[last].stop, hz);
      ZeroSlot(Run(c, slots[..last], hz), slots[last], hz);
    }
  }

  /** The bound is reached: a lone one followed by zeros is a valid read command. */
  lemma LongestWait(bits: seq<bool>)
    requires |bits| == SIZE
    ensures Owed(Chip(bits, [true], false, false, 0, false, false, true, 0)) == 263
  {
    assert Known(Padded([true]));
  }

  // ------------------------------------------------------------ the device

  lemma CommandBits(b: bv8)
    ensures (b & 7 == 1) == (Bit(b, 0) && !Bit(b, 1) && !Bit(b, 2))
    ensures (b & 0xf8 == 0xf8) == (Bit(b, 3) && Bit(b, 4) && Bit(b, 5) && Bit(b, 6) && Bit(b, 7))
  {
  }

  ghost function Low(b: bv8, n: nat): (r: seq<bool>)
    requires n <= 8
    ensures |r| == n
  {
    seq(n, k requires 0 <= k < n => Bit(b, k))
  }

  lemma GrowCommand(b: bv8, n: nat, bit: bool)
    requires n < 8 && (forall k :: n <= k < 8 ==> !Bit(b, k))
    ensures
      var b' := if bit then Put(b, n, true) else b;
      Low(b', n + 1) == Low(b, n) + [bit] && (forall k :: n < k < 8 ==> !Bit(b', k))
  {
    hide Bit, Put;
    forall k | 0 <= k < 8
      ensures Bit(Put(b, n, true), k) == if k == n then true else Bit(b, k)
    {
      PutBit(b, n, true, k);
    }
  }

  class EconoRam {
    const bytes: array<bv8>
    var command: bv8
    var commandBits: nat
    var position: nat
    var data: bool
    var writing: bool
    var hostLow: bool
    var readSlot: bool
    var output: bool
    var lowAt: nat

    ghost predicate Valid()
      reads this, bytes
    {
      && bytes.Length == 32 && commandBits < 8
      && (commandBits > 0 ==> forall k :: commandBits <= k < 8 ==> !Bit(command, k))
      && Ok(Model())
    }

    ghost function Model(): Chip
      requires bytes.Length == 32 && commandBits < 8
      reads this, bytes
    {
      Chip(Unpack(bytes[..]), Low(command, commandBits), data, writing, position, hostLow, readSlot, output, lowAt)
    }

    constructor ()
      ensures Valid() && fresh(bytes) && Idle(Model()) && !hostLow
    {
      bytes := new bv8[32](_ => 0);
      command, commandBits, position := 0, 0, 0;
      data, writing, hostLow, readSlot, output, lowAt := false, false, false, false, true, 0;
    }

    method Receive(bit: bool)
      requires Valid()
      modifies this, bytes
      ensures Valid() && Model() == Received(old(Model()), bit)
    {
      if data {
        ReceiveData(bit);
      } else if commandBits != 0 || bit {
        ReceiveCommand(bit);
      }
    }

    method ReceiveData(bit: bool)
      requires Valid() && data
      modifies `position, `data, bytes
      ensures Valid() && Model() == Received(old(Model()), bit)
    {
      hide Unpack, Low, Bit, Put;
      if writing {
        StoreBit(bytes[..], position, bit);
        var at := position / 8;
        bytes[at] := Put(bytes[at], position % 8, bit);
      }
      position := position + 1;
      if position == 256 { data := false; }
    }

    method ReceiveCommand(bit: bool)
      requires Valid() && !data && (commandBits != 0 || bit)
      modifies `command, `commandBits, `data, `writing, `position
      ensures Valid() && Model() == Received(old(Model()), bit)
    {
      hide Unpack, Put;
      if commandBits == 0 { command := 0; }
      GrowCommand(command, commandBits, bit);
      if bit { command := Put(command, commandBits, true); }
      commandBits := commandBits + 1;
      if commandBits == 8 {
        CommandBits(command);
        commandBits := 0;
        if command & 7 != 1 { return; }
        data := true;
        writing := command & 0xf8 == 0xf8;
        position := 0;
      }
    }

    method Drive(low: bool, now: nat, hz: nat)
      requires Valid()
      modifies this, bytes
      ensures Valid() && Model() == Driven(old(Model()), low, now, hz)
    {
      hide Low, Bit;
      if low == hostLow { return; }
      hostLow := low;
      if low {
        lowAt := now;
        readSlot := data && !writing;
        if readSlot {
          output := Bit(bytes[position / 8], position % 8);
          position := position + 1;
          if position == 256 { data := false; }
        } else {
          output := true;
        }
      } else if !readSlot {
        Receive(now >= lowAt && (now - lowAt) * 1000000 < hz * 15);
      }
    }

    method Look(now: nat, hz: nat) returns (high: bool)
      requires Valid()
      ensures high == Line(Model(), now, hz)
    {
      if hostLow { return false; }
      if readSlot && now >= lowAt && (now - lowAt) * 1000000 < hz * 45 { return output; }
      return true;
    }
  }
}
