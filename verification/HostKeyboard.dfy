/** The keyboard accessory as the host drives it: which keys are held, which releases still
    wait for room in the ring, the commands of the bus, and the saved state. */
module HostKeyboard {
  import opened BusOrders
  import opened ByteBits
  import opened KeyCodes
  import opened KeyRing
  import opened Wrappers

  const STATE: nat := 384

  // ------------------------------------------------------------ the events told

  /** An event of a host key that entered the ring. */
  datatype Event = Event(usage: nat, down: bool)

  ghost predicate KnownEvents(events: seq<Event>) {
    forall k :: 0 <= k < |events| ==> Usage(events[k].usage).Some?
  }

  ghost function Strokes(events: seq<Event>): (r: seq<Stroke>)
    requires KnownEvents(events)
    ensures |r| == |events|
  {
    seq(|events|, k requires 0 <= k < |events| =>
      var key := Usage(events[k].usage).value;
      Stroke(key.code, key.extended, events[k].down))
  }

  /** The scan bytes of the events. */
  ghost function Told(events: seq<Event>): seq<Byte>
    requires KnownEvents(events)
  {
    Scans(Strokes(events))
  }

  function ScanOf(usage: nat, down: bool): seq<Byte>
    requires Usage(usage).Some?
  {
    Scan(Usage(usage).value.code, Usage(usage).value.extended, down)
  }

  /** The scan bytes from `gone` on. */
  ghost function Rest(events: seq<Event>, gone: nat): seq<Byte> {
    if KnownEvents(events) && gone <= |Told(events)| then Told(events)[gone..] else []
  }

  lemma ToldAppend(events: seq<Event>, e: Event)
    requires KnownEvents(events) && Usage(e.usage).Some?
    ensures KnownEvents(events + [e])
    ensures Told(events + [e]) == Told(events) + ScanOf(e.usage, e.down)
  {
    hide Usage, Scan;
    var key := Usage(e.usage).value;
    assert Strokes(events + [e]) == Strokes(events) + [Stroke(key.code, key.extended, e.down)];
    var all := Strokes(events + [e]);
    assert all[..|all| - 1] == Strokes(events);
  }

  /** The guest can read the events back off the stream of scan bytes, each whole. */
  lemma ToldWhole(events: seq<Event>)
    requires KnownEvents(events)
    ensures Parse(Told(events)) == Strokes(events)
  {
    hide Usage;
    forall k | 0 <= k < |events|
      ensures Plain(Strokes(events)[k].code)
    {
    }
    ParseScans(Strokes(events));
  }

  /** The last event told for a usage is a make. */
  predicate LastDown(events: seq<Event>, usage: nat) {
    if events == [] then false
    else
      var e := events[|events| - 1];
      if e.usage == usage then e.down else LastDown(events[..|events| - 1], usage)
  }

  lemma LastAppend(events: seq<Event>, e: Event, usage: nat)
    ensures LastDown(events + [e], usage) == if e.usage == usage then e.down else LastDown(events, usage)
  {
    assert (events + [e])[..|events|] == events;
  }

  /** A usage is held or waiting for release exactly when its last event was a make. */
  ghost predicate Agrees(events: seq<Event>, held: seq<bool>, release: seq<bool>) {
    && KnownEvents(events) && |held| == USAGES && |release| == USAGES
    && forall u :: 0 <= u < USAGES ==>
         && !(held[u] && release[u])
         && ((held[u] || release[u]) <==> LastDown(events, u))
  }

  lemma BreakAgrees(events: seq<Event>, held: seq<bool>, release: seq<bool>, usage: nat)
    requires Agrees(events, held, release) && usage < USAGES && release[usage] && Usage(usage).Some?
    ensures Agrees(events + [Event(usage, false)], held, release[usage := false])
  {
    hide Usage;
    forall u | 0 <= u < USAGES
      ensures LastDown(events + [Event(usage, false)], u) == if u == usage then false else LastDown(events, u)
    {
      LastAppend(events, Event(usage, false), u);
    }
  }

  lemma MakeAgrees(events: seq<Event>, held: seq<bool>, release: seq<bool>, usage: nat)
    requires Agrees(events, held, release) && usage < USAGES && !release[usage] && Usage(usage).Some?
    ensures Agrees(events + [Event(usage, true)], held[usage := true], release)
  {
    hide Usage;
    forall u | 0 <= u < USAGES
      ensures LastDown(events + [Event(usage, true)], u) == if u == usage then true else LastDown(events, u)
    {
      LastAppend(events, Event(usage, true), u);
    }
  }

  /** The usages waiting for release, in order. */
  function Pending(bits: seq<bool>, from: nat): seq<nat>
    requires from <= |bits|
    decreases |bits| - from
  {
    if from == |bits| then [] else (if bits[from] then [from] else []) + Pending(bits, from + 1)
  }

  lemma {:induction false} PendingSame(a: seq<bool>, b: seq<bool>, from: nat)
    requires |a| == |b| && from <= |a| && (forall u :: from <= u < |a| ==> a[u] == b[u])
    ensures Pending(a, from) == Pending(b, from)
    decreases |a| - from
  {
    if from < |a| {
      PendingSame(a, b, from + 1);
    }
  }

  lemma PendingHead(bits: seq<bool>, u: nat)
    requires u < |bits|
    ensures Pending(bits, u) == (if bits[u] then [u] else []) + Pending(bits, u + 1)
  {
  }

  lemma PendingEnd(bits: seq<bool>)
    ensures Pending(bits, |bits|) == []
  {
  }

  lemma {:induction false} PendingSkip(bits: seq<bool>, from: nat)
    requires from <= |bits| && (forall u :: 0 <= u < from ==> !bits[u])
    ensures Pending(bits, 0) == Pending(bits, from)
    decreases from
  {
    if from > 0 {
      PendingSkip(bits, from - 1);
    }
  }

  function Breaks(usages: seq<nat>): (r: seq<Event>)
    ensures |r| == |usages|
  {
    seq(|usages|, k requires 0 <= k < |usages| => Event(usages[k], false))
  }

  lemma BreaksAppend(usages: seq<nat>, usage: nat)
    ensures Breaks(usages + [usage]) == Breaks(usages) + [Event(usage, false)]
  {
  }

  lemma BreakAt(usages: seq<nat>, k: nat)
    requires k < |usages|
    ensures k < |Breaks(usages)| && Breaks(usages)[k] == Event(usages[k], false)
  {
  }

  lemma NoBreaks()
    ensures Breaks([]) == []
  {
  }

  // ------------------------------------------------------------ envelopes and saved words

  function WordByte(word: bv32, i: nat): Byte
    requires i < 4
  {
    if i == 0 then ((word >> 24) & 0xff) as bv8
    else if i == 1 then ((word >> 16) & 0xff) as bv8
    else if i == 2 then ((word >> 8) & 0xff) as bv8
    else (word & 0xff) as bv8
  }

  /** The bytes make the word again, the first the highest. */
  lemma WordBytes(word: bv32)
    ensures ((WordByte(word, 0) as bv32) << 24) | ((WordByte(word, 1) as bv32) << 16)
            | ((WordByte(word, 2) as bv32) << 8) | (WordByte(word, 3) as bv32) == word
  {
  }

  function Filled(bytes: seq<Byte>, at: nat, word: bv32): seq<Byte>
    requires at + 4 <= |bytes|
  {
    bytes[..at] + [WordByte(word, 0), WordByte(word, 1), WordByte(word, 2), WordByte(word, 3)] + bytes[at + 4..]
  }

  // ------------------------------------------------------------ the saved state

  datatype State = State(connected: bool, known: bool, notified: bool, selection: nat, pending: nat,
                         writeSize: nat, inputHigh: bool, rxComplete: bool, leds: Byte, repeat: Byte,
                         rxBytes: nat, keys: seq<Byte>, written: seq<Byte>, held: seq<Byte>, release: seq<Byte>)

  /** Only known usages have a bit. */
  ghost predicate KnownBits(bytes: seq<Byte>) {
    |bytes| == 32 && forall u :: 0 <= u < USAGES && Unpack(bytes)[u] ==> Usage(u).Some?
  }

  lemma KnownHas(bytes: seq<Byte>, usage: nat)
    requires KnownBits(bytes) && usage < USAGES && Unpack(bytes)[usage]
    ensures Usage(usage).Some?
  {
  }

  predicate GoodRx(rx: nat) {
    rx <= 0x100000 && rx % 4 == 0
  }

  ghost predicate SaneState(s: State) {
    && s.selection in {0, 5, 12, 13} && s.pending <= 2 && s.writeSize in {0, 4, 8}
    && s.leds <= 7 && s.repeat <= 127 && GoodRx(s.rxBytes)
    && |s.keys| <= CAPACITY && |s.written| == 8
    && |s.held| == 32 && |s.release| == 32 && KnownBits(s.held) && KnownBits(s.release)
  }

  function Flag(b: bool): Byte {
    if b then 1 else 0
  }

  function Part(n: nat, i: nat): (r: nat)
    requires n < 0x1_0000_0000 && i < 4
    ensures r < 256
  {
    if i == 0 then n / 0x1000000
    else if i == 1 then n / 0x10000 % 256
    else if i == 2 then n / 0x100 % 256
    else n % 256
  }

  /** Byte `i`, high first, of a 32-bit number. */
  function Digit(n: nat, i: nat): Byte
    requires n < 0x1_0000_0000 && i < 4
  {
    ByteOf(Part(n, i))
  }

  /** The fixed-size part of a state. */
  datatype Head = Head(connected: bool, known: bool, notified: bool, selection: nat, pending: nat, writeSize: nat,
                       inputHigh: bool, rxComplete: bool, leds: Byte, repeat: Byte, count: nat, rxBytes: nat)

  function HeadOf(s: State): Head {
    Head(s.connected, s.known, s.notified, s.selection, s.pending, s.writeSize, s.inputHigh, s.rxComplete,
         s.leds, s.repeat, |s.keys|, s.rxBytes)
  }

  predicate GoodHead(h: Head) {
    && h.selection < 256 && h.pending < 256 && h.writeSize < 256
    && h.count <= CAPACITY && h.rxBytes < 0x1_0000_0000
  }

  function Header(h: Head, k: nat): Byte
    requires k < 24 && GoodHead(h)
  {
    if k < 11 then Flags(h, k) else Numbers(h, k)
  }

  function Flags(h: Head, k: nat): Byte
    requires k < 11 && GoodHead(h)
  {
    if k < 6 then Leading(h, k)
    else if k == 6 then ByteOf(h.writeSize)
    else if k == 7 then Flag(h.inputHigh)
    else if k == 8 then Flag(h.rxComplete)
    else if k == 9 then h.leds
    else h.repeat
  }

  function Leading(h: Head, k: nat): Byte
    requires k < 6 && GoodHead(h)
  {
    if k == 0 then 1
    else if k == 1 then Flag(h.connected)
    else if k == 2 then Flag(h.known)
    else if k == 3 then Flag(h.notified)
    else if k == 4 then ByteOf(h.selection)
    else ByteOf(h.pending)
  }

  function Numbers(h: Head, k: nat): Byte
    requires 11 <= k < 24 && GoodHead(h)
  {
    if k == 12 then ByteOf(h.count / 256)
    else if k == 13 then ByteOf(h.count % 256)
    else if 16 <= k < 20 then Digit(h.rxBytes, k - 16)
    else 0
  }

  ghost function Encoded(s: State, k: nat): Byte
    requires SaneState(s) && k < STATE
  {
    if k < 24 then Header(HeadOf(s), k)
    else if k < 280 then if k - 24 < |s.keys| then s.keys[k - 24] else 0
    else if k < 288 then s.written[k - 280]
    else if k < 320 then s.held[k - 288]
    else if k < 352 then s.release[k - 320]
    else 0
  }

  /** The saved form of a state. */
  ghost function Encoding(s: State): (r: seq<Byte>)
    requires SaneState(s)
    ensures |r| == STATE
  {
    seq(STATE, k requires 0 <= k < STATE => Encoded(s, k))
  }

  function Count(d: seq<Byte>): nat
    requires |d| == STATE
  {
    ValueOf(d[12]) * 256 + ValueOf(d[13])
  }

  function Received(d: seq<Byte>): nat
    requires |d| == STATE
  {
    ValueOf(d[16]) * 0x1000000 + ValueOf(d[17]) * 0x10000 + ValueOf(d[18]) * 0x100 + ValueOf(d[19])
  }

  /** The count of received bytes is acceptable: at most 1 MiB and whole words. */
  lemma RxBytes(d: seq<Byte>)
    requires |d| == STATE
    ensures GoodRx(Received(d)) <==>
              d[16] == 0 && (d[17] < 0x10 || (d[17] == 0x10 && d[18] == 0 && d[19] == 0)) && d[19] & 3 == 0
  {
    ValueBits(d[16]);
    ValueBits(d[17]);
    ValueBits(d[18]);
    ValueBits(d[19]);
    ValueLow(d[19]);
    hide ValueOf;
    RxValues(ValueOf(d[16]), ValueOf(d[17]), ValueOf(d[18]), ValueOf(d[19]));
  }

  lemma RxValues(a: nat, b: nat, c: nat, e: nat)
    requires a < 256 && b < 256 && c < 256 && e < 256
    ensures GoodRx(a * 0x1000000 + b * 0x10000 + c * 0x100 + e) <==>
              a == 0 && (b < 16 || (b == 16 && c == 0 && e == 0)) && e % 4 == 0
  {
  }

  lemma ValueBits(b: Byte)
    ensures (ValueOf(b) == 0 <==> b == 0) && (ValueOf(b) < 16 <==> b < 0x10) && (ValueOf(b) == 16 <==> b == 0x10)
  {
    BitsOfByte(b);
    hide Has;
  }

  lemma ValueLow(b: Byte)
    ensures ValueOf(b) % 4 == 0 <==> b & 3 == 0
  {
    BitsOfByte(b);
    hide Has;
    var low := Worth(Has(b, 2), 2) + Worth(Has(b, 1), 1);
    var high := Worth(Has(b, 128), 32) + Worth(Has(b, 64), 16) + Worth(Has(b, 32), 8) + Worth(Has(b, 16), 4)
                + Worth(Has(b, 8), 2) + Worth(Has(b, 4), 1);
    assert ValueOf(b) == 4 * high + low;
    assert low == 0 <==> !Has(b, 2) && !Has(b, 1);
    hide ValueOf, Worth;
    FourTimes(high, low);
  }

  lemma FourTimes(high: nat, low: nat)
    requires low < 4
    ensures (4 * high + low) % 4 == low
  {
  }

  lemma BitsOfByte(b: Byte)
    ensures b == 0 <==> !Has(b, 128) && !Has(b, 64) && !Has(b, 32) && !Has(b, 16)
                        && !Has(b, 8) && !Has(b, 4) && !Has(b, 2) && !Has(b, 1)
    ensures b < 0x10 <==> !Has(b, 128) && !Has(b, 64) && !Has(b, 32) && !Has(b, 16)
    ensures b == 0x10 <==> !Has(b, 128) && !Has(b, 64) && !Has(b, 32) && Has(b, 16)
                           && !Has(b, 8) && !Has(b, 4) && !Has(b, 2) && !Has(b, 1)
    ensures b & 3 == 0 <==> !Has(b, 2) && !Has(b, 1)
  {
  }

  predicate GoodHeader(d: seq<Byte>)
    requires |d| == STATE
  {
    && d[0] == 1 && d[1] <= 1 && d[2] <= 1 && d[3] <= 1
    && (d[4] == 0 || d[4] == 5 || d[4] == 12 || d[4] == 13) && d[5] <= 2
    && d[6] <= 8 && d[6] & 3 == 0 && d[7] <= 1 && d[8] <= 1 && d[9] <= 7 && d[10] <= 127
    && Count(d) <= CAPACITY && GoodRx(Received(d))
  }

  ghost predicate Acceptable(d: seq<Byte>)
    requires |d| == STATE
  {
    GoodHeader(d) && KnownBits(d[288..320]) && KnownBits(d[320..352])
  }

  function Decoded(d: seq<Byte>): State
    requires |d| == STATE && GoodHeader(d)
  {
    State(d[1] == 1, d[2] == 1, d[3] == 1, ValueOf(d[4]), ValueOf(d[5]), ValueOf(d[6]), d[7] == 1, d[8] == 1,
          d[9], d[10], Received(d), d[24..24 + Count(d)], d[280..288], d[288..320], d[320..352])
  }

  lemma PartsSum(n: nat)
    requires n < 0x1_0000_0000
    ensures Part(n, 0) * 0x1000000 + Part(n, 1) * 0x10000 + Part(n, 2) * 0x100 + Part(n, 3) == n
  {
    var high, low := n / 0x10000, n % 0x10000;
    assert n / 0x100 % 256 == low / 0x100 && n % 256 == low % 256 && n / 0x1000000 == high / 256;
  }

  lemma DigitsBack(n: nat)
    requires n < 0x1_0000_0000
    ensures ValueOf(Digit(n, 0)) * 0x1000000 + ValueOf(Digit(n, 1)) * 0x10000 + ValueOf(Digit(n, 2)) * 0x100 +
            ValueOf(Digit(n, 3)) == n
  {
    PartsSum(n);
    hide Part, ByteOf, ValueOf;
    ByteValue(Part(n, 0));
    ByteValue(Part(n, 1));
    ByteValue(Part(n, 2));
    ByteValue(Part(n, 3));
  }

  lemma SizeMultiple(n: nat)
    requires n in {0, 4, 8}
    ensures ByteOf(n) <= 8 && ByteOf(n) & 3 == 0
  {
  }

  lemma MultipleSize(b: bv8)
    requires b <= 8 && b & 3 == 0
    ensures b == 0 || b == 4 || b == 8
  {
  }

  lemma SelectionByte(n: nat)
    requires n in {0, 5, 12, 13}
    ensures ByteOf(n) == 0 || ByteOf(n) == 5 || ByteOf(n) == 12 || ByteOf(n) == 13
  {
  }

  lemma PendingByte(n: nat)
    requires n <= 2
    ensures ByteOf(n) <= 2
  {
  }

  lemma HeaderBytes(s: State)
    requires SaneState(s)
    ensures
      var d := Encoding(s);
      && d[0] == 1 && d[1] == Flag(s.connected) && d[2] == Flag(s.known) && d[3] == Flag(s.notified)
      && d[4] == ByteOf(s.selection) && d[5] == ByteOf(s.pending) && d[6] == ByteOf(s.writeSize)
      && d[7] == Flag(s.inputHigh) && d[8] == Flag(s.rxComplete) && d[9] == s.leds && d[10] == s.repeat
  {
    hide KnownBits, Digit, ByteOf, Flag, Numbers;
  }

  lemma HeaderBack(s: State)
    requires SaneState(s)
    ensures GoodHeader(Encoding(s))
    ensures Count(Encoding(s)) == |s.keys| && Received(Encoding(s)) == s.rxBytes
  {
    HeaderBytes(s);
    CountBack(s);
    ReceivedBack(s);
    hide KnownBits, Received, Count, ByteOf, ValueOf, Encoding;
    SizeMultiple(s.writeSize);
    SelectionByte(s.selection);
    PendingByte(s.pending);
  }

  lemma CountBack(s: State)
    requires SaneState(s)
    ensures Count(Encoding(s)) == |s.keys|
  {
    hide KnownBits, Digit, ByteOf, ValueOf;
    ByteValue(|s.keys| / 256);
    ByteValue(|s.keys| % 256);
  }

  lemma ReceivedBack(s: State)
    requires SaneState(s)
    ensures Received(Encoding(s)) == s.rxBytes
  {
    hide KnownBits, Digit, ByteOf, ValueOf;
    DigitsBack(s.rxBytes);
  }

  /** Saving and restoring gives back every flag, bit map and the queued bytes. */
  lemma RoundTrip(s: State)
    requires SaneState(s)
    ensures Acceptable(Encoding(s)) && Decoded(Encoding(s)) == s
  {
    HeaderBytes(s);
    HeaderBack(s);
    TailBack(s);
    ByteValue(s.selection);
    ByteValue(s.pending);
    ByteValue(s.writeSize);
    hide KnownBits, Received, Count, ByteOf, ValueOf, Encoding, GoodRx;
  }

  lemma TailBack(s: State)
    requires SaneState(s)
    ensures
      var d := Encoding(s);
      && d[24..24 + |s.keys|] == s.keys && d[280..288] == s.written
      && d[288..320] == s.held && d[320..352] == s.release
  {
    hide KnownBits, Header;
  }

  /** No usage has a bit in both maps. */
  ghost predicate Disjoint(held: seq<Byte>, release: seq<Byte>)
    requires |held| == |release| == 32
  {
    forall u :: 0 <= u < USAGES ==> !(Unpack(held)[u] && Unpack(release)[u])
  }

  lemma SharedBit(held: seq<Byte>, release: seq<Byte>, u: nat)
    requires |held| == |release| == 32 && u < USAGES
    ensures Bit(held[u / 8] & release[u / 8], u % 8) == (Unpack(held)[u] && Unpack(release)[u])
  {
    hide Bit, Unpack;
    AndBits(held[u / 8], release[u / 8], u % 8);
    BitAt(held, u);
    BitAt(release, u);
  }

  lemma ApartByte(held: seq<Byte>, release: seq<Byte>, i: nat)
    requires |held| == |release| == 32 && i < 32 && Disjoint(held, release)
    ensures held[i] & release[i] == 0
  {
    hide Bit, Unpack;
    var b := held[i] & release[i];
    forall k | 0 <= k < 8
      ensures !Bit(b, k)
    {
      var u := 8 * i + k;
      assert u / 8 == i && u % 8 == k;
      SharedBit(held, release, u);
    }
    ZeroByte(b);
  }

  /** Two maps are disjoint exactly when no byte of one shares a bit with its partner. */
  lemma DisjointExact(held: seq<Byte>, release: seq<Byte>)
    requires |held| == |release| == 32
    ensures Disjoint(held, release) <==> forall i :: 0 <= i < 32 ==> held[i] & release[i] == 0
  {
    hide Bit, Unpack;
    if Disjoint(held, release) {
      forall i | 0 <= i < 32
        ensures held[i] & release[i] == 0
      {
        ApartByte(held, release, i);
      }
    } else {
      var u :| 0 <= u < USAGES && Unpack(held)[u] && Unpack(release)[u];
      SharedBit(held, release, u);
      ZeroByte(held[u / 8] & release[u / 8]);
    }
  }

  /** What a run leaves is disjoint: a usage told to be down is held or waiting, not both. */
  lemma RunsDisjoint(events: seq<Event>, held: seq<Byte>, release: seq<Byte>)
    requires |held| == |release| == 32 && Agrees(events, Unpack(held), Unpack(release))
    ensures Disjoint(held, release)
  {
  }

  /** Restoring is not so strict: it accepts, and gives back, maps that share a usage. */
  lemma AcceptsMore(s: State, usage: nat)
    requires SaneState(s) && usage < USAGES && Unpack(s.held)[usage]
    ensures
      var both := s.(release := s.held);
      && SaneState(both) && Acceptable(Encoding(both)) && Decoded(Encoding(both)) == both
      && !Disjoint(both.held, both.release)
  {
    RoundTrip(s.(release := s.held));
  }

  /** Such a state: usage 4 held, and nothing else. */
  lemma OneHeld(bytes: seq<Byte>)
    requires |bytes| == 32 && bytes[0] == 0x10 && forall i :: 1 <= i < 32 ==> bytes[i] == 0
    ensures KnownBits(bytes) && Unpack(bytes)[4]
  {
    forall u | 0 <= u < USAGES && Unpack(bytes)[u]
      ensures Usage(u).Some?
    {
      OnlyFour(bytes, u);
    }
    BitAt(bytes, 4);
  }

  lemma OnlyFour(bytes: seq<Byte>, u: nat)
    requires |bytes| == 32 && bytes[0] == 0x10 && (forall i :: 1 <= i < 32 ==> bytes[i] == 0)
    requires u < USAGES && Unpack(bytes)[u]
    ensures u == 4 && Usage(u).Some?
  {
    BitAt(bytes, u);
    NoBits(u % 8);
    hide Unpack;
    assert Table(4) == 0x1c;
  }

  /** Whatever is accepted is a state the device can work from. */
  lemma DecodedSane(d: seq<Byte>)
    requires |d| == STATE && Acceptable(d)
    ensures SaneState(Decoded(d))
  {
    hide KnownBits, Received, Count;
    MultipleSize(d[6]);
  }

  // ------------------------------------------------------------ the accessory

  /** What the bus controller grants a transfer: whether it listens, room and width, how
      many words it takes, whether it takes the closing command, and the port afterwards. */
  datatype Grant = Grant(listening: bool, wide: bool, room: nat, words: nat, closes: bool,
                         rxBytes: nat, rxComplete: bool)

  class Accessory {
    const keys: Keyboard
    const written: array<Byte>
    const held: array<Byte>
    const release: array<Byte>
    var connected: bool
    var addressed: bool
    var notified: bool
    var selection: nat
    var pending: nat
    var writeSize: nat
    var inputHigh: bool
    var rxComplete: bool
    var rxBytes: nat

    /** The events told so far, and how many of their scan bytes have left the ring. */
    ghost var events: seq<Event>
    ghost var gone: nat

    ghost predicate Apart()
    {
      && written.Length == 8 && held.Length == 32 && release.Length == 32
      && held != release && held != written && release != written
      && keys.queue != held && keys.queue != release && keys.queue != written
    }

    ghost predicate Stored()
      reads keys, keys.queue, held, release
    {
      Apart() && keys.Valid() && KnownBits(held[..]) && KnownBits(release[..])
    }

    ghost predicate Control()
      reads `selection, `pending, `writeSize, `rxBytes
    {
      selection in {0, 5, 12, 13} && pending <= 2 && writeSize in {0, 4, 8} && GoodRx(rxBytes)
    }

    /** What the device was told: the bits agree with it, and the ring holds what is left. */
    ghost predicate Faithful()
      requires Stored()
      reads `events, `gone, keys, keys.queue, held, release
    {
      && Agrees(events, Unpack(held[..]), Unpack(release[..]))
      && gone <= |Told(events)| && keys.Contents() == Rest(events, gone)
    }

    ghost predicate Sane()
      reads this, keys, keys.queue, held, release
    {
      Stored() && Control()
    }

    ghost predicate Valid()
      reads this, keys, keys.queue, held, release
    {
      Sane() && Faithful()
    }

    ghost function Value(): State
      requires Apart() && keys.Valid()
      reads this, keys, keys.queue, written, held, release
    {
      State(connected, addressed, notified, selection, pending, writeSize, inputHigh, rxComplete,
            keys.leds, keys.repeat, rxBytes, keys.Contents(), written[..], held[..], release[..])
    }

    ghost function Transfer(): Registers
      reads `addressed, `notified, `selection, `pending, `writeSize, `inputHigh
    {
      Registers(addressed, notified, selection, pending, writeSize, inputHigh)
    }

    constructor ()
      ensures Valid() && fresh(keys) && fresh(keys.queue) && fresh(written) && fresh(held) && fresh(release)
      ensures events == [] && !connected
    {
      keys := new Keyboard();
      written, held, release := new Byte[8](_ => 0), new Byte[32](_ => 0), new Byte[32](_ => 0);
      connected, addressed, notified, selection, pending, writeSize := false, false, false, 0, 0, 0;
      inputHigh, rxComplete, rxBytes, events, gone := false, false, 0, [], 0;
    }

    method Input(high: bool)
      modifies `inputHigh
      ensures inputHigh == if connected then high else old(inputHigh)
    {
      if connected { inputHigh := high; }
    }

    /** An addressed accessory holds its line high exactly while scan bytes wait that the
        guest was not told of. */
    ghost predicate LineRight()
      reads `addressed, `connected, `inputHigh, `notified, keys
    {
      addressed && connected ==> inputHigh == (keys.count > 0 && !notified)
    }

    /** Asks for attention while scan bytes wait that the guest was not told of. */
    method RequestLine()
      modifies `inputHigh
      ensures LineRight() && (!(addressed && connected) ==> inputHigh == old(inputHigh))
    {
      if addressed { Input(keys.count > 0 && !notified); }
    }

    /** One event through to the ring, whole or not at all. */
    method Tell(usage: nat, down: bool) returns (ok: bool)
      requires Valid() && Usage(usage).Some?
      modifies `inputHigh, keys`count, keys.queue
      ensures keys.Valid() && keys.leds == old(keys.leds) && keys.repeat == old(keys.repeat)
      ensures ok == (|ScanOf(usage, down)| <= CAPACITY - old(keys.count))
      ensures if ok then LineRight() else inputHigh == old(inputHigh)
      ensures keys.Contents() == old(keys.Contents()) + if ok then ScanOf(usage, down) else []
    {
      var key := Usage(usage).value;
      ok := keys.Key(key.code, key.extended, down);
      if ok { RequestLine(); }
    }

    /** Tells an event and settles the bit that stands for it: a make is held, a break is no
        longer waiting. */
    method TellKey(usage: nat, down: bool) returns (ok: bool)
      requires Valid() && Usage(usage).Some?
      requires if down then !Unpack(release[..])[usage] else Unpack(release[..])[usage]
      modifies `events, `inputHigh, keys`count, keys.queue, held, release
      ensures Valid() && gone == old(gone)
      ensures ok == (|ScanOf(usage, down)| <= CAPACITY - old(keys.count)) && (!ok ==> keys.count == old(keys.count))
      ensures events == old(events) + if ok then [Event(usage, down)] else []
      ensures if ok then LineRight() else inputHigh == old(inputHigh)
      ensures Unpack(held[..]) == if ok && down then old(Unpack(held[..]))[usage := true] else old(Unpack(held[..]))
      ensures Unpack(release[..]) ==
              if ok && !down then old(Unpack(release[..]))[usage := false] else old(Unpack(release[..]))
    {
      hide Unpack, Usage, Told, Agrees, Scan, ScanOf;
      ok := Tell(usage, down);
      if ok {
        ghost var e := Event(usage, down);
        ghost var wasHeld, wasRelease := Unpack(held[..]), Unpack(release[..]);
        KnownAppend(events, e, gone, wasHeld, wasRelease);
        if down {
          MakeAgrees(events, wasHeld, wasRelease, usage);
          SetBit(held, usage, true);
        } else {
          BreakAgrees(events, wasHeld, wasRelease, usage);
          SetBit(release, usage, false);
        }
        events := events + [e];
      }
    }

    /** Tells the waiting releases, lowest usage first, until one does not fit; none is ever
        lost. */
    method ReleaseKeys() returns (ghost told: seq<nat>)
      requires Valid()
      modifies `events, `inputHigh, keys`count, keys.queue, held, release
      ensures Valid() && gone == old(gone) && Unpack(held[..]) == old(Unpack(held[..]))
      ensures events == old(events) + Breaks(told)
      ensures old(Pending(Unpack(release[..]), 0)) == told + Pending(Unpack(release[..]), 0)
      ensures forall u :: 0 <= u < USAGES && !old(Unpack(release[..])[u]) ==> !Unpack(release[..])[u]
      ensures
        var left := Pending(Unpack(release[..]), 0);
        left != [] ==> Usage(left[0]).Some? && |ScanOf(left[0], false)| > CAPACITY - keys.count
    {
      hide Unpack, Usage, Faithful, Control, Scan, ScanOf, Breaks, Pending, KnownBits;
      told := [];
      assert Breaks(told) == [] by { NoBreaks(); }
      ghost var was := Unpack(release[..]);
      var usage := 0;
      while usage < USAGES
        invariant usage <= USAGES && Valid() && gone == old(gone) && Unpack(held[..]) == old(Unpack(held[..]))
        invariant events == old(events) + Breaks(told)
        invariant Pending(was, 0) == told + Pending(Unpack(release[..]), usage)
        invariant |Unpack(release[..])| == USAGES
        invariant forall u :: 0 <= u < usage ==> !Unpack(release[..])[u]
        invariant forall u :: 0 <= u < USAGES && !was[u] ==> !Unpack(release[..])[u]
      {
        BitAt(release[..], usage);
        PendingHead(Unpack(release[..]), usage);
        if Bit(release[usage / 8], usage % 8) {
          KnownHas(release[..], usage);
          ghost var now := Unpack(release[..]);
          var ok := TellKey(usage, false);
          if !ok {
            PendingSkip(Unpack(release[..]), usage);
            return;
          }
          PendingSame(now, Unpack(release[..]), usage + 1);
          BreaksAppend(told, usage);
          told := told + [usage];
        }
        usage := usage + 1;
      }
      PendingEnd(Unpack(release[..]));
      PendingSkip(Unpack(release[..]), USAGES);
    }

    ghost predicate Held(usage: nat)
      requires usage < USAGES && held.Length == 32
      reads this, held
    {
      Unpack(held[..])[usage]
    }

    ghost predicate Waiting(usage: nat)
      requires usage < USAGES && release.Length == 32
      reads this, release
    {
      Unpack(release[..])[usage]
    }

    /** The new event `e`, if any, and the bits when the key at `usage` goes down. */
    ghost predicate Down(usage: nat, again: bool, ok: bool, was: seq<Event>, free: int, wasHeld: bool, waiting: bool)
      requires Usage(usage).Some?
      reads this
    {
      if waiting then !ok && events == was
      else if wasHeld != again then ok && events == was
      else
        && ok == (|ScanOf(usage, true)| <= free)
        && events == was + if ok then [Event(usage, true)] else []
    }

    /** A host key: a make while its release waits, or for which there is no room, is
        refused; a release is never refused. */
    method HostKey(usage: nat, down: bool, again: bool) returns (ok: bool)
      requires Valid()
      modifies `events, `inputHigh, keys`count, keys.queue, held, release
      ensures Valid() && gone == old(gone) && old(events) <= events
      ensures Usage(usage).None? ==> !ok && events == old(events)
      ensures Usage(usage).Some? && down ==>
                Down(usage, again, ok, old(events), CAPACITY - old(keys.count), old(Held(usage)), old(Waiting(usage)))
      ensures Usage(usage).Some? && !down ==>
                && ok && !Held(usage)
                && (if old(Held(usage)) then
                      Waiting(usage) || Event(usage, false) in events[|old(events)|..]
                    else events == old(events))
    {
      hide Unpack, Usage, Told, Agrees, Scan, ScanOf;
      if Usage(usage).None? { return false; }
      BitAt(held[..], usage);
      BitAt(release[..], usage);
      var holding := Bit(held[usage / 8], usage % 8);
      if !down {
        if holding { LetGo(usage); }
        return true;
      }
      if Bit(release[usage / 8], usage % 8) { return false; }
      if holding && !again { return true; }
      if again && !holding { return true; }
      ok := TellKey(usage, true);
    }

    /** A held key that goes up waits for release until its break is told. */
    method LetGo(usage: nat)
      requires Valid() && usage < USAGES && Held(usage)
      modifies `events, `inputHigh, keys`count, keys.queue, held, release
      ensures Valid() && gone == old(gone) && !Held(usage) && old(events) <= events
      ensures Waiting(usage) || Event(usage, false) in events[|old(events)|..]
    {
      assert release.Length == 32;
      hide Unpack, Usage, Told, Scan, ScanOf, Sane, Faithful, Pending, Breaks;
      MoveToRelease(usage);
      ghost var before := Unpack(release[..]);
      ghost var told := ReleaseKeys();
      if !Waiting(usage) {
        PendingHas(before, usage, 0);
        PendingOnly(Unpack(release[..]), usage, 0);
        ghost var k :| 0 <= k < |told| && told[k] == usage;
        BreakAt(told, k);
        assert events[|old(events)| + k] == Event(usage, false);
      }
    }

    method MoveToRelease(usage: nat)
      requires Valid() && usage < USAGES && Held(usage)
      modifies held, release
      ensures Valid() && !Held(usage) && Waiting(usage)
    {
      hide Unpack, Usage, Told, Scan, ScanOf;
      SetBit(held, usage, false);
      SetBit(release, usage, true);
      assert Waiting(usage);
    }

    /** The host lost the keyboard: everything held now waits for release. */
    method ReleaseAll()
      requires Valid()
      modifies held, release
      ensures Valid()
      ensures forall u :: 0 <= u < USAGES ==> !Held(u) && Waiting(u) == (old(Held(u)) || old(Waiting(u)))
    {
      hide Usage, Told, Agrees, Bit, Unpack;
      ghost var h, r := held[..], release[..];
      var i := 0;
      while i < 32
        invariant i <= 32
        invariant forall k :: 0 <= k < i ==> held[k] == 0 && release[k] == r[k] | h[k]
        invariant forall k :: i <= k < 32 ==> held[k] == h[k] && release[k] == r[k]
      {
        release[i] := release[i] | held[i];
        held[i] := 0;
        i := i + 1;
      }
      MovedBits(h, r, held[..], release[..]);
      AllAgree(events, Unpack(h), Unpack(r), Unpack(held[..]), Unpack(release[..]));
    }

    /** Carries out the order that the word encodes, if it encodes one. */
    method Obey(word: bv16)
      requires Valid()
      modifies `addressed, `notified, `selection, `pending, `writeSize, `inputHigh
      ensures Valid()
      ensures forall order ::
                Reads(word, order) ==> Transfer() == Obeyed(old(Transfer()), connected, keys.count > 0, order)
      ensures !old(addressed) && !Reads(word, Some(Order(31, 7))) && !Reads(word, Some(Order(24, 0))) ==>
                Transfer() == old(Transfer())
    {
      hide Stored, Faithful, Control, Means;
      var order := Interpret(word);
      if order.Some? { Carry(order.value.op, order.value.address); }
    }

    method Carry(op: nat, a: nat)
      requires Valid()
      modifies `addressed, `notified, `selection, `pending, `writeSize, `inputHigh
      ensures Valid() && Transfer() == Obeyed(old(Transfer()), connected, keys.count > 0, Some(Order(op, a)))
    {
      hide Stored, Faithful, GoodRx, Slice;
      if op == 31 && a == 7 {
        ResetTransfer();
      } else if op == 24 && a == 0 {
        addressed := true;
      } else if !addressed || (a != 0 && a != 7) {
      } else {
        CarryAddressed(op, a);
      }
    }

    method ResetTransfer()
      requires Valid()
      modifies `addressed, `notified, `selection, `pending, `writeSize, `inputHigh
      ensures Valid() && Transfer() == Registers(false, false, 0, 0, 0, connected || old(inputHigh))
    {
      hide Stored, Faithful, GoodRx, Slice;
      ResetSelection();
      addressed, notified := false, false;
      Input(true);
    }

    method ResetSelection()
      requires Control()
      modifies `selection, `pending, `writeSize
      ensures Control() && selection == pending == writeSize == 0
    {
      hide GoodRx;
      selection, pending, writeSize := 0, 0, 0;
    }

    method CarryAddressed(op: nat, a: nat)
      requires Valid() && addressed && (a == 0 || a == 7) && !(op == 31 && a == 7) && !(op == 24 && a == 0)
      modifies `selection, `pending, `writeSize, `inputHigh
      ensures Valid() && Transfer() == Obeyed(old(Transfer()), connected, keys.count > 0, Some(Order(op, a)))
    {
      hide Stored, Faithful, GoodRx, Slice;
      if op == 21 && a == 0 {
        Input(false);
      } else if op == 28 {
        RequestLine();
      } else if a == 7 {
      } else if op == 1 || op == 2 {
        pending := op;
      } else if op == 5 {
        selection, writeSize := 5, 0;
      } else if op == 12 || op == 13 {
        selection := op;
      }
    }

    /** Takes four bytes of an envelope; the eighth byte hands it to the keyboard. */
    method Transmit(word: bv32, bits: nat)
      requires Valid()
      modifies `notified, `selection, `writeSize, `inputHigh, `gone, keys, written
      ensures Valid() && events == old(events)
      ensures
        if old(selection) != 5 || bits != 32 || old(writeSize) > 4 then Value() == old(Value()) && gone == old(gone)
        else
          && written[..] == old(Filled(written[..], writeSize, word)) && writeSize == old(writeSize) + 4
          && if writeSize < 8 then gone == old(gone) && selection == 5
             else
               && gone == (if Understood(written[..]) == Some(Reset) then |Told(events)| else old(gone))
               && selection == 0 && (keys.count == 0 ==> !notified) && LineRight()
    {
      hide Agrees, Told, KnownBits, Unpack, Understood, Filled, Slice;
      if selection == 5 && bits == 32 && writeSize <= 4 {
        TakeWord(word);
        if writeSize == 8 { Hand(); }
      }
    }

    method Hand()
      requires Valid() && writeSize == 8
      modifies `notified, `selection, `inputHigh, `gone, keys
      ensures Valid() && selection == 0 && (keys.count == 0 ==> !notified) && LineRight()
      ensures gone == if Understood(written[..]) == Some(Reset) then |Told(events)| else old(gone)
    {
      hide Stored, Faithful, GoodRx, Understood;
      Apply();
      selection := 0;
      if keys.count == 0 { notified := false; }
      RequestLine();
    }

    method Apply()
      requires Stored() && Faithful()
      modifies `gone, keys
      ensures Stored() && Faithful()
      ensures gone == if Understood(written[..]) == Some(Reset) then |Told(events)| else old(gone)
    {
      ghost var all := |Told(events)|;
      assert Told(events)[all..] == [];
      hide Agrees, Told, KnownBits, Unpack, Understood, Slice, Settings;
      var ok := keys.Write(written[..]);
      if Understood(written[..]) == Some(Reset) { gone := all; }
    }

    method TakeWord(word: bv32)
      requires written.Length == 8 && writeSize <= 4
      modifies `writeSize, written
      ensures writeSize == old(writeSize) + 4
      ensures written[..] == old(Filled(written[..], writeSize, word))
    {
      hide WordByte;
      ghost var before, at := written[..], writeSize;
      var i := 0;
      while i < 4
        invariant i <= 4 && writeSize == at + i
        invariant forall k :: 0 <= k < 8 ==>
                    written[k] == if at <= k < at + i then WordByte(word, k - at) else before[k]
      {
        written[writeSize] := WordByte(word, i);
        writeSize := writeSize + 1;
        i := i + 1;
      }
    }

    // ---------------------------------------------------------- answering the guest

    /** Reads the oldest scan bytes of a copy, so that nothing is consumed yet. */
    method Peek() returns (after: Keyboard, data: seq<Byte>)
      requires Stored()
      ensures fresh(after) && fresh(after.queue) && after.Valid()
      ensures data == ScanBlock(keys.Contents())
      ensures after.Contents() == keys.Contents()[Least(keys.count, 15)..]
      ensures after.leds == keys.leds && after.repeat == keys.repeat
    {
      hide KnownBits, Slice, ByteOf;
      after := keys.Copy();
      data := after.Read(16);
    }

    method TakeOver(after: Keyboard, ghost n: nat)
      requires Stored() && Faithful() && after.Valid() && after != keys && after.queue != keys.queue
      requires n <= keys.count && after.Contents() == keys.Contents()[n..]
      modifies `gone, keys, keys.queue
      ensures Stored() && Faithful() && gone == old(gone) + n
    {
      ghost var all, was := Told(events), gone;
      hide KnownBits, Agrees, Told, Unpack, Slice, Settings;
      assert all[was..][n..] == all[was + n..];
      keys.Assign(after);
      gone := gone + n;
    }

    /** Tells the releases that have room, and answers the guest's read if it is ready for
        one. */
    method Service(profile: seq<Byte>, grant: Grant) returns (ghost told: seq<nat>, delivered: seq<Byte>)
      requires Valid() && GoodRx(grant.rxBytes)
      modifies `events, `gone, `inputHigh, `pending, `selection, `notified, `rxBytes, `rxComplete
      modifies keys, keys.queue, held, release
      ensures Valid() && events == old(events) + Breaks(told)
      ensures !connected ==> Value() == old(Value()) && gone == old(gone) && told == [] && delivered == []
      ensures connected ==> old(Pending(Unpack(release[..]), 0)) == told + Pending(Unpack(release[..]), 0)
      ensures
        var left := Pending(Unpack(release[..]), 0);
        connected && left != [] ==>
          Usage(left[0]).Some? && |ScanOf(left[0], false)| > CAPACITY - |Rest(events, old(gone))|
      ensures connected && (old(pending) == 0 || !grant.listening) ==>
                delivered == [] && gone == old(gone) && Reading() == old(Reading())
      ensures connected && old(pending) != 0 && grant.listening ==>
                Answered(old(Reading()), Rest(events, old(gone)), profile, grant, old(gone), delivered)
    {
      assert Apart();
      hide Stored, Faithful, GoodRx, Pending, Rest, Breaks, Answered, Unpack, Usage, ScanOf;
      told, delivered := [], [];
      assert Breaks(told) == [] by { NoBreaks(); }
      if !connected { return; }
      told := ReleaseKeys();
      RingHolds();
      if pending == 0 || !grant.listening { return; }
      delivered := AnswerRead(profile, grant);
    }

    lemma RingHolds()
      requires Valid()
      ensures keys.count == |Rest(events, gone)|
    {
      hide KnownBits, Agrees, Rest;
    }

    /** What the answer to a read depends on and changes. */
    ghost function Reading(): (nat, nat, bool)
      reads `pending, `selection, `notified
    {
      (pending, selection, notified)
    }

    /** The read is over. If the controller took the whole answer and the closing command,
        a request has told the guest of the scan bytes, and any other read has used up the
        selection; scan bytes leave the ring exactly then, and a failed transfer costs none. */
    ghost predicate Answered(was: (nat, nat, bool), waiting: seq<Byte>, profile: seq<Byte>, grant: Grant,
                             wasGone: nat, delivered: seq<Byte>)
      reads `pending, `selection, `notified, `gone, `addressed, `connected, `inputHigh, keys
    {
      var (asked, selected, told) := was;
      var answer := AnswerTo(asked, selected, waiting, profile);
      var taken := answer.Some? && Accepts(grant, answer.value);
      && pending == 0
      && (answer.None? ==> delivered == []) && (answer.Some? ==> delivered <= Padded(answer.value))
      && (taken ==> delivered == Padded(answer.value) && LineRight())
      && selection == (if taken && asked != 1 then 0 else selected)
      && notified == (if !taken then told else if asked == 1 then true else if selected == 0 then false else told)
      && gone == wasGone + (if taken && asked != 1 && selected == 0 then Least(|waiting|, 15) else 0)
    }

    method AnswerRead(profile: seq<Byte>, grant: Grant) returns (delivered: seq<Byte>)
      requires Valid() && GoodRx(grant.rxBytes) && pending != 0
      modifies `gone, `inputHigh, `pending, `selection, `notified, `rxBytes, `rxComplete, keys, keys.queue
      ensures Valid() && events == old(events)
      ensures Answered(old(Reading()), Rest(events, old(gone)), profile, grant, old(gone), delivered)
    {
      RingHolds();
      hide Stored, Faithful, GoodRx, Padded, Rest, ScanBlock, Accepts, Answered, AnswerTo;
      if pending == 1 {
        delivered := ServeRequest(profile, grant);
      } else if selection == 12 || selection == 13 {
        delivered := ServeFixed(profile, grant);
      } else if selection == 0 {
        delivered := ServeScan(profile, grant);
      } else {
        delivered := Refuse(profile, grant);
      }
    }

    /** With an envelope selected a read is refused. */
    method Refuse(profile: seq<Byte>, grant: Grant) returns (delivered: seq<Byte>)
      requires Valid() && pending == 2 && selection == 5
      modifies `pending
      ensures Valid()
      ensures Answered(old(Reading()), Rest(events, gone), profile, grant, gone, delivered)
    {
      hide Stored, Faithful, GoodRx, Padded, Rest, ScanBlock, Accepts;
      delivered := [];
      pending := 0;
    }

    method ServeRequest(profile: seq<Byte>, grant: Grant) returns (delivered: seq<Byte>)
      requires Valid() && GoodRx(grant.rxBytes) && pending == 1
      modifies `inputHigh, `pending, `notified, `rxBytes, `rxComplete
      ensures Valid()
      ensures Answered(old(Reading()), Rest(events, gone), profile, grant, gone, delivered)
    {
      RingHolds();
      hide Valid, Padded, Rest, ScanBlock, Accepts, AnswerTo, Slice;
      var note: Byte := if keys.count > 0 then 0x0e else 0;
      RequestAnswer(selection, Rest(events, gone), profile, note);
      var taken;
      delivered, taken := SendNote(note, grant);
    }

    method SendNote(note: Byte, grant: Grant) returns (delivered: seq<Byte>, taken: bool)
      requires Valid() && GoodRx(grant.rxBytes)
      modifies `inputHigh, `pending, `notified, `rxBytes, `rxComplete
      ensures Valid() && pending == 0 && notified == (old(notified) || taken) && (taken ==> LineRight())
      ensures taken == Accepts(grant, [0, note, 0, 0])
      ensures delivered <= Padded([0, note, 0, 0]) && (taken ==> delivered == Padded([0, note, 0, 0]))
    {
      hide Stored, Faithful, Control, GoodRx, Padded, Accepts;
      delivered, taken := Deliver([0, note, 0, 0], grant);
      if taken { Notify(); }
    }

    /** The guest knows of the scan bytes. */
    method Notify()
      requires Valid()
      modifies `inputHigh, `notified
      ensures Valid() && notified && LineRight()
    {
      hide Stored, Faithful, Control;
      notified := true;
      RequestLine();
    }

    method ServeFixed(profile: seq<Byte>, grant: Grant) returns (delivered: seq<Byte>)
      requires Valid() && GoodRx(grant.rxBytes) && pending == 2 && (selection == 12 || selection == 13)
      modifies `inputHigh, `pending, `selection, `rxBytes, `rxComplete
      ensures Valid()
      ensures Answered(old(Reading()), Rest(events, gone), profile, grant, gone, delivered)
    {
      hide Stored, Faithful, GoodRx, Padded, Rest, ScanBlock, Accepts;
      var data := if selection == 12 then ID else profile;
      assert AnswerTo(2, selection, Rest(events, gone), profile) == Some(data);
      hide AnswerTo;
      var taken;
      delivered, taken := Deliver(data, grant);
      if taken {
        selection := 0;
        RequestLine();
      }
    }

    method ServeScan(profile: seq<Byte>, grant: Grant) returns (delivered: seq<Byte>)
      requires Valid() && GoodRx(grant.rxBytes) && pending == 2 && selection == 0
      modifies `gone, `inputHigh, `pending, `selection, `notified, `rxBytes, `rxComplete, keys, keys.queue
      ensures Valid() && events == old(events)
      ensures Answered(old(Reading()), Rest(events, old(gone)), profile, grant, old(gone), delivered)
    {
      assert keys.Contents() == Rest(events, gone);
      RingHolds();
      hide Stored, Faithful, Slice, Padded, Rest, GoodRx, ByteOf;
      var after, data := Peek();
      assert AnswerTo(2, 0, Rest(events, gone), profile) == Some(data);
      hide AnswerTo, ScanBlock;
      var taken;
      delivered, taken := Deliver(data, grant);
      if taken { Commit(after, Least(keys.count, 15)); }
    }

    method Commit(after: Keyboard, ghost n: nat)
      requires Valid() && after.Valid() && after != keys && after.queue != keys.queue
      requires n <= keys.count && after.Contents() == keys.Contents()[n..]
      modifies `gone, `inputHigh, `selection, `notified, keys, keys.queue
      ensures Valid() && gone == old(gone) + n && selection == 0 && !notified && LineRight()
    {
      hide Stored, Faithful, Slice, GoodRx;
      TakeOver(after, n);
      selection, notified := 0, false;
      RequestLine();
    }

    /** Hands over the words the controller takes, and the closing command behind the last;
        the read is over either way. */
    method Deliver(data: seq<Byte>, grant: Grant) returns (delivered: seq<Byte>, taken: bool)
      requires GoodRx(grant.rxBytes)
      modifies `pending, `rxBytes, `rxComplete
      ensures pending == 0 && (old(Control()) ==> Control())
      ensures taken == Accepts(grant, data)
      ensures delivered <= Padded(data) && (taken ==> delivered == Padded(data))
    {
      pending := 0;
      delivered, taken := [], false;
      var rounded := (|data| + 3) / 4 * 4;
      if !grant.wide || rounded > grant.room { return; }
      rxBytes, rxComplete := grant.rxBytes, grant.rxComplete;
      var bytes := data + seq(rounded - |data|, _ => 0);
      if rounded > 4 * grant.words { return bytes[..4 * grant.words], false; }
      return bytes, grant.closes;
    }

    // ---------------------------------------------------------- saving and restoring

    method Encode(d: array<Byte>)
      requires Sane() && d.Length == STATE && d != written && d != held && d != release && d != keys.queue
      modifies d
      ensures SaneState(Value()) && d[..] == Encoding(Value())
    {
      assert rxBytes < 0x1_0000_0000;
      hide KnownBits, Header, Slice, Unpack, GoodRx;
      ghost var v := Value();
      LampsAndRate(keys.leds, keys.repeat);
      var h := Head(connected, addressed, notified, selection, pending, writeSize, inputHigh, rxComplete,
                    keys.leds, keys.repeat, keys.count, rxBytes);
      assert HeadOf(v) == h && GoodHead(h);
      EncodeHead(d, h);
      EncodeKeys(d);
      EncodeMaps(d);
      assert forall k :: 0 <= k < STATE ==> d[k] == Encoded(v, k);
    }

    method EncodeHead(d: array<Byte>, h: Head)
      requires d.Length == STATE && GoodHead(h)
      modifies d
      ensures forall k :: 0 <= k < STATE ==> d[k] == if k < 24 then Header(h, k) else 0
    {
      hide Header;
      forall k | 0 <= k < STATE {
        d[k] := 0;
      }
      forall k | 0 <= k < 24 {
        d[k] := Header(h, k);
      }
    }

    method EncodeMaps(d: array<Byte>)
      requires Apart() && d.Length == STATE && d != written && d != held && d != release
      modifies d
      ensures forall k :: 280 <= k < 288 ==> d[k] == written[k - 280]
      ensures forall k :: 288 <= k < 320 ==> d[k] == held[k - 288]
      ensures forall k :: 320 <= k < 352 ==> d[k] == release[k - 320]
      ensures forall k :: 0 <= k < STATE && !(280 <= k < 352) ==> d[k] == old(d[k])
    {
      forall k | 0 <= k < 8 {
        d[280 + k] := written[k];
      }
      forall k | 0 <= k < 32 {
        d[288 + k] := held[k];
      }
      forall k | 0 <= k < 32 {
        d[320 + k] := release[k];
      }
    }

    method EncodeKeys(d: array<Byte>)
      requires keys.Valid() && d.Length == STATE && d != keys.queue
      modifies d
      ensures forall k :: 24 <= k < 24 + keys.count ==> d[k] == keys.Contents()[k - 24]
      ensures forall k :: 0 <= k < STATE && !(24 <= k < 24 + keys.count) ==> d[k] == old(d[k])
    {
      hide At;
      var i := 0;
      while i < keys.count
        invariant i <= keys.count
        invariant forall k :: 24 <= k < 24 + i ==> d[k] == keys.Contents()[k - 24]
        invariant forall k :: 0 <= k < STATE && !(24 <= k < 24 + i) ==> d[k] == old(d[k])
      {
        d[24 + i] := keys.queue[At(keys.head, i)];
        i := i + 1;
      }
    }

    /** Accepts exactly the well-formed saved states, and then becomes the saved device; on
        anything else nothing changes. */
    method Decode(d: array<Byte>) returns (ok: bool)
      requires Stored() && d.Length == STATE
      requires d != written && d != held && d != release && d != keys.queue
      modifies this, keys, keys.queue, written, held, release
      ensures ok == Acceptable(d[..])
      ensures ok ==> Sane() && Value() == Decoded(d[..])
      ensures !ok ==> Stored() && Value() == old(Value())
    {
      hide KnownBits, GoodHeader, Slice;
      if !GoodHeader(d[..]) { return false; }
      var known := OnlyKnown(d);
      if !known { return false; }
      DecodedSane(d[..]);
      LampsAndRate(d[9], d[10]);
      var s := Decoded(d[..]);
      Restore(s);
      ok := true;
    }

    method Restore(s: State)
      requires Apart() && keys.queue.Length == CAPACITY && SaneState(s) && Settings(s.leds, s.repeat)
      modifies this, keys, keys.queue, written, held, release
      ensures Sane() && Value() == s
    {
      hide KnownBits, Slice, Settings, GoodRx;
      connected, addressed, notified := s.connected, s.known, s.notified;
      selection, pending, writeSize := s.selection, s.pending, s.writeSize;
      inputHigh, rxComplete, rxBytes := s.inputHigh, s.rxComplete, s.rxBytes;
      keys.Load(s.keys, s.leds, s.repeat);
      RestoreMaps(s.written, s.held, s.release);
    }

    method RestoreMaps(w: seq<Byte>, h: seq<Byte>, r: seq<Byte>)
      requires Apart() && |w| == 8 && |h| == |r| == 32
      modifies written, held, release
      ensures written[..] == w && held[..] == h && release[..] == r
    {
      forall k | 0 <= k < 8 {
        written[k] := w[k];
      }
      forall k | 0 <= k < 32 {
        held[k] := h[k];
      }
      forall k | 0 <= k < 32 {
        release[k] := r[k];
      }
    }
  }

  /** No bit of either map stands for an unknown usage. */
  method OnlyKnown(d: array<Byte>) returns (ok: bool)
    requires d.Length == STATE
    ensures ok == (KnownBits(d[288..320]) && KnownBits(d[320..352]))
  {
    hide Unpack, Usage, Bit;
    var u := 0;
    while u < USAGES
      invariant u <= USAGES
      invariant forall v :: 0 <= v < u ==>
                  (Unpack(d[288..320])[v] || Unpack(d[320..352])[v] ==> Usage(v).Some?)
    {
      BitAt(d[288..320], u);
      BitAt(d[320..352], u);
      OrBits(d[288 + u / 8], d[320 + u / 8], u % 8);
      if Bit(d[288 + u / 8] | d[320 + u / 8], u % 8) && Usage(u).None? { return false; }
      u := u + 1;
    }
    ok := true;
  }

  const ID: seq<Byte> := [0x4d, 0x42, 0x4b, 0x42]

  /** What a read is answered with: whether there are scan bytes, the accessory's identity,
      its profile, or a count and up to 15 scan bytes; with an envelope selected, nothing. */
  ghost function AnswerTo(asked: nat, selected: nat, waiting: seq<Byte>, profile: seq<Byte>): Option<seq<Byte>> {
    if asked == 1 then Some([0, if |waiting| > 0 then 0x0e else 0, 0, 0])
    else if selected == 12 then Some([0x4d, 0x42, 0x4b, 0x42])
    else if selected == 13 then Some(profile)
    else if selected == 0 then Some(ScanBlock(waiting))
    else None
  }

  lemma RequestAnswer(selected: nat, waiting: seq<Byte>, profile: seq<Byte>, note: Byte)
    requires note == if |waiting| > 0 then 0x0e else 0
    ensures AnswerTo(1, selected, waiting, profile) == Some([0, note, 0, 0])
  {
  }

  ghost function ScanBlock(bytes: seq<Byte>): seq<Byte> {
    var n := Least(|bytes|, 15);
    [ByteOf(n)] + bytes[..n]
  }

  /** Whole words, zeros at the end. */
  function Padded(data: seq<Byte>): (r: seq<Byte>)
    ensures |r| % 4 == 0 && data <= r && |r| < |data| + 4
  {
    data + seq((4 - |data| % 4) % 4, _ => 0)
  }

  /** The controller takes the whole block and the closing command. */
  predicate Accepts(grant: Grant, data: seq<Byte>) {
    var size := |Padded(data)|;
    grant.wide && size <= grant.room && size <= 4 * grant.words && grant.closes
  }

  lemma LampsAndRate(leds: Byte, repeat: Byte)
    ensures Settings(leds, repeat) <==> leds <= 7 && repeat <= 127
  {
  }

  lemma NoBits(k: nat)
    requires k < 8
    ensures !Bit(0, k)
  {
  }

  lemma MovedBits(h: seq<Byte>, r: seq<Byte>, h': seq<Byte>, r': seq<Byte>)
    requires |h| == |r| == |h'| == |r'| == 32
    requires forall k :: 0 <= k < 32 ==> h'[k] == 0 && r'[k] == r[k] | h[k]
    ensures forall u :: 0 <= u < USAGES ==> !Unpack(h')[u] && Unpack(r')[u] == (Unpack(h)[u] || Unpack(r)[u])
  {
    forall u | 0 <= u < USAGES
      ensures !Unpack(h')[u] && Unpack(r')[u] == (Unpack(h)[u] || Unpack(r)[u])
    {
      hide Unpack, Bit;
      BitAt(h, u);
      BitAt(r, u);
      BitAt(h', u);
      BitAt(r', u);
      OrBits(r[u / 8], h[u / 8], u % 8);
      NoBits(u % 8);
    }
  }

  lemma AllAgree(events: seq<Event>, h: seq<bool>, r: seq<bool>, h': seq<bool>, r': seq<bool>)
    requires Agrees(events, h, r) && |h'| == |r'| == USAGES
    requires forall u :: 0 <= u < USAGES ==> !h'[u] && r'[u] == (h[u] || r[u])
    ensures Agrees(events, h', r')
  {
    hide LastDown, KnownEvents;
  }

  lemma {:induction false} PendingHas(bits: seq<bool>, u: nat, from: nat)
    requires from <= u < |bits| && bits[u]
    ensures u in Pending(bits, from)
    decreases |bits| - from
  {
    if from < u {
      PendingHas(bits, u, from + 1);
    }
  }

  lemma {:induction false} PendingOnly(bits: seq<bool>, u: nat, from: nat)
    requires from <= |bits| && u < |bits| && !bits[u]
    ensures u !in Pending(bits, from)
    decreases |bits| - from
  {
    if from < |bits| {
      PendingOnly(bits, u, from + 1);
    }
  }

  lemma BitAt(bytes: seq<Byte>, u: nat)
    requires u < 8 * |bytes|
    ensures Unpack(bytes)[u] == Bit(bytes[u / 8], u % 8)
  {
  }

  lemma KnownAppend(events: seq<Event>, e: Event, gone: nat, held: seq<bool>, release: seq<bool>)
    requires Agrees(events, held, release) && Usage(e.usage).Some? && gone <= |Told(events)|
    ensures KnownEvents(events + [e]) && gone <= |Told(events + [e])|
    ensures Rest(events + [e], gone) == Rest(events, gone) + ScanOf(e.usage, e.down)
  {
    ToldAppend(events, e);
    hide Told, ScanOf;
  }

  method SetBit(a: array<Byte>, u: nat, bit: bool)
    requires a.Length == 32 && u < USAGES && KnownBits(a[..]) && (bit ==> Usage(u).Some?)
    modifies a
    ensures KnownBits(a[..]) && Unpack(a[..]) == old(Unpack(a[..]))[u := bit]
  {
    hide Unpack, Usage;
    StoreBit(a[..], u, bit);
    a[u / 8] := Put(a[u / 8], u % 8, bit);
  }
}
