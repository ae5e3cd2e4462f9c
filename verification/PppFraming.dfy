/** Async PPP framing: octet stuffing, the frame check sequence and the transmit ring, and
    the receiver that undoes them (sections 4.2 and C.2 of RFC 1662). */
module PppFraming {
  import opened Words
  import opened Wrappers

  type Octet = bv8

  const FLAG: Octet := 0x7E
  const ESCAPE: Octet := 0x7D
  const FRAME_MAX: nat := 4096
  const TX_CAP: nat := 65536

  datatype Packet = Packet(protocol: bv16, payload: seq<Octet>)

  // ------------------------------------------------------------ frame check sequence

  function FcsShift(f: bv16): bv16 {
    (f >> 1) ^ (if f & 1 == 1 then 0x8408 else 0)
  }

  function FcsUpdate(f: bv16, b: Octet): bv16 {
    FcsShift(FcsShift(FcsShift(FcsShift(FcsShift(FcsShift(FcsShift(FcsShift(f ^ (b as bv16)))))))))
  }

  function Fcs(data: seq<Octet>): bv16
    decreases |data|
  {
    if data == [] then 0xFFFF else FcsUpdate(Fcs(data[..|data| - 1]), data[|data| - 1])
  }

  function LowOctet(v: bv16): Octet { (v & 0xFF) as bv8 }
  function HighOctet(v: bv16): Octet { (v >> 8) as bv8 }

  const GOOD_FCS: bv16 := 0xF0B8

  /** Appending the complemented sequence, low octet first, always leaves the same residue. */
  lemma ResidueStep(f: bv16)
    ensures FcsUpdate(FcsUpdate(f, LowOctet(!f)), HighOctet(!f)) == GOOD_FCS
  {
  }

  lemma FcsNext(data: seq<Octet>, b: Octet)
    ensures Fcs(data + [b]) == FcsUpdate(Fcs(data), b)
  {
    assert (data + [b])[..|data|] == data;
  }

  function Trailer(data: seq<Octet>): (r: seq<Octet>)
    ensures |r| == 2
  {
    [LowOctet(!Fcs(data)), HighOctet(!Fcs(data))]
  }

  lemma Residue(data: seq<Octet>)
    ensures Fcs(data + Trailer(data)) == GOOD_FCS
  {
    hide FcsUpdate, LowOctet, HighOctet;
    var lo, hi := LowOctet(!Fcs(data)), HighOctet(!Fcs(data));
    FcsNext(data, lo);
    FcsNext(data + [lo], hi);
    assert data + Trailer(data) == data + [lo] + [hi];
    ResidueStep(Fcs(data));
  }

  /** The check value of the sequence: the digits 1 to 9. */
  lemma CheckValue()
    ensures !Fcs([0x31, 0x32, 0x33, 0x34, 0x35, 0x36, 0x37, 0x38, 0x39]) == 0x906E
  {
    hide FcsUpdate;
    Digits();
    var d: seq<Octet> := [0x31, 0x32, 0x33, 0x34, 0x35, 0x36, 0x37, 0x38, 0x39];
    assert d[..0] == [] && d[..9] == d;
    assert Fcs(d[..0]) == 0xFFFF;
    hide Fcs;
    FcsPrefix(d, 0);
    FcsPrefix(d, 1);
    FcsPrefix(d, 2);
    FcsPrefix(d, 3);
    FcsPrefix(d, 4);
    FcsPrefix(d, 5);
    FcsPrefix(d, 6);
    FcsPrefix(d, 7);
    FcsPrefix(d, 8);
  }

  lemma FcsPrefix(data: seq<Octet>, i: nat)
    requires i < |data|
    ensures Fcs(data[..i + 1]) == FcsUpdate(Fcs(data[..i]), data[i])
  {
    hide FcsUpdate;
    FcsNext(data[..i], data[i]);
    assert data[..i] + [data[i]] == data[..i + 1];
  }

  lemma Digits()
    ensures FcsUpdate(0xFFFF, 0x31) == 0x2F8D && FcsUpdate(0x2F8D, 0x32) == 0x4D53
    ensures FcsUpdate(0x4D53, 0x33) == 0x634B && FcsUpdate(0x634B, 0x34) == 0x8B13
    ensures FcsUpdate(0x8B13, 0x35) == 0x44BF && FcsUpdate(0x44BF, 0x36) == 0x198D
    ensures FcsUpdate(0x198D, 0x37) == 0x1AC8 && FcsUpdate(0x1AC8, 0x38) == 0xF795
    ensures FcsUpdate(0xF795, 0x39) == 0x6F91
  {
  }

  // ------------------------------------------------------------ frames

  /** Stuffing toggles bit 5. */
  function Flip(b: Octet): Octet { b ^ 0x20 }

  /** A protocol field of one octet is odd. */
  predicate Odd(b: Octet) { b & 1 == 1 }

  function Wide(b: Octet): bv16 { b as bv16 }

  function Both(high: Octet, low: Octet): bv16 { ((high as bv16) << 8) | (low as bv16) }

  predicate Special(b: Octet) {
    b < 0x20 || b == ESCAPE || b == FLAG
  }

  function Stuffed(data: seq<Octet>): (r: seq<Octet>)
    ensures |data| <= |r| <= 2 * |data|
  {
    if data == [] then []
    else (if Special(data[0]) then [ESCAPE, Flip(data[0])] else [data[0]]) + Stuffed(data[1..])
  }

  /** Address, control, protocol and payload. */
  function Body(p: Packet): seq<Octet> {
    [0xFF, 0x03, HighOctet(p.protocol), LowOctet(p.protocol)] + p.payload
  }

  function Raw(p: Packet): seq<Octet> {
    Body(p) + Trailer(Body(p))
  }

  function Frame(p: Packet): seq<Octet> {
    [FLAG] + Stuffed(Raw(p)) + [FLAG]
  }

  predicate Sendable(p: Packet) {
    |p.payload| + 6 <= FRAME_MAX
  }

  lemma StuffedNone()
    ensures Stuffed([]) == []
  {
  }

  lemma {:induction false} StuffedNext(data: seq<Octet>, b: Octet)
    ensures Stuffed(data + [b]) == Stuffed(data) + (if Special(b) then [ESCAPE, Flip(b)] else [b])
    decreases |data|
  {
    hide Special, Flip;
    if data == [] {
      assert data + [b] == [b];
      assert Stuffed([]) == [];
    } else {
      assert (data + [b])[1..] == data[1..] + [b];
      StuffedNext(data[1..], b);
    }
  }

  /** The wire form, octet by octet (section 4.2 of RFC 1662). */
  lemma StuffedOctet(data: seq<Octet>, b: Octet)
    ensures Stuffed(data + [b]) ==
            Stuffed(data) + (if b < 0x20 || b == 0x7D || b == 0x7E then [0x7D, b ^ 0x20] else [b])
  {
    StuffedNext(data, b);
  }

  /** Stuffed data holds no flag and no control octet. */
  lemma {:induction false} Transparent(data: seq<Octet>)
    ensures forall i :: 0 <= i < |Stuffed(data)| ==> Stuffed(data)[i] >= 0x20 && Stuffed(data)[i] != 0x7E
    decreases |data|
  {
    if data != [] {
      Transparent(data[1..]);
      OneTransparent(data[0]);
      hide Special, Flip;
    }
  }

  lemma OneTransparent(b: Octet)
    ensures if Special(b) then Flip(b) >= 0x20 && Flip(b) != 0x7E else b >= 0x20 && b != 0x7E
  {
  }

  lemma StuffedPrefix(raw: seq<Octet>, i: nat)
    requires i < |raw|
    ensures Stuffed(raw[..i + 1]) == Stuffed(raw[..i]) + (if Special(raw[i]) then [ESCAPE, Flip(raw[i])] else [raw[i]])
  {
    hide Special, Flip, Stuffed;
    assert raw[..i + 1] == raw[..i] + [raw[i]];
    StuffedNext(raw[..i], raw[i]);
  }

  /** The frame check sequence of a frame under construction. */
  method FcsOf(raw: seq<Octet>) returns (fcs: bv16)
    ensures fcs == Fcs(raw)
  {
    hide FcsUpdate;
    fcs := 0xFFFF;
    assert raw[..0] == [];
    for i := 0 to |raw|
      invariant fcs == Fcs(raw[..i])
    {
      FcsPrefix(raw, i);
      fcs := FcsUpdate(fcs, raw[i]);
    }
    assert raw[..|raw|] == raw;
  }

  /** Index of the `i`th octet of the ring. */
  function Place(first: nat, i: nat): (r: nat)
    ensures r < TX_CAP
  {
    (first + i) % TX_CAP
  }

  /** The transmit ring. */
  class TxRing {
    const tx: array<Octet>
    var first: nat
    var len: nat
    /** What the consumer has still to read, in order. */
    ghost var contents: seq<Octet>

    ghost predicate Valid()
      reads this, tx
    {
      && tx.Length == TX_CAP && first < TX_CAP && len <= TX_CAP && |contents| == len
      && forall i :: 0 <= i < len ==> tx[Place(first, i)] == contents[i]
    }

    constructor ()
      ensures Valid() && contents == [] && fresh(tx)
    {
      tx := new Octet[TX_CAP](_ => 0);
      first := 0;
      len := 0;
      contents := [];
    }

    method Push(b: Octet) returns (ok: bool)
      requires Valid()
      modifies this`len, this`contents, tx
      ensures Valid() && ok == (old(len) < TX_CAP)
      ensures contents == if ok then old(contents) + [b] else old(contents)
      ensures len == old(len) + (if ok then 1 else 0)
    {
      if len == TX_CAP {
        return false;
      }
      forall i | 0 <= i < len
        ensures Place(first, i) != Place(first, len)
      {
        Apart(first, i, len);
      }
      tx[Place(first, len)] := b;
      len := len + 1;
      contents := contents + [b];
      ok := true;
    }

    method Read() returns (ok: bool, b: Octet)
      requires Valid()
      modifies this`first, this`len, this`contents
      ensures Valid() && ok == (old(contents) != [])
      ensures ok ==> old(contents) == [b] + contents
      ensures !ok ==> contents == old(contents)
    {
      if len == 0 {
        return false, 0;
      }
      b := tx[first];
      ok := true;
      forall i | 0 <= i < len - 1
        ensures Place(Place(first, 1), i) == Place(first, i + 1)
      {
        Later(first, i);
      }
      assert Place(first, 0) == first;
      first := Place(first, 1);
      len := len - 1;
      contents := contents[1..];
    }

    method PushStuffed(b: Octet)
      requires Valid() && len + 2 <= TX_CAP
      modifies this`len, this`contents, tx
      ensures Valid() && contents == old(contents) + (if Special(b) then [ESCAPE, Flip(b)] else [b])
      ensures len <= old(len) + 2
    {
      hide Special, Flip, Valid;
      var ok;
      if Special(b) {
        ok := Push(ESCAPE);
        ok := Push(Flip(b));
      } else {
        ok := Push(b);
      }
    }

    method PushFrame(raw: seq<Octet>)
      requires Valid() && TX_CAP - len >= 2 * |raw| + 2
      modifies this`len, this`contents, tx
      ensures Valid() && contents == old(contents) + ([FLAG] + Stuffed(raw) + [FLAG])
    {
      hide Special, Flip, Valid, Stuffed;
      StuffedNone();
      assert raw[..0] == [];
      var ok := Push(FLAG);
      ghost var start := contents;
      for i := 0 to |raw|
        invariant Valid() && len <= old(len) + 1 + 2 * i
        invariant contents == start + Stuffed(raw[..i])
      {
        StuffedPrefix(raw, i);
        PushStuffed(raw[i]);
      }
      assert raw[..|raw|] == raw;
      ok := Push(FLAG);
    }

    /** A packet becomes one whole frame in the ring, or nothing at all. */
    method Send(p: Packet)
      requires Valid()
      modifies this`len, this`contents, tx
      ensures Valid()
      ensures contents == old(contents)
                          + (if Sendable(p) && TX_CAP - old(len) >= 2 * |Raw(p)| + 2 then Frame(p) else [])
    {
      hide Fcs, LowOctet, HighOctet, Stuffed;
      if |p.payload| + 6 > FRAME_MAX {
        return;
      }
      var raw := [0xFF, 0x03, HighOctet(p.protocol), LowOctet(p.protocol)] + p.payload;
      var fcs := FcsOf(raw);
      raw := raw + [LowOctet(!fcs), HighOctet(!fcs)];
      if TX_CAP - len >= 2 * |raw| + 2 {
        PushFrame(raw);
      }
    }
  }

  lemma Apart(first: nat, i: nat, j: nat)
    requires first < TX_CAP && i < j < TX_CAP
    ensures Place(first, i) != Place(first, j)
  {
  }

  lemma Later(first: nat, i: nat)
    requires first < TX_CAP && i < TX_CAP
    ensures Place(Place(first, 1), i) == Place(first, i + 1)
  {
  }

  // ------------------------------------------------------------ the receiver

  /** The receiver's state: a pending escape, a flag seen, and the octets since it. */
  datatype Receiver = Receiver(escaped: bool, started: bool, frame: seq<Octet>)

  /** What a complete frame carries, if it is one. */
  function Decoded(frame: seq<Octet>): Option<Packet> {
    if |frame| < 6 || Fcs(frame) != GOOD_FCS then None
    else
      var n := |frame| - 2;
      var at := if frame[0] == 0xFF && frame[1] == 0x03 then 2 else 0;
      if Odd(frame[at]) then Some(Packet(Wide(frame[at]), frame[at + 1..n]))
      else if at + 1 < n then
        Some(Packet(Both(frame[at], frame[at + 1]), frame[at + 2..n]))
      else None
  }

  function Feed(r: Receiver, b: Octet): (Receiver, seq<Packet>) {
    if b == FLAG then
      var packet := if !r.escaped && r.started && r.frame != [] then Decoded(r.frame) else None;
      (Receiver(false, true, []), if packet.Some? then [packet.value] else [])
    else if !r.started then (r, [])
    else if !r.escaped && b == ESCAPE then (r.(escaped := true), [])
    else
      var c := if r.escaped then Flip(b) else b;
      (Receiver(false, true, if |r.frame| < FRAME_MAX then r.frame + [c] else []), [])
  }

  function FeedAll(r: Receiver, data: seq<Octet>): (Receiver, seq<Packet>)
    decreases |data|
  {
    if data == [] then (r, [])
    else
      var (r1, out) := Feed(r, data[0]);
      var (r2, rest) := FeedAll(r1, data[1..]);
      (r2, out + rest)
  }

  class Framer {
    const frame: array<Octet>
    var frameLen: nat
    var escaped: bool
    var frameStarted: bool
    /** Packets handed on so far. */
    ghost var delivered: seq<Packet>

    ghost predicate Valid()
      reads this
    {
      frame.Length == FRAME_MAX && frameLen <= FRAME_MAX
    }

    ghost function State(): Receiver
      requires Valid()
      reads this, frame
    {
      Receiver(escaped, frameStarted, frame[..frameLen])
    }

    constructor ()
      ensures Valid() && State() == Receiver(false, false, []) && delivered == [] && fresh(frame)
    {
      frame := new Octet[FRAME_MAX](_ => 0);
      frameLen := 0;
      escaped, frameStarted := false, false;
      delivered := [];
    }

    /** One octet from the guest in data mode. */
    method Write(b: Octet) returns (packet: Option<Packet>)
      requires Valid()
      modifies this, frame
      ensures Valid() && State() == Feed(old(State()), b).0
      ensures Feed(old(State()), b).1 == if packet.Some? then [packet.value] else []
      ensures delivered == old(delivered) + Feed(old(State()), b).1
    {
      hide Fcs;
      packet := None;
      if b == FLAG {
        if escaped {
          escaped := false;
          frameLen := 0;
        } else if frameStarted && frameLen > 0 {
          packet := Receive();
          delivered := if packet.Some? then delivered + [packet.value] else delivered;
        }
        frameStarted := true;
        frameLen := 0;
        return;
      }
      if !frameStarted {
        return;
      }
      var c := b;
      if escaped {
        c := Flip(b);
        escaped := false;
      } else if b == ESCAPE {
        escaped := true;
        return;
      }
      if frameLen < FRAME_MAX {
        frame[frameLen] := c;
        frameLen := frameLen + 1;
      } else {
        frameLen := 0;
      }
    }

    /** Check the frame in the buffer and take it apart. */
    method Receive() returns (packet: Option<Packet>)
      requires Valid()
      ensures packet == Decoded(frame[..frameLen])
    {
      hide Fcs, Odd, Wide, Both;
      if frameLen < 6 {
        return None;
      }
      var f := frame[..frameLen];
      var fcs := FcsOf(f);
      if fcs != GOOD_FCS {
        return None;
      }
      var n, at := frameLen - 2, 0;
      if f[0] == 0xFF && f[1] == 0x03 {
        at := 2;
      }
      if Odd(f[at]) {
        return Some(Packet(Wide(f[at]), f[at + 1..n]));
      }
      if at + 1 < n {
        return Some(Packet(Both(f[at], f[at + 1]), f[at + 2..n]));
      }
      packet := None;
    }
  }

  // ------------------------------------------------------------ round trip

  lemma {:induction false} FeedConcat(r: Receiver, a: seq<Octet>, b: seq<Octet>)
    ensures
      var (r1, out) := FeedAll(r, a);
      var (r2, rest) := FeedAll(r1, b);
      FeedAll(r, a + b) == (r2, out + rest)
    decreases |a|
  {
    hide Feed;
    if a == [] {
      assert a + b == b;
      var rest := FeedAll(r, b).1;
      assert [] + rest == rest;
    } else {
      assert (a + b)[1..] == a[1..] + b;
      var (r1, out) := Feed(r, a[0]);
      FeedConcat(r1, a[1..], b);
      var (r2, more) := FeedAll(r1, a[1..]);
      assert out + (more + FeedAll(r2, b).1) == out + more + FeedAll(r2, b).1;
    }
  }

  lemma FeedNone(r: Receiver)
    ensures FeedAll(r, []) == (r, [])
  {
  }

  lemma FeedOne(r: Receiver, b: Octet)
    ensures FeedAll(r, [b]) == Feed(r, b)
  {
    hide Feed;
    var (r1, out) := Feed(r, b);
    FeedNone(r1);
    assert [b][1..] == [];
    assert out + [] == out;
  }

  lemma FlipBack(b: Octet)
    ensures Flip(Flip(b)) == b
    ensures Special(b) ==> Flip(b) != FLAG
  {
  }

  /** One octet of the body, stuffed or not, arrives as itself. */
  lemma FeedStuffed(f: seq<Octet>, b: Octet)
    requires |f| < FRAME_MAX
    ensures FeedAll(Receiver(false, true, f), if Special(b) then [ESCAPE, Flip(b)] else [b])
            == (Receiver(false, true, f + [b]), [])
  {
    hide Decoded, Flip;
    var r := Receiver(false, true, f);
    FlipBack(b);
    if Special(b) {
      FeedOne(r, ESCAPE);
      FeedOne(Receiver(true, true, f), Flip(b));
      FeedConcat(r, [ESCAPE], [Flip(b)]);
      assert [ESCAPE] + [Flip(b)] == [ESCAPE, Flip(b)];
    } else {
      FeedOne(r, b);
    }
  }

  /** Stuffing is undone exactly. */
  lemma {:induction false} FeedBody(f: seq<Octet>, data: seq<Octet>)
    requires |f| + |data| <= FRAME_MAX
    ensures FeedAll(Receiver(false, true, f), Stuffed(data)) == (Receiver(false, true, f + data), [])
    decreases |data|
  {
    hide Special, Flip, Feed;
    if data == [] {
      assert f + data == f;
      FeedNone(Receiver(false, true, f));
    } else {
      var head := if Special(data[0]) then [ESCAPE, Flip(data[0])] else [data[0]];
      FeedStuffed(f, data[0]);
      FeedConcat(Receiver(false, true, f), head, Stuffed(data[1..]));
      FeedBody(f + [data[0]], data[1..]);
      assert f + [data[0]] + data[1..] == f + data;
    }
  }

  lemma ProtocolBack(p: bv16)
    ensures Both(HighOctet(p), LowOctet(p)) == p
    ensures Odd(HighOctet(p)) ==> Wide(HighOctet(p)) != p
  {
  }

  /** Bit 8 of a protocol number is the one that tells compressed numbers from whole ones. */
  predicate WholeProtocol(p: bv16) {
    p & 0x100 == 0
  }

  lemma OddHigh(p: bv16)
    ensures Odd(HighOctet(p)) <==> !WholeProtocol(p)
  {
  }

  /** Decoding a frame's octets gives the packet back exactly when its protocol number has
      an even high octet, as every number the receiver handles has. */
  lemma DecodesExactly(p: Packet)
    ensures Decoded(Raw(p)) == Some(p) <==> WholeProtocol(p.protocol)
  {
    OddHigh(p.protocol);
    hide WholeProtocol;
    hide Fcs, Odd, Wide, Both, HighOctet, LowOctet;
    var raw := Raw(p);
    Residue(Body(p));
    ProtocolBack(p.protocol);
    assert raw[0] == 0xFF && raw[1] == 0x03 && raw[2] == HighOctet(p.protocol) && raw[3] == LowOctet(p.protocol);
    assert raw[4..|raw| - 2] == p.payload;
  }

  /** A receiver between frames. */
  predicate Between(r: Receiver) {
    !r.escaped && (!r.started || r.frame == [])
  }

  lemma FrameArrives(r: Receiver, p: Packet)
    requires Between(r) && Sendable(p)
    ensures FeedAll(r, Frame(p)) ==
            (Receiver(false, true, []), if Decoded(Raw(p)).Some? then [Decoded(Raw(p)).value] else [])
  {
    hide Fcs, Stuffed, Decoded, Trailer;
    var raw := Raw(p);
    var r1 := Receiver(false, true, []);
    FeedOne(r, FLAG);
    FeedBody([], raw);
    assert [] + raw == raw;
    FeedOne(Receiver(false, true, raw), FLAG);
    var out := if Decoded(raw).Some? then [Decoded(raw).value] else [];
    assert Feed(r, FLAG) == (r1, []) && Feed(Receiver(false, true, raw), FLAG) == (r1, out);
    assert [] + [] + out == out;
    FeedConcat(r, [FLAG], Stuffed(raw));
    FeedConcat(r, [FLAG] + Stuffed(raw), [FLAG]);
  }

  function Frames(packets: seq<Packet>): seq<Octet>
    decreases |packets|
  {
    if packets == [] then [] else Frame(packets[0]) + Frames(packets[1..])
  }

  /** Framing round trip: whatever packets are sent, the receiver hands on the same
      protocols and payloads in the same order. */
  lemma {:induction false} FramesRoundTrip(r: Receiver, packets: seq<Packet>)
    requires Between(r)
    requires forall i :: 0 <= i < |packets| ==> Sendable(packets[i]) && WholeProtocol(packets[i].protocol)
    ensures FeedAll(r, Frames(packets)).1 == packets && Between(FeedAll(r, Frames(packets)).0)
    decreases |packets|
  {
    hide WholeProtocol, Frame, Decoded;
    if packets == [] {
      FeedNone(r);
    } else {
      FrameArrives(r, packets[0]);
      DecodesExactly(packets[0]);
      FeedConcat(r, Frame(packets[0]), Frames(packets[1..]));
      FramesRoundTrip(Receiver(false, true, []), packets[1..]);
    }
  }
}
