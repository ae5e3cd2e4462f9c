/** The NE2000's receive ring and remote DMA: accepted frames form a FIFO in packet RAM,
    threaded by the page numbers in their headers, and a remote read gives them back across
    the wrap at PSTOP (section 7 of the DP8390D datasheet). */
module Ne2000 {
  import opened Words
  import opened Crc

  const RAM_BASE: nat := 0x4000
  const RAM_SIZE: nat := 0x4000

  // ------------------------------------------------------------ packets

  function Octets(data: seq<Byte>): seq<bv8> {
    seq(|data|, i requires 0 <= i < |data| => data[i] as bv8)
  }

  /** The frame check sequence on the wire, low byte first. */
  function FcsBytes(crc: bv32): (r: seq<Byte>)
    ensures |r| == 4
  {
    [Octet(crc, 0) as int, Octet(crc, 8) as int, Octet(crc, 16) as int, Octet(crc, 24) as int]
  }

  function Fcs(data: seq<Byte>): (r: seq<Byte>)
    ensures |r| == 4
  {
    FcsBytes(Complement(Register(Octets(data))))
  }

  predicate IsFrame(frame: seq<Byte>) {
    14 <= |frame| <= 1518
  }

  predicate IsGroup(frame: seq<Byte>)
    requires |frame| >= 1
  {
    frame[0] % 2 == 1
  }

  function Padded(frame: seq<Byte>): (r: seq<Byte>)
    ensures |r| == if |frame| < 60 then 60 else |frame|
  {
    if |frame| < 60 then frame + seq(60 - |frame|, _ => 0) else frame
  }

  /** Length in the header: the padded frame and its check sequence. */
  function Count(frame: seq<Byte>): nat {
    |Padded(frame)| + 4
  }

  function Pages(frame: seq<Byte>): (p: nat)
    ensures p >= 1
  {
    (Count(frame) + 4 + 255) / 256
  }

  /** What the ring holds for a frame: header, frame, zero padding, check sequence. */
  function PacketBytes(frame: seq<Byte>, next: Byte): (r: seq<Byte>)
    requires IsFrame(frame)
    ensures |r| == Count(frame) + 4 <= Pages(frame) * 256
  {
    [if IsGroup(frame) then 0x21 else 1, next, Count(frame) % 256, Count(frame) / 256]
    + Padded(frame) + Fcs(Padded(frame))
  }

  lemma PacketPlaces(frame: seq<Byte>, next: Byte, i: nat)
    requires IsFrame(frame) && i < |Padded(frame)|
    ensures PacketBytes(frame, next)[4 + i] == Padded(frame)[i] == if i < |frame| then frame[i] else 0
  {
    hide Fcs;
  }

  lemma PacketBody(frame: seq<Byte>, next: Byte)
    requires IsFrame(frame)
    ensures PacketBytes(frame, next)[4..] == Padded(frame) + Fcs(Padded(frame))
  {
    hide Fcs, Padded;
  }

  /** What a driver can rely on: a packet fills its pages but for less than one, its header
      carries the next page and the length behind the header, and behind the header come
      the frame, zeros up to 60 bytes, and a check sequence that brings the Ethernet
      register to its residue. */
  lemma PacketLayout(frame: seq<Byte>, next: Byte)
    requires IsFrame(frame)
    ensures
      var p := PacketBytes(frame, next);
      && |p| <= Pages(frame) * 256 < |p| + 256
      && p[1] == next && (p[3] as int) * 0x100 + p[2] == |p| - 4
      && |p| == (if |frame| < 60 then 60 else |frame|) + 8
      && p[4..4 + |frame|] == frame && (forall i :: 4 + |frame| <= i < |p| - 4 ==> p[i] == 0)
      && Register(Octets(p[4..])) == RESIDUE
  {
    hide Fcs, Register, PacketBytes;
    var p := PacketBytes(frame, next);
    forall i | 4 <= i < |p| - 4
      ensures p[i] == if i - 4 < |frame| then frame[i - 4] else 0
    {
      PacketPlaces(frame, next, i - 4);
    }
    PacketHead(frame, next);
    assert p[4..4 + |frame|] == frame;
    PacketBody(frame, next);
    FcsResidue(Padded(frame));
  }

  lemma PacketHead(frame: seq<Byte>, next: Byte)
    requires IsFrame(frame)
    ensures
      var p := PacketBytes(frame, next);
      p[1] == next && (p[3] as int) * 0x100 + p[2] == |p| - 4
  {
    hide Fcs, Padded;
  }

  lemma FcsOctets(crc: bv32)
    ensures Octets(FcsBytes(crc)) == Trailer(crc)
  {
    hide Octet;
    OctetBack(Octet(crc, 0));
    OctetBack(Octet(crc, 8));
    OctetBack(Octet(crc, 16));
    OctetBack(Octet(crc, 24));
  }

  lemma OctetBack(o: bv8)
    ensures (o as int) as bv8 == o
  {
  }

  lemma OctetsJoin(a: seq<Byte>, b: seq<Byte>)
    ensures Octets(a + b) == Octets(a) + Octets(b)
  {
  }

  lemma FcsResidue(data: seq<Byte>)
    ensures Register(Octets(data + Fcs(data))) == RESIDUE
  {
    hide Register, Complement, FcsBytes, Trailer, Octets;
    FcsOctets(Complement(Register(Octets(data))));
    OctetsJoin(data, Fcs(data));
    Residue(Octets(data));
  }

  // ------------------------------------------------------------ ring geometry

  datatype Ring = Ring(pstart: nat, pstop: nat)

  predicate RingOk(g: Ring) {
    0x40 <= g.pstart < g.pstop <= 0x80
  }

  predicate InRing(g: Ring, page: nat) {
    g.pstart <= page < g.pstop
  }

  function Size(g: Ring): nat
    requires RingOk(g)
  {
    g.pstop - g.pstart
  }

  /** The page `k` pages after `page`, wrapping once. */
  function PageAt(g: Ring, page: nat, k: nat): (r: nat)
    requires RingOk(g) && InRing(g, page) && k <= Size(g)
    ensures InRing(g, r)
  {
    if page + k < g.pstop then page + k else page + k - Size(g)
  }

  /** Index into packet RAM of byte `i` of the ring from `page` on. */
  function Addr(g: Ring, page: nat, i: nat): (r: nat)
    requires RingOk(g) && InRing(g, page) && i < Size(g) * 256
    ensures r < RAM_SIZE
  {
    var a := page * 256 + i;
    (if a < g.pstop * 256 then a else a - Size(g) * 256) - RAM_BASE
  }

  lemma AddrInjective(g: Ring, page: nat, i: nat, j: nat)
    requires RingOk(g) && InRing(g, page) && i < Size(g) * 256 && j < Size(g) * 256 && i != j
    ensures Addr(g, page, i) != Addr(g, page, j)
  {
  }

  /** Counting from a later page is counting further from an earlier one. */
  lemma AddrFrom(g: Ring, page: nat, k: nat, i: nat)
    requires RingOk(g) && InRing(g, page) && k < Size(g) && k * 256 + i < Size(g) * 256
    ensures Addr(g, PageAt(g, page, k), i) == Addr(g, page, k * 256 + i)
  {
  }

  lemma PageFrom(g: Ring, page: nat, k: nat, j: nat)
    requires RingOk(g) && InRing(g, page) && k + j < Size(g)
    ensures PageAt(g, PageAt(g, page, k), j) == PageAt(g, page, k + j)
  {
  }

  // ------------------------------------------------------------ the queue

  function TotalPages(frames: seq<seq<Byte>>): nat
    decreases |frames|
  {
    if frames == [] then 0 else Pages(frames[0]) + TotalPages(frames[1..])
  }

  predicate Stored(ram: seq<Byte>, g: Ring, page: nat, at: nat, bytes: seq<Byte>) {
    && |ram| == RAM_SIZE && RingOk(g) && InRing(g, page) && at + |bytes| <= Size(g) * 256
    && forall i :: 0 <= i < |bytes| ==> ram[Addr(g, page, at + i)] == bytes[i]
  }

  /** From page `off` after BNRY on, the ring lists exactly these frames: each packet's
      header names the page of the next one. */
  predicate Chain(ram: seq<Byte>, g: Ring, bnry: nat, off: nat, frames: seq<seq<Byte>>)
    decreases |frames|
  {
    && RingOk(g) && InRing(g, bnry) && off + TotalPages(frames) < Size(g)
    && (frames == [] ||
        (var f, n := frames[0], off + Pages(frames[0]);
         && IsFrame(f) && n < Size(g)
         && Stored(ram, g, bnry, off * 256, PacketBytes(f, PageAt(g, bnry, n)))
         && Chain(ram, g, bnry, n, frames[1..])))
  }

  /** The unread frames, oldest first, fill the ring from BNRY to CURR. */
  predicate Holds(ram: seq<Byte>, g: Ring, bnry: nat, curr: nat, frames: seq<seq<Byte>>) {
    Chain(ram, g, bnry, 0, frames) && curr == PageAt(g, bnry, TotalPages(frames))
  }

  lemma {:induction false} TotalAppend(frames: seq<seq<Byte>>, f: seq<Byte>)
    ensures TotalPages(frames + [f]) == TotalPages(frames) + Pages(f)
    decreases |frames|
  {
    if frames == [] {
      assert frames + [f] == [f];
      assert TotalPages([]) == 0;
    } else {
      assert (frames + [f])[1..] == frames[1..] + [f];
      TotalAppend(frames[1..], f);
    }
  }

  /** Bytes before `limit` are the same in both memories. */
  predicate SameBelow(ram: seq<Byte>, ram1: seq<Byte>, g: Ring, page: nat, limit: nat) {
    && |ram| == RAM_SIZE && |ram1| == RAM_SIZE && RingOk(g) && InRing(g, page) && limit <= Size(g) * 256
    && forall i :: 0 <= i < limit ==> ram1[Addr(g, page, i)] == ram[Addr(g, page, i)]
  }

  lemma StoredKept(ram: seq<Byte>, ram1: seq<Byte>, g: Ring, page: nat, at: nat, bytes: seq<Byte>, limit: nat)
    requires SameBelow(ram, ram1, g, page, limit) && Stored(ram, g, page, at, bytes) && at + |bytes| <= limit
    ensures Stored(ram1, g, page, at, bytes)
  {
    hide Addr;
  }

  /** A packet stored behind the last one joins the chain, and the others stay. */
  lemma {:induction false} ChainAppend(ram: seq<Byte>, ram1: seq<Byte>, g: Ring, bnry: nat, off: nat,
                                       frames: seq<seq<Byte>>, f: seq<Byte>)
    requires |ram| == RAM_SIZE && Chain(ram, g, bnry, off, frames) && IsFrame(f)
    requires off + TotalPages(frames) + Pages(f) < Size(g)
    requires SameBelow(ram, ram1, g, bnry, (off + TotalPages(frames)) * 256)
    requires Stored(ram1, g, bnry, (off + TotalPages(frames)) * 256,
                    PacketBytes(f, PageAt(g, bnry, off + TotalPages(frames) + Pages(f))))
    ensures Chain(ram1, g, bnry, off, frames + [f])
    decreases |frames|
  {
    hide PageAt, PacketBytes, Pages, Stored, SameBelow;
    TotalAppend(frames, f);
    if frames == [] {
      assert (frames + [f])[1..] == [];
    } else {
      var n := off + Pages(frames[0]);
      assert (frames + [f])[0] == frames[0] && (frames + [f])[1..] == frames[1..] + [f];
      var bytes := PacketBytes(frames[0], PageAt(g, bnry, n));
      StoredKept(ram, ram1, g, bnry, off * 256, bytes, (off + TotalPages(frames)) * 256);
      ChainAppend(ram, ram1, g, bnry, n, frames[1..], f);
    }
  }

  /** The chain seen from a later page. */
  lemma {:induction false} ChainFrom(ram: seq<Byte>, g: Ring, bnry: nat, k: nat, off: nat, frames: seq<seq<Byte>>)
    requires |ram| == RAM_SIZE && RingOk(g) && InRing(g, bnry) && k < Size(g)
    requires Chain(ram, g, bnry, k + off, frames)
    ensures Chain(ram, g, PageAt(g, bnry, k), off, frames)
    decreases |frames|
  {
    hide Addr, PacketBytes, Pages, PageAt;
    if frames != [] {
      var n := off + Pages(frames[0]);
      var page := PageAt(g, bnry, k);
      var bytes := PacketBytes(frames[0], PageAt(g, bnry, k + n));
      PageFrom(g, bnry, k, n);
      forall i | 0 <= i < |bytes|
        ensures ram[Addr(g, page, off * 256 + i)] == bytes[i]
      {
        AddrFrom(g, bnry, k, off * 256 + i);
        assert ram[Addr(g, bnry, (k + off) * 256 + i)] == bytes[i];
      }
      ChainFrom(ram, g, bnry, k, n, frames[1..]);
    }
  }

  /** Advancing BNRY to the page named in the oldest packet's header removes exactly that
      frame. */
  lemma Consumed(ram: seq<Byte>, g: Ring, bnry: nat, curr: nat, frames: seq<seq<Byte>>)
    requires |ram| == RAM_SIZE && Holds(ram, g, bnry, curr, frames) && frames != []
    ensures
      var next := ram[Addr(g, bnry, 1)];
      InRing(g, next) && Holds(ram, g, next, curr, frames[1..])
  {
    hide Chain, Pages;
    ChainHead(ram, g, bnry, frames);
    var n := Pages(frames[0]);
    ChainFrom(ram, g, bnry, n, 0, frames[1..]);
    PageFrom(g, bnry, n, TotalPages(frames[1..]));
  }

  lemma ChainHead(ram: seq<Byte>, g: Ring, bnry: nat, frames: seq<seq<Byte>>)
    requires |ram| == RAM_SIZE && Chain(ram, g, bnry, 0, frames) && frames != []
    ensures IsFrame(frames[0]) && Pages(frames[0]) + TotalPages(frames[1..]) < Size(g)
    ensures Stored(ram, g, bnry, 0, PacketBytes(frames[0], PageAt(g, bnry, Pages(frames[0]))))
    ensures Chain(ram, g, bnry, Pages(frames[0]), frames[1..])
    ensures ram[Addr(g, bnry, 1)] == PageAt(g, bnry, Pages(frames[0]))
  {
    var bytes := PacketBytes(frames[0], PageAt(g, bnry, Pages(frames[0])));
    assert bytes[1] == PageAt(g, bnry, Pages(frames[0]));
    assert ram[Addr(g, bnry, 0 + 1)] == bytes[1];
  }

  // ------------------------------------------------------------ the device

  predicate Bit(v: Byte, mask: nat)
    requires mask > 0
  {
    (v / mask) % 2 == 1
  }

  predicate IsMask(mask: nat) {
    mask == 1 || mask == 2 || mask == 4 || mask == 8 || mask == 16 || mask == 32 || mask == 64
  }

  function SetBit(v: Byte, mask: nat): Byte
    requires IsMask(mask)
  {
    if Bit(v, mask) then v else if v + mask < 256 then v + mask else v
  }

  /** Testing a register is the mask's and with it, setting a bit the mask's or. */
  lemma BitIsAnd(v: Byte, k: nat)
    requires k < 8
    ensures Bit(v, Pow2(k)) <==> Bitwise(BitAnd, v, Pow2(k)) != 0
  {
    OneBitOnly(v, k);
    hide Pow2, Bitwise;
  }

  lemma SetBitIsOr(v: Byte, mask: nat, k: nat)
    requires k < 7 && mask == Pow2(k)
    ensures IsMask(mask) && SetBit(v, mask) == Bitwise(BitOr, v, mask)
  {
    MaskIs(k);
    OneBitOnly(v, k);
    hide Pow2, Bitwise;
    Fits(v, mask);
  }

  lemma MaskIs(k: nat)
    requires k < 7
    ensures IsMask(Pow2(k))
  {
    assert Pow2(0) == 1 && Pow2(2) == 4 && Pow2(4) == 16 && Pow2(6) == 64;
  }

  lemma Fits(v: Byte, mask: nat)
    requires IsMask(mask)
    ensures Bit(v, mask) || v + mask < 256
  {
  }

  /** The six-bit multicast hash of an address. */
  function Hash(address: seq<Byte>): (h: nat)
    ensures h < 64
  {
    Reverse6Is(Register(Octets(address)));
    Reverse6(Register(Octets(address))) as nat
  }

  lemma HashIs(address: seq<Byte>, h: bv32)
    requires h == Reverse6(Register(Octets(address)))
    ensures h as nat == Hash(address) < 64
  {
  }

  predicate IsBroadcast(frame: seq<Byte>)
    requires |frame| >= 6
  {
    forall i :: 0 <= i < 6 ==> frame[i] == 255
  }

  /** The receive filter: broadcast, multicast by hash, promiscuous or own address. */
  predicate Accepts(rcr: Byte, par: seq<Byte>, mar: seq<Byte>, frame: seq<Byte>)
    requires |frame| >= 6 && |mar| == 8
  {
    if IsBroadcast(frame) then Bit(rcr, 4)
    else if IsGroup(frame) then
      var hash := Hash(frame[..6]);
      Bit(rcr, 8) && Bit(mar[hash / 8], Pow2(hash % 8))
    else Bit(rcr, 16) || frame[..6] == par
  }

  /** The filter in the registers' own terms: RCR bit 2 is for broadcasts, bit 3 for group
      addresses the hash table names, bit 4 for every other address that is not this
      station's. */
  lemma AcceptsExactly(rcr: Byte, par: seq<Byte>, mar: seq<Byte>, frame: seq<Byte>)
    requires |frame| >= 6 && |mar| == 8
    ensures IsGroup(frame) <==> Bitwise(BitAnd, frame[0], 1) != 0
    ensures frame[..6] == [255, 255, 255, 255, 255, 255] ==>
              (Accepts(rcr, par, mar, frame) <==> Bitwise(BitAnd, rcr, Pow2(2)) != 0)
    ensures frame[..6] != [255, 255, 255, 255, 255, 255] && IsGroup(frame) ==>
              var h := Hash(frame[..6]);
              Accepts(rcr, par, mar, frame) <==>
                Bitwise(BitAnd, rcr, Pow2(3)) != 0 && Bitwise(BitAnd, mar[h / 8], Pow2(h % 8)) != 0
    ensures !IsGroup(frame) ==>
              (Accepts(rcr, par, mar, frame) <==> Bitwise(BitAnd, rcr, Pow2(4)) != 0 || frame[..6] == par)
  {
    hide Hash, Bitwise;
    assert Pow2(0) == 1 && Pow2(2) == 4 && Pow2(3) == 8 && Pow2(4) == 16;
    BitIsAnd(frame[0], 0);
    BitIsAnd(rcr, 2);
    BitIsAnd(rcr, 3);
    BitIsAnd(rcr, 4);
    var h := Hash(frame[..6]);
    BitIsAnd(mar[h / 8], h % 8);
    BroadcastIs(frame);
  }

  lemma BroadcastIs(frame: seq<Byte>)
    requires |frame| >= 6
    ensures IsBroadcast(frame) <==> frame[..6] == [255, 255, 255, 255, 255, 255]
    ensures IsBroadcast(frame) ==> IsGroup(frame)
  {
    assert frame[..6] == [frame[0], frame[1], frame[2], frame[3], frame[4], frame[5]];
  }

  class Nic {
    var cr: Byte
    var isr: Byte
    var rcr: Byte
    var rsr: Byte
    var pstart: Byte
    var pstop: Byte
    var bnry: Byte
    var curr: Byte
    var par: seq<Byte>
    var mar: seq<Byte>
    var prom: seq<Byte>
    const ram: array<Byte>
    var rsar: nat
    var rbcr: nat
    /** The missed-frame tally. */
    var tally: Byte
    var unsupported: nat
    var rxPackets: nat
    var rxFiltered: nat
    var rxOverruns: nat

    ghost predicate Valid()
      reads this
    {
      && ram.Length == RAM_SIZE && |par| == 6 && |mar| == 8 && |prom| == 32
      && rsar < 0x1_0000 && rbcr < 0x1_0000
    }

    function Geometry(): Ring
      reads this
    {
      Ring(pstart, pstop)
    }

    /** The unread frames are exactly `frames`. */
    ghost predicate Queue(frames: seq<seq<Byte>>)
      requires Valid()
      reads this, ram
    {
      Holds(ram[..], Geometry(), bnry, curr, frames)
    }

    constructor (mac: seq<Byte>)
      requires |mac| == 6
      ensures Valid() && fresh(ram) && cr == 0x21 && isr == 0x80
      ensures forall i :: 0 <= i < 16 ==>
                prom[2 * i] == prom[2 * i + 1] == (if i < 6 then mac[i] else if i >= 14 then 0x57 else 0)
    {
      ram := new Byte[RAM_SIZE](_ => 0);
      cr, isr, rcr, rsr := 0x21, 0x80, 0, 0;
      pstart, pstop, bnry, curr := 0, 0, 0, 0;
      par := seq(6, _ => 0);
      mar := seq(8, _ => 0);
      prom := seq(32, k requires 0 <= k < 32 =>
        if k / 2 < 6 then mac[k / 2] else if k / 2 >= 14 then 0x57 else 0);
      rsar, rbcr, tally := 0, 0, 0;
      unsupported, rxPackets, rxFiltered, rxOverruns := 0, 0, 0, 0;
    }

    method Missed()
      requires Valid()
      modifies this`tally, this`isr
      ensures Valid() && tally == (old(tally) + 1) % 256
      ensures isr == if tally == 0x80 then SetBit(old(isr), 0x20) else old(isr)
    {
      tally := (tally + 1) % 256;
      if tally == 0x80 {
        isr := SetBit(isr, 0x20);
      }
    }

    /** The interrupts after a frame was missed: the tally's own when it reached 128. */
    predicate Missing(now: Byte, before: Byte)
      reads this
    {
      now == if tally == 0x80 then SetBit(before, 0x20) else before
    }

    /** Free pages between CURR and BNRY; no limit when BNRY is outside the ring. */
    function Available(): int
      requires RingOk(Geometry())
      reads this
    {
      if !InRing(Geometry(), bnry) then 0xFFFF_FFFF
      else if bnry > curr then bnry - curr
      else pstop - curr + bnry - pstart
    }

    /** Write a packet into the ring from CURR, wrapping at PSTOP. */
    method Copy(packet: seq<Byte>)
      requires Valid() && RingOk(Geometry()) && InRing(Geometry(), curr)
      modifies ram
      ensures |packet| <= Size(Geometry()) * 256 ==>
                && Stored(ram[..], Geometry(), curr, 0, packet)
                && forall i :: |packet| <= i < Size(Geometry()) * 256 ==>
                     ram[Addr(Geometry(), curr, i)] == old(ram[Addr(Geometry(), curr, i)])
    {
      hide Addr;
      ghost var g := Geometry();
      var addr := curr * 256;
      AddrStart(g, curr);
      for i := 0 to |packet|
        invariant pstart * 256 <= addr < pstop * 256
        invariant |packet| <= Size(g) * 256 ==>
                    (i < Size(g) * 256 ==> addr - RAM_BASE == Addr(g, curr, i))
                    && (forall k :: 0 <= k < i ==> ram[Addr(g, curr, k)] == packet[k])
                    && (forall k :: i <= k < Size(g) * 256 ==> ram[Addr(g, curr, k)] == old(ram[Addr(g, curr, k)]))
      {
        forall k | 0 <= k < Size(g) * 256 && k != i && i < Size(g) * 256
          ensures Addr(g, curr, k) != Addr(g, curr, i)
        {
          AddrInjective(g, curr, k, i);
        }
        ram[addr - RAM_BASE] := packet[i];
        if i < Size(g) * 256 {
          AddrNext(g, curr, i);
        }
        addr := addr + 1;
        if addr == pstop * 256 {
          addr := pstart * 256;
        }
      }
      if |packet| <= Size(g) * 256 {
        forall i | 0 <= i < |packet|
          ensures ram[..][Addr(g, curr, 0 + i)] == packet[i]
        {
        }
      }
    }

    /** Whether a frame offered now is received. */
    predicate Receives(frame: seq<Byte>)
      requires Valid()
      reads this
    {
      && cr % 4 == 2 && IsFrame(frame) && Accepts(rcr, par, mar, frame) && !Bit(rcr, 0x20)
      && RingOk(Geometry()) && InRing(Geometry(), curr)
      && !Bit(isr, 0x10) && Pages(frame) < Available()
    }

    /** Offer a frame. It joins the unread frames, or leaves RAM and CURR alone. */
    method Receive(frame: seq<Byte>, ghost queue: seq<seq<Byte>>) returns (ok: bool)
      requires Valid()
      modifies this`isr, this`rsr, this`curr, this`tally, this`unsupported, this`rxPackets, this`rxFiltered,
               this`rxOverruns, ram
      ensures Valid() && ok == old(Receives(frame))
      ensures old(Queue(queue)) ==>
                (ok <==> cr % 4 == 2 && IsFrame(frame) && Accepts(rcr, par, mar, frame) && !Bit(rcr, 0x20)
                         && !Bit(old(isr), 0x10) && TotalPages(queue) + Pages(frame) < Size(Geometry()))
      ensures !ok ==> ram[..] == old(ram[..]) && curr == old(curr) && rxPackets == old(rxPackets)
      ensures !ok && cr % 4 == 2 && IsFrame(frame) && old(Queue(queue)) && Accepts(rcr, par, mar, frame) ==>
                && rxFiltered == old(rxFiltered) && tally == (old(tally) + 1) % 256
                && rxOverruns == old(rxOverruns) + (if Bit(rcr, 0x20) then 0 else 1)
                && Missing(isr, if Bit(rcr, 0x20) then old(isr) else SetBit(old(isr), 0x10))
      ensures cr % 4 == 2 && IsFrame(frame) && !Accepts(rcr, par, mar, frame) ==>
                rxFiltered == old(rxFiltered) + 1 && isr == old(isr) && tally == old(tally)
      ensures cr % 4 == 2 && IsFrame(frame) && Accepts(rcr, par, mar, frame) && !Bit(rcr, 0x20)
              && !old(RingOk(Geometry()) && InRing(Geometry(), curr)) ==>
                unsupported == old(unsupported) + 1 && isr == old(isr) && tally == old(tally)
      ensures ok ==> rxPackets == old(rxPackets) + 1 && isr == SetBit(old(isr), 1)
                     && rsr == (if IsGroup(frame) then 0x21 else 1)
                     && (InRing(Geometry(), bnry) ==> curr != bnry)
      ensures old(Queue(queue)) ==> Queue(if ok then queue + [frame] else queue)
    {
      hide Chain, Hash, Pages, SetBit, PacketBytes, Fcs, Accepts, Bit;
      RoomLeft(queue);
      hide Holds;
      if cr % 4 != 2 || |frame| < 14 || |frame| > 1518 {
        return false;
      }
      var accept := Filter(frame);
      if !accept {
        rxFiltered := rxFiltered + 1;
        return false;
      }
      if Bit(rcr, 0x20) {
        Missed();
        return false;
      }
      if pstart < 0x40 || pstop > 0x80 || pstart >= pstop || curr < pstart || curr >= pstop {
        unsupported := unsupported + 1;
        return false;
      }
      var pages := Pages(frame);
      if Bit(isr, 0x10) || pages >= Available() {
        isr := SetBit(isr, 0x10);
        rsr := 0x10;
        rxOverruns := rxOverruns + 1;
        Missed();
        return false;
      }
      Store(frame, queue);
      ok := true;
    }

    /** The free pages are those the unread frames leave. */
    lemma RoomLeft(queue: seq<seq<Byte>>)
      requires Valid()
      ensures Queue(queue) ==>
                RingOk(Geometry()) && InRing(Geometry(), curr)
                && Available() == Size(Geometry()) - TotalPages(queue)
    {
      hide Chain;
      if Queue(queue) {
        HoldsMeans(ram[..], Geometry(), bnry, curr, queue);
        FreePages(Geometry(), bnry, curr, TotalPages(queue));
      }
    }

    /** Build the packet, write it at CURR and move CURR behind it. */
    method Store(frame: seq<Byte>, ghost queue: seq<seq<Byte>>)
      requires Valid() && Receives(frame)
      modifies this`isr, this`rsr, this`curr, this`rxPackets, ram
      ensures Valid() && rxPackets == old(rxPackets) + 1 && isr == SetBit(old(isr), 1)
      ensures rsr == if IsGroup(frame) then 0x21 else 1
      ensures InRing(Geometry(), bnry) ==> curr != bnry
      ensures old(Queue(queue)) ==> Queue(queue + [frame])
    {
      hide Holds, Hash, SetBit, Fcs, Accepts, Bit, Chain, Addr, PacketBytes, Register, Complement;
      ghost var g, before, from := Geometry(), ram[..], curr;
      var padded := Padded(frame);
      var count := |padded| + 4;
      var pages := (count + 4 + 255) / 256;
      var next := curr + pages;
      if next >= pstop {
        next := next - (pstop - pstart);
      }
      var crc := EthernetCrc(Octets(padded));
      var status: Byte := if IsGroup(frame) then 0x21 else 1;
      var packet := [status, next, count % 256, count / 256] + padded + FcsBytes(crc);
      assert packet == PacketBytes(frame, next) by { PacketIs(frame, next, crc); }
      Copy(packet);
      curr := next;
      rsr := status;
      isr := SetBit(isr, 1);
      rxPackets := rxPackets + 1;
      if old(Queue(queue)) {
        HoldsMeans(before, g, bnry, from, queue);
        FreePages(g, bnry, from, TotalPages(queue));
        assert next == PageAt(g, from, Pages(frame));
        assert forall i :: |packet| <= i < Size(g) * 256 ==> ram[..][Addr(g, from, i)] == before[Addr(g, from, i)];
        Enqueued(before, ram[..], g, bnry, from, queue, frame, next);
      }
    }

    /** The receive filter. */
    method Filter(frame: seq<Byte>) returns (accept: bool)
      requires Valid() && |frame| >= 6
      ensures accept == Accepts(rcr, par, mar, frame)
    {
      hide Reverse6, Reversed6, Register;
      var broadcast := true;
      for i := 0 to 6
        invariant broadcast <==> forall k :: 0 <= k < i ==> frame[k] == 255
      {
        if frame[i] != 255 {
          broadcast := false;
        }
      }
      var h := MulticastHash(Octets(frame[..6]));
      HashIs(frame[..6], h);
      var hash := h as nat;
      accept := if broadcast then Bit(rcr, 4)
                else if IsGroup(frame) then Bit(rcr, 8) && Bit(mar[hash / 8], Pow2(hash % 8))
                else Bit(rcr, 16) || frame[..6] == par;
    }

    // ---------------------------------------------------------- remote DMA

    /** A remote read is selected and has bytes to go. */
    predicate Reading()
      reads this
    {
      (cr / 8) % 8 == 1 && rbcr > 0
    }

    method Advance()
      requires Valid() && rbcr > 0
      modifies this`rsar, this`rbcr, this`isr
      ensures Valid() && rbcr == old(rbcr) - 1
      ensures isr == if rbcr == 0 then SetBit(old(isr), 64) else old(isr)
      ensures rsar == if pstop > pstart && (old(rsar) + 1) % 0x1_0000 == pstop * 256 then pstart * 256
                      else (old(rsar) + 1) % 0x1_0000
    {
      rsar := (rsar + 1) % 0x1_0000;
      if pstop > pstart && rsar == pstop * 256 {
        rsar := pstart * 256;
      }
      rbcr := rbcr - 1;
      if rbcr == 0 {
        isr := SetBit(isr, 64);
      }
    }

    /** What a remote read finds at an address: the station PROM, packet RAM or nothing. */
    function Mapped(a: nat): Byte
      requires Valid()
      reads this, ram
    {
      if a < 32 then prom[a] else if RAM_BASE <= a < RAM_BASE + RAM_SIZE then ram[a - RAM_BASE] else 0xFF
    }

    method DmaRead() returns (b: Byte)
      requires Valid()
      modifies this`rsar, this`rbcr, this`isr
      ensures Valid()
      ensures b == if !old(Reading()) then 0xFF
                   else if old(rsar) < 32 then prom[old(rsar)]
                   else if 0x4000 <= old(rsar) < 0x8000 then ram[old(rsar) - 0x4000]
                   else 0xFF
      ensures isr == if old(Reading()) && rbcr == 0 then SetBit(old(isr), 64) else old(isr)
      ensures rbcr == if old(Reading()) then old(rbcr) - 1 else old(rbcr)
      ensures rsar == if !old(Reading()) then old(rsar)
                      else if pstop > pstart && (old(rsar) + 1) % 0x1_0000 == pstop * 256 then pstart * 256
                      else (old(rsar) + 1) % 0x1_0000
    {
      if (cr / 8) % 8 != 1 || rbcr == 0 {
        return 0xFF;
      }
      b := Mapped(rsar);
      Advance();
    }

    /** Read `n` bytes through the data port, from a page of the ring on: they are the
        ring's bytes, across the wrap at PSTOP. */
    method ReadMany(n: nat, ghost page: nat) returns (data: seq<Byte>)
      requires Valid() && (cr / 8) % 8 == 1 && n <= rbcr
      requires RingOk(Geometry()) && InRing(Geometry(), page) && rsar == page * 256 && n <= Size(Geometry()) * 256
      modifies this`rsar, this`rbcr, this`isr
      ensures Valid() && |data| == n && rbcr == old(rbcr) - n
      ensures forall i :: 0 <= i < n ==> data[i] == ram[Addr(Geometry(), page, i)]
    {
      hide Addr;
      data := [];
      ghost var g := Geometry();
      AddrStart(g, page);
      for k := 0 to n
        invariant Valid() && |data| == k && rbcr == old(rbcr) - k
        invariant forall i :: 0 <= i < k ==> data[i] == ram[Addr(g, page, i)]
        invariant k < Size(g) * 256 ==> rsar == Addr(g, page, k) + RAM_BASE
      {
        AddrNext(g, page, k);
        var b := DmaRead();
        data := data + [b];
      }
    }

    /** A remote read of the oldest packet, from BNRY's page on: header, frame, padding and
        check sequence, wherever the ring wraps. */
    method ReadOldest(ghost queue: seq<seq<Byte>>, n: nat) returns (data: seq<Byte>)
      requires Valid() && Queue(queue) && queue != [] && n == Count(queue[0]) + 4
      requires (cr / 8) % 8 == 1 && n <= rbcr && rsar == bnry * 256
      modifies this`rsar, this`rbcr, this`isr
      ensures Valid() && data == PacketBytes(queue[0], PageAt(Geometry(), bnry, Pages(queue[0])))
    {
      hide Addr, PacketBytes, Chain;
      ChainHead(ram[..], Geometry(), bnry, queue);
      ghost var bytes := PacketBytes(queue[0], PageAt(Geometry(), bnry, Pages(queue[0])));
      ghost var g, page := Geometry(), bnry;
      PacketFits(ram[..], g, page, queue);
      data := ReadMany(n, bnry);
      forall i | 0 <= i < n
        ensures data[i] == bytes[i]
      {
        assert ram[..][Addr(g, page, 0 + i)] == bytes[i];
      }
    }

    /** The driver moves BNRY to the page the oldest packet's header names. */
    method SetBoundary(page: Byte, ghost queue: seq<seq<Byte>>)
      requires Valid()
      modifies this`bnry
      ensures Valid() && bnry == page
      ensures old(Queue(queue)) && queue != [] && page == ram[Addr(Geometry(), old(bnry), 1)] ==> Queue(queue[1..])
    {
      hide Addr, Holds;
      if Queue(queue) && queue != [] {
        HoldsMeans(ram[..], Geometry(), bnry, curr, queue);
        Consumed(ram[..], Geometry(), bnry, curr, queue);
      }
      bnry := page;
    }
  }

  /** Bytes behind a page are those furthest ahead of it. */
  lemma AddrBehind(g: Ring, page: nat, k: nat, i: nat)
    requires RingOk(g) && InRing(g, page) && 0 < k < Size(g) && i < k * 256
    ensures (Size(g) - k) * 256 + i < Size(g) * 256
    ensures Addr(g, page, i) == Addr(g, PageAt(g, page, k), (Size(g) - k) * 256 + i)
  {
  }

  /** Free pages are those the unread frames leave. */
  lemma FreePages(g: Ring, bnry: nat, curr: nat, total: nat)
    requires RingOk(g) && InRing(g, bnry) && total < Size(g) && curr == PageAt(g, bnry, total)
    ensures (if bnry > curr then bnry - curr else g.pstop - curr + bnry - g.pstart) == Size(g) - total
  {
  }

  /** Writing a packet at CURR that leaves a free page makes it the newest unread frame. */
  lemma Enqueued(ram: seq<Byte>, ram1: seq<Byte>, g: Ring, bnry: nat, curr: nat,
                 frames: seq<seq<Byte>>, f: seq<Byte>, next: Byte)
    requires |ram| == RAM_SIZE && |ram1| == RAM_SIZE && Holds(ram, g, bnry, curr, frames) && IsFrame(f)
    requires TotalPages(frames) + Pages(f) < Size(g) && next == PageAt(g, curr, Pages(f))
    requires Stored(ram1, g, curr, 0, PacketBytes(f, next))
    requires forall i :: |PacketBytes(f, next)| <= i < Size(g) * 256 ==> ram1[Addr(g, curr, i)] == ram[Addr(g, curr, i)]
    ensures Holds(ram1, g, bnry, next, frames + [f])
  {
    hide Addr, PageAt, PacketBytes, Pages, Chain;
    var total := TotalPages(frames);
    var bytes := PacketBytes(f, next);
    ChainHolds(ram, g, bnry, frames);
    PageFrom(g, bnry, total, Pages(f));
    TotalAppend(frames, f);
    forall i | 0 <= i < total * 256
      ensures ram1[Addr(g, bnry, i)] == ram[Addr(g, bnry, i)]
    {
      AddrBehind(g, bnry, total, i);
    }
    forall i | 0 <= i < |bytes|
      ensures ram1[Addr(g, bnry, total * 256 + i)] == bytes[i]
    {
      AddrFrom(g, bnry, total, i);
      assert ram1[Addr(g, curr, 0 + i)] == bytes[i];
    }
    ChainAppend(ram, ram1, g, bnry, 0, frames, f);
  }

  lemma ChainHolds(ram: seq<Byte>, g: Ring, bnry: nat, frames: seq<seq<Byte>>)
    requires Chain(ram, g, bnry, 0, frames)
    ensures RingOk(g) && InRing(g, bnry) && TotalPages(frames) < Size(g)
  {
  }

  lemma PacketIs(frame: seq<Byte>, next: Byte, crc: bv32)
    requires IsFrame(frame) && crc == Complement(Register(Octets(Padded(frame))))
    ensures
      var status := if IsGroup(frame) then 0x21 else 1;
      [status, next, Count(frame) % 256, Count(frame) / 256] + Padded(frame) + FcsBytes(crc) == PacketBytes(frame, next)
  {
    hide Complement, Register, FcsBytes, Padded;
  }

  lemma HoldsMeans(ram: seq<Byte>, g: Ring, bnry: nat, curr: nat, frames: seq<seq<Byte>>)
    requires Holds(ram, g, bnry, curr, frames)
    ensures RingOk(g) && InRing(g, bnry) && TotalPages(frames) < Size(g) && curr == PageAt(g, bnry, TotalPages(frames))
  {
    ChainHolds(ram, g, bnry, frames);
  }

  lemma PacketFits(ram: seq<Byte>, g: Ring, bnry: nat, frames: seq<seq<Byte>>)
    requires |ram| == RAM_SIZE && Chain(ram, g, bnry, 0, frames) && frames != []
    ensures RingOk(g) && InRing(g, bnry) && IsFrame(frames[0]) && Count(frames[0]) + 4 <= Size(g) * 256
  {
    hide Addr;
    ChainHead(ram, g, bnry, frames);
  }

  lemma AddrStart(g: Ring, page: nat)
    requires RingOk(g) && InRing(g, page)
    ensures Addr(g, page, 0) == page * 256 - RAM_BASE
  {
  }

  /** The next byte is the next address, or the ring's first after its last. */
  lemma AddrNext(g: Ring, page: nat, i: nat)
    requires RingOk(g) && InRing(g, page) && i < Size(g) * 256
    ensures
      var a := Addr(g, page, i) + RAM_BASE + 1;
      i + 1 < Size(g) * 256 ==>
        Addr(g, page, i + 1) == (if a == g.pstop * 256 then g.pstart * 256 else a) - RAM_BASE
  {
  }
}
