/** GMTP over the PPP link: the send window with its queue of waiting frames, cumulative
    16-bit acknowledgements, the receiving half, and both halves joined over a channel
    that loses, duplicates and reorders. */
module Gmtp {
  import opened Words
  import PcLink

  const WRAP: nat := 0x1_0000
  const CAPACITY: nat := 64

  type Seq16 = n: nat | n < 0x1_0000

  /** One message block as it is put on the wire: its 16-bit number and its payload. */
  datatype Message = Message(number: Seq16, payload: seq<Byte>)

  function Window(direct: bool): nat {
    if direct then 3 else 1
  }

  // ------------------------------------------------------------ waiting frames

  predicate Short(frames: seq<seq<Byte>>) {
    forall i :: 0 <= i < |frames| ==> |frames[i]| < TWO32
  }

  /** Length-prefixed records, in order. */
  function Records(frames: seq<seq<Byte>>): seq<Byte>
    requires Short(frames)
    decreases |frames|
  {
    if frames == [] then [] else Word4(|frames[0]|) + frames[0] + Records(frames[1..])
  }

  lemma {:induction false} RecordsAppend(frames: seq<seq<Byte>>, f: seq<Byte>)
    requires Short(frames) && |f| < TWO32
    ensures Records(frames + [f]) == Records(frames) + Word4(|f|) + f
    decreases |frames|
  {
    hide Word4;
    if frames == [] {
      assert frames + [f] == [f];
      assert Records([]) == [] && [f][1..] == [];
    } else {
      assert (frames + [f])[1..] == frames[1..] + [f];
      RecordsAppend(frames[1..], f);
    }
  }

  /** The first record can be taken off as its length says. */
  lemma RecordHead(frames: seq<seq<Byte>>)
    requires Short(frames) && frames != []
    ensures
      var r := Records(frames);
      && |r| >= 4 + |frames[0]|
      && LoadBE(r, 0, 4) == |frames[0]|
      && r[4..4 + |frames[0]|] == frames[0]
      && r[4 + |frames[0]|..] == Records(frames[1..])
  {
    Word4Back(|frames[0]|);
    var l := Word4(|frames[0]|);
    assert Records(frames) == l + frames[0] + Records(frames[1..]);
    hide Records, Word4;
    var r := Records(frames);
    assert r[0] == l[0] && r[1] == l[1] && r[2] == l[2] && r[3] == l[3];
  }

  // ------------------------------------------------------------ chunks

  /** A message stream cut into payloads; nothing to send still makes one empty block. */
  function Chunks(data: seq<Byte>): (r: seq<seq<Byte>>)
    ensures |r| > 0
    decreases |data|
  {
    if |data| <= CAPACITY then [data] else [data[..CAPACITY]] + Chunks(data[CAPACITY..])
  }

  function Concat(chunks: seq<seq<Byte>>): seq<Byte>
    decreases |chunks|
  {
    if chunks == [] then [] else Concat(chunks[..|chunks| - 1]) + chunks[|chunks| - 1]
  }

  lemma ConcatNext(chunks: seq<seq<Byte>>, i: nat)
    requires i < |chunks|
    ensures Concat(chunks[..i + 1]) == Concat(chunks[..i]) + chunks[i]
  {
    assert chunks[..i + 1][..i] == chunks[..i];
  }

  lemma {:induction false} ConcatSplit(a: seq<seq<Byte>>, b: seq<seq<Byte>>)
    ensures Concat(a + b) == Concat(a) + Concat(b)
    decreases |b|
  {
    if b == [] {
      assert a + b == a;
      assert Concat([]) == [];
    } else {
      var n := |b| - 1;
      assert (a + b)[..|a + b| - 1] == a + b[..n];
      ConcatSplit(a, b[..n]);
    }
  }

  /** Cutting loses nothing, and no payload is over-long. */
  lemma {:induction false} ChunksJoin(data: seq<Byte>)
    ensures Concat(Chunks(data)) == data
    ensures forall i :: 0 <= i < |Chunks(data)| ==> |Chunks(data)[i]| <= CAPACITY
    decreases |data|
  {
    if |data| <= CAPACITY {
      ConcatOne(data);
    } else {
      ChunksJoin(data[CAPACITY..]);
      ConcatOne(data[..CAPACITY]);
      ConcatSplit([data[..CAPACITY]], Chunks(data[CAPACITY..]));
    }
  }

  lemma ConcatOne(c: seq<Byte>)
    ensures Concat([c]) == c
  {
    assert [c][..0] == [];
    assert Concat([]) == [];
  }

  // ------------------------------------------------------------ acknowledgements

  /** The full count of acknowledged blocks after the 16-bit count `next` arrives. */
  function AckedAfter(acked: nat, sent: nat, next: Seq16): (r: nat)
    requires acked <= sent
    ensures acked <= r <= sent
  {
    var advance := (next - acked) % WRAP;
    if advance == 0 || advance > sent - acked then acked else acked + advance
  }

  /** A cumulative acknowledgement of any count from `acked` to `sent` is understood
      exactly, through sequence wrap. */
  lemma AckExact(acked: nat, sent: nat, count: nat)
    requires acked <= count <= sent && sent - acked < WRAP
    ensures AckedAfter(acked, sent, count % WRAP) == count
  {
    assert (count % WRAP - acked) % WRAP == count - acked by { Congruent(count, acked); }
  }

  /** How far behind, in sequence numbers, an older count is. */
  function Age(acked: nat, count: nat): nat
    requires count <= acked
  {
    (acked - count) % WRAP
  }

  /** An older count is ignored exactly when what is still unacknowledged does not reach a
      whole wrap past it; otherwise it is taken for the count one wrap newer. */
  lemma OldAck(acked: nat, sent: nat, count: nat)
    requires count <= acked <= sent && sent - acked < WRAP
    ensures AckedAfter(acked, sent, count % WRAP) == acked
            <==> Age(acked, count) == 0 || Age(acked, count) + (sent - acked) < WRAP
    ensures AckedAfter(acked, sent, count % WRAP) != acked ==>
              AckedAfter(acked, sent, count % WRAP) == acked + WRAP - Age(acked, count)
  {
    var q, age := (acked - count) / WRAP, Age(acked, count);
    var p := count / WRAP;
    assert acked - count == WRAP * q + age && count == WRAP * p + count % WRAP;
    if age == 0 {
      ModUnique(count % WRAP - acked, WRAP, -q - p, 0);
    } else {
      ModUnique(count % WRAP - acked, WRAP, -q - p - 1, WRAP - age);
    }
  }

  /** With one block outstanding after 65536 acknowledged ones, a leftover acknowledgement
      of the first block acknowledges it. */
  lemma OldAckExample()
    ensures AckedAfter(WRAP, WRAP + 1, 1) == WRAP + 1
  {
  }

  lemma Congruent(x: nat, a: nat)
    requires a <= x < a + WRAP
    ensures (x % WRAP - a) % WRAP == x - a
  {
    var q := x / WRAP;
    ModUnique(x % WRAP - a, WRAP, -q, x - a);
  }

  lemma Behind(x: nat, a: nat)
    requires x < a < x + WRAP
    ensures (x % WRAP - a) % WRAP == WRAP - (a - x)
  {
    var q := x / WRAP;
    ModUnique(x % WRAP - a, WRAP, -q - 1, WRAP - (a - x));
  }

  // ------------------------------------------------------------ the sending half

  /** Block `i`'s frame carries its payload under the low sixteen bits of `i`. */
  predicate Numbered(frames: seq<seq<Byte>>, chunks: seq<seq<Byte>>, wire: Message -> seq<Byte>) {
    |frames| == |chunks| && forall i :: 0 <= i < |chunks| ==> frames[i] == wire(Message(i % WRAP, chunks[i]))
  }

  lemma NumberedNext(frames: seq<seq<Byte>>, chunks: seq<seq<Byte>>, wire: Message -> seq<Byte>, payload: seq<Byte>)
    requires Numbered(frames, chunks, wire)
    ensures Numbered(frames + [wire(Message(|chunks| % WRAP, payload))], chunks + [payload], wire)
    ensures |frames| == |chunks|
  {
  }

  /** Frames leave in block order; what waits is exactly the blocks not sent, as records;
      and something waits only while the window is full. */
  predicate Windowed(frames: seq<seq<Byte>>, left: seq<seq<Byte>>, waiting: seq<Byte>, sent: nat, acked: nat,
                     window: nat) {
    && acked <= sent <= |frames| && sent - acked <= window
    && left == frames[..sent]
    && Short(frames) && waiting == Records(frames[sent..])
    && (sent < |frames| ==> sent - acked == window)
  }

  /** After an acknowledgement the window lets as many waiting blocks out as fit. */
  function Refill(blocks: nat, acked: nat, window: nat): nat {
    if acked + window < blocks then acked + window else blocks
  }

  lemma NoRecords()
    ensures Records([]) == []
  {
  }

  /** With room in the window nothing waits, and a new frame may leave at once. */
  lemma SendNow(frames: seq<seq<Byte>>, left: seq<seq<Byte>>, waiting: seq<Byte>, sent: nat, acked: nat, window: nat,
                f: seq<Byte>)
    requires Windowed(frames, left, waiting, sent, acked, window) && sent - acked < window && |f| < TWO32
    ensures waiting == [] && sent == |frames|
    ensures Windowed(frames + [f], left + [f], waiting, sent + 1, acked, window)
  {
    hide Records;
    NoRecords();
    assert frames[sent..] == [] && (frames + [f])[sent + 1..] == [];
    assert (frames + [f])[..sent + 1] == left + [f];
  }

  /** With a full window it waits behind the others. */
  lemma SendLater(frames: seq<seq<Byte>>, left: seq<seq<Byte>>, waiting: seq<Byte>, sent: nat, acked: nat, window: nat,
                  f: seq<Byte>)
    requires Windowed(frames, left, waiting, sent, acked, window) && sent - acked == window && |f| < TWO32
    ensures Windowed(frames + [f], left, waiting + Word4(|f|) + f, sent, acked, window)
  {
    hide Records, Word4;
    RecordsAppend(frames[sent..], f);
    assert (frames + [f])[sent..] == frames[sent..] + [f];
    assert (frames + [f])[..sent] == left;
  }

  /** The window between an acknowledgement and the frames it lets out: room, and possibly
      something waiting. */
  predicate Draining(frames: seq<seq<Byte>>, left: seq<seq<Byte>>, waiting: seq<Byte>, sent: nat, acked: nat,
                     window: nat) {
    && acked <= sent <= |frames| && sent - acked <= window
    && left == frames[..sent]
    && Short(frames) && waiting == Records(frames[sent..])
  }

  /** Each record let out is the next block's frame. */
  lemma LetOut(frames: seq<seq<Byte>>, left: seq<seq<Byte>>, waiting: seq<Byte>, sent: nat, acked: nat, window: nat)
    requires Draining(frames, left, waiting, sent, acked, window) && sent - acked < window && |waiting| >= 4
    ensures sent < |frames|
    ensures
      var f := frames[sent];
      && LoadBE(waiting, 0, 4) == |f| <= |waiting| - 4 && waiting[4..4 + |f|] == f
      && Draining(frames, left + [f], waiting[4 + |f|..], sent + 1, acked, window)
  {
    hide Records, LoadBE;
    NoRecords();
    assert frames[|frames|..] == [];
    RecordHead(frames[sent..]);
    assert frames[sent..][1..] == frames[sent + 1..];
    assert frames[..sent + 1] == left + [frames[sent]];
  }

  /** It stops when the window is full or nothing waits. */
  lemma Drained(frames: seq<seq<Byte>>, left: seq<seq<Byte>>, waiting: seq<Byte>, sent: nat, acked: nat, window: nat)
    requires Draining(frames, left, waiting, sent, acked, window) && (sent - acked == window || |waiting| < 4)
    ensures Windowed(frames, left, waiting, sent, acked, window)
  {
    hide Records, LoadBE;
    if sent < |frames| && |waiting| < 4 {
      RecordHead(frames[sent..]);
      assert false;
    }
  }

  const CNTD: seq<Byte> := [0x43, 0x6E, 0x74, 0x64]
  const SPKG: seq<Byte> := [0x53, 0x50, 0x6B, 0x67]
  const SBUF: seq<Byte> := [0x53, 0x42, 0x75, 0x66]
  const SNDX: seq<Byte> := [0x53, 0x6E, 0x64, 0x58]
  const PART: nat := 512

  datatype LinkState = Idle | Sending | Finished

  function Command(tag: seq<Byte>, payload: seq<Byte>): seq<Byte>
    requires |payload| < TWO32
  {
    PcLink.CommandBytes(PcLink.Cmd(tag, payload))
  }

  /** The commands that carry a package from byte `at` on. */
  function PackageStream(package: seq<Byte>, at: nat): seq<Byte>
    requires at <= |package|
    decreases |package| - at
  {
    if at == |package| then Command(SNDX, [0])
    else
      var n := Part(package, at);
      Command(SBUF, package[at..at + n]) + PackageStream(package, at + n)
  }

  function Part(package: seq<Byte>, at: nat): (n: nat)
    requires at < |package|
    ensures 0 < n <= PART && at + n <= |package|
  {
    if |package| - at > PART then PART else |package| - at
  }

  lemma NextPart(package: seq<Byte>, at: nat, before: seq<Byte>)
    requires at < |package|
    ensures
      var n := Part(package, at);
      before + PackageStream(package, at)
      == before + Command(SBUF, package[at..at + n]) + PackageStream(package, at + n)
  {
    hide Command;
    var n := Part(package, at);
    assert PackageStream(package, at) == Command(SBUF, package[at..at + n]) + PackageStream(package, at + n);
  }

  lemma LastPart(package: seq<Byte>)
    ensures PackageStream(package, |package|) == Command(SNDX, [0])
  {
  }

  /** The commands carry the package from byte `at` on in pieces of 1 to 512 bytes, and end
      with the marker. */
  predicate Carries(commands: seq<PcLink.Cmd>, package: seq<Byte>) {
    && |commands| > 0 && commands[|commands| - 1] == PcLink.Cmd(SNDX, [0])
    && (forall i :: 0 <= i < |commands| - 1 ==> commands[i].tag == SBUF && 1 <= |commands[i].payload| <= 512)
    && Concat(Payloads(commands[..|commands| - 1])) == package
  }

  function Payloads(commands: seq<PcLink.Cmd>): seq<seq<Byte>> {
    seq(|commands|, i requires 0 <= i < |commands| => commands[i].payload)
  }

  /** The stream a package is sent as reads back as it. */
  lemma {:induction false} PackageReads(package: seq<Byte>, at: nat)
    requires at <= |package|
    ensures
      var (commands, left, failed) := PcLink.Parse(PackageStream(package, at));
      !failed && left == [] && Carries(commands, package[at..])
    decreases |package| - at
  {
    hide PcLink.Parse, PcLink.CommandBytes;
    if at == |package| {
      PcLink.ParseCommand(PcLink.Cmd(SNDX, [0]));
      assert Concat([]) == [];
    } else {
      var n := Part(package, at);
      var c := PcLink.Cmd(SBUF, package[at..at + n]);
      PackageReads(package, at + n);
      PcLink.ParseFirst(c, PackageStream(package, at + n));
      CarriesMore(c, PcLink.Parse(PackageStream(package, at + n)).0, package[at + n..]);
      assert package[at..] == package[at..at + n] + package[at + n..];
    }
  }

  lemma CarriesMore(c: PcLink.Cmd, commands: seq<PcLink.Cmd>, package: seq<Byte>)
    requires Carries(commands, package) && c.tag == SBUF && 1 <= |c.payload| <= 512
    ensures Carries([c] + commands, c.payload + package)
  {
    var all := [c] + commands;
    assert all[..|all| - 1] == [c] + commands[..|commands| - 1];
    var rest := Payloads(commands[..|commands| - 1]);
    assert Payloads(all[..|all| - 1]) == [c.payload] + rest;
    ConcatSplit([c.payload], rest);
    assert Concat([c.payload]) == c.payload by {
      assert [c.payload][1..] == [];
      assert Concat([]) == [];
    }
  }

  /** And the greetings and the offer as those three commands. */
  lemma OfferReads(info: seq<Byte>)
    requires |info| <= 1028
    ensures PcLink.Parse(Command(CNTD, [0]) + Command(CNTD, [0]) + Command(SPKG, info)) ==
            ([PcLink.Cmd(CNTD, [0]), PcLink.Cmd(CNTD, [0]), PcLink.Cmd(SPKG, info)], [], false)
  {
    hide PcLink.Parse, PcLink.CommandBytes;
    var hello, offer := PcLink.Cmd(CNTD, [0]), PcLink.Cmd(SPKG, info);
    PcLink.ParseCommand(offer);
    PcLink.ParseFirst(hello, Command(SPKG, info));
    PcLink.ParseFirst(hello, Command(CNTD, [0]) + Command(SPKG, info));
    assert Command(CNTD, [0]) + Command(CNTD, [0]) + Command(SPKG, info) ==
           Command(CNTD, [0]) + (Command(CNTD, [0]) + Command(SPKG, info));
    assert [hello] + ([hello] + [offer]) == [hello, hello, offer];
  }

  lemma EmitJoins(data: seq<Byte>)
    ensures Concat(Chunks(data)) == data
  {
    ChunksJoin(data);
  }

  // ------------------------------------------------------------ one half at a time

  /** The sender's side of the link: payloads emitted, blocks sent and acknowledged. */
  datatype Outbox = Outbox(chunks: seq<seq<Byte>>, sent: nat, acked: nat)

  /** The receiver's: blocks taken, and the stream they make. */
  datatype Inbox = Inbox(count: nat, stream: seq<Byte>)

  /** One more block to send: out at once if the window has room. */
  function Offered(window: nat, o: Outbox, payload: seq<Byte>): Outbox {
    o.(chunks := o.chunks + [payload], sent := if o.sent - o.acked < window then o.sent + 1 else o.sent)
  }

  function OfferedAll(window: nat, o: Outbox, payloads: seq<seq<Byte>>): Outbox
    decreases |payloads|
  {
    if payloads == [] then o else OfferedAll(window, Offered(window, o, payloads[0]), payloads[1..])
  }

  lemma OfferedChunk(window: nat, o: Outbox, rest: seq<Byte>)
    ensures
      var n := if |rest| < CAPACITY then |rest| else CAPACITY;
      var o1 := Offered(window, o, rest[..n]);
      OfferedAll(window, o, Chunks(rest)) ==
      if |rest| <= CAPACITY then o1 else OfferedAll(window, o1, Chunks(rest[n..]))
  {
    hide Offered;
    if |rest| <= CAPACITY {
      assert rest[..|rest|] == rest;
      assert OfferedAll(window, Offered(window, o, rest), []) == Offered(window, o, rest);
    } else {
      assert Chunks(rest)[1..] == Chunks(rest[CAPACITY..]);
    }
  }

  /** An acknowledgement of everything before `next`. */
  function Confirmed(window: nat, o: Outbox, next: Seq16): Outbox {
    if o.acked > o.sent then o
    else
      var acked := AckedAfter(o.acked, o.sent, next);
      if acked == o.acked then o else o.(acked := acked, sent := Refill(|o.chunks|, acked, window))
  }

  predicate Fresh(number: Seq16, received: Seq16) {
    number == received
  }

  /** A block under its 16-bit number. */
  function Taken(r: Inbox, number: Seq16, payload: seq<Byte>): Inbox {
    if Fresh(number, r.count % WRAP) then Inbox(r.count + 1, r.stream + payload) else r
  }

  /** How a message is put into a datagram and framed is a parameter; frames stay below the
      reach of a record's length. */
  class Sender {
    const direct: bool
    const wire: Message -> seq<Byte>
    /** Bytes for the guest, and the records waiting for the window, from `at` on. */
    var out: seq<Byte>
    var pending: seq<Byte>
    var at: nat
    var block: nat
    var sent: nat
    var acked: nat
    var waitingAck: bool
    var packageSent: bool
    var packageEnd: nat
    var packageAcked: bool
    var offered: bool
    var state: LinkState
    /** Every payload emitted so far and the frame of each; the frames that have left. */
    ghost var chunks: seq<seq<Byte>>
    ghost var frames: seq<seq<Byte>>
    ghost var left: seq<seq<Byte>>

    ghost predicate Valid()
      reads this
    {
      && block == |chunks| && Numbered(frames, chunks, wire) && at <= |pending|
      && Windowed(frames, left, pending[at..], sent, acked, Window(direct))
      && waitingAck == (sent != acked)
      && (packageSent ==> packageEnd <= block)
      && (packageAcked ==> packageSent && acked >= packageEnd)
      && (state == Finished ==> packageAcked)
    }

    ghost function Side(): Outbox
      reads this
    {
      Outbox(chunks, sent, acked)
    }

    constructor (direct: bool, wire: Message -> seq<Byte>)
      ensures Side() == START.out
      ensures Valid() && block == 0 && sent == 0 && acked == 0 && this.direct == direct && this.wire == wire
      ensures !packageSent && !packageAcked && out == []
    {
      this.direct, this.wire := direct, wire;
      out, pending, at := [], [], 0;
      block, sent, acked := 0, 0, 0;
      waitingAck, packageSent, packageAcked := false, false, false;
      packageEnd := 0;
      offered, state := false, Idle;
      chunks, frames, left := [], [], [];
    }

    /** A frame behind the others, out at once if the window has room and as a record
        otherwise. */
    method PutFrame(frame: seq<Byte>)
      requires at <= |pending| && Windowed(frames, left, pending[at..], sent, acked, Window(direct)) && |frame| < TWO32
      modifies this`out, this`pending, this`sent, this`frames, this`left
      ensures at <= |pending| && Windowed(frames, left, pending[at..], sent, acked, Window(direct))
      ensures frames == old(frames) + [frame]
      ensures sent == old(sent) + (if old(sent - acked) < Window(direct) then 1 else 0)
      ensures out == old(out) + (if sent > old(sent) then frame else [])
    {
      hide Windowed, Word4, Window;
      WindowBounds(frames, left, pending[at..], sent, acked, Window(direct));
      if sent - acked < Window(direct) {
        SendNow(frames, left, pending[at..], sent, acked, Window(direct), frame);
        out := out + frame;
        left := left + [frame];
        sent := sent + 1;
      } else {
        SendLater(frames, left, pending[at..], sent, acked, Window(direct), frame);
        ghost var was := pending[at..];
        pending := pending + Word4(|frame|) + frame;
        assert pending[at..] == was + Word4(|frame|) + frame;
      }
      frames := frames + [frame];
    }

    /** The frame of the next block goes out if the window has room, and waits otherwise. */
    method QueueWire(frame: seq<Byte>, ghost payload: seq<Byte>)
      requires Valid() && |frame| < TWO32 && frame == wire(Message(block % WRAP, payload))
      modifies this`out, this`pending, this`sent, this`waitingAck, this`block, this`chunks, this`frames, this`left
      ensures Valid() && block == old(block) + 1 && chunks == old(chunks) + [payload]
      ensures Side() == Offered(Window(direct), old(Side()), payload)
      ensures sent == old(sent) + (if old(sent - acked) < (if direct then 3 else 1) then 1 else 0)
      ensures out == old(out) + (if sent > old(sent) then frame else [])
    {
      hide Windowed, Numbered;
      WindowBounds(frames, left, pending[at..], sent, acked, Window(direct));
      NumberedNext(frames, chunks, wire, payload);
      chunks := chunks + [payload];
      var before := sent;
      PutFrame(frame);
      block := block + 1;
      waitingAck := waitingAck || sent > before;
      WindowBounds(frames, left, pending[at..], sent, acked, Window(direct));
    }

    /** A cumulative acknowledgement moves the window and lets waiting frames out. */
    method Acknowledge(next: Seq16)
      requires Valid()
      modifies this`out, this`pending, this`at, this`sent, this`acked, this`waitingAck, this`packageAcked, this`left
      ensures Valid() && acked == AckedAfter(old(acked), old(sent), next)
      ensures Side() == Confirmed(Window(direct), old(Side()), next)
      ensures packageAcked == (old(packageAcked) || (packageSent && acked > old(acked) && acked >= packageEnd))
      ensures acked == old(acked) ==> sent == old(sent) && out == old(out)
      ensures sent >= old(sent) && left == frames[..sent]
      ensures acked > old(acked) ==> sent == Refill(block, acked, Window(direct))
    {
      hide Windowed, Draining, Window, LoadBE, Numbered;
      WindowBounds(frames, left, pending[at..], sent, acked, Window(direct));
      var advance := (next - acked) % WRAP;
      if advance == 0 || advance > sent - acked {
        return;
      }
      MoveWindow(frames, left, pending[at..], sent, acked, Window(direct), acked + advance);
      acked := acked + advance;
      if packageSent && acked >= packageEnd {
        packageAcked := true;
      }
      Drain();
      WindowBounds(frames, left, pending[at..], sent, acked, Window(direct));
      WindowFull(frames, left, pending[at..], sent, acked, Window(direct));
      NumberedNext(frames, chunks, wire, []);
    }

    /** Let waiting frames out while the window has room. */
    method Drain()
      requires at <= |pending| && Draining(frames, left, pending[at..], sent, acked, Window(direct))
      modifies this`out, this`pending, this`at, this`sent, this`waitingAck, this`left
      ensures at <= |pending| && Windowed(frames, left, pending[at..], sent, acked, Window(direct))
      ensures waitingAck == (sent != acked) && old(sent) <= sent
    {
      hide Windowed, Draining, Window, LoadBE, Numbered;
      DrainBounds(frames, left, pending[at..], sent, acked, Window(direct));
      while sent - acked < Window(direct) && |pending| - at >= 4
        invariant at <= |pending| && acked <= sent && old(sent) <= sent && sent - acked <= Window(direct)
        invariant Draining(frames, left, pending[at..], sent, acked, Window(direct))
        decreases |pending| - at
      {
        LetOut(frames, left, pending[at..], sent, acked, Window(direct));
        var n := LoadBE(pending[at..], 0, 4);
        assert n <= |pending| - at - 4;
        assert pending[at..][4..4 + n] == pending[at + 4..at + 4 + n];
        assert pending[at..][4 + n..] == pending[at + 4 + n..];
        out := out + pending[at + 4..at + 4 + n];
        left := left + [frames[sent]];
        at := at + 4 + n;
        sent := sent + 1;
      }
      Drained(frames, left, pending[at..], sent, acked, Window(direct));
      if at == |pending| {
        assert pending[at..] == [];
        pending, at := [], 0;
        assert pending[at..] == [];
      }
      waitingAck := sent != acked;
    }

    /** Cut a message stream into blocks and queue them all, the first even when empty. */
    method Emit(data: seq<Byte>)
      requires Valid() && forall m: Message :: |wire(m)| < TWO32
      modifies this`out, this`pending, this`sent, this`waitingAck, this`block, this`chunks, this`frames, this`left
      ensures Valid() && chunks == old(chunks) + Chunks(data)
      ensures Side() == OfferedAll(Window(direct), old(Side()), Chunks(data))
      ensures old(sent) <= sent
    {
      hide Windowed, Window, Numbered, Offered, OfferedAll;
      var rest := data;
      var first := true;
      while |rest| > 0 || first
        invariant Valid() && old(sent) <= sent
        invariant old(chunks) + Chunks(data) == if |rest| > 0 || first then chunks + Chunks(rest) else chunks
        invariant OfferedAll(Window(direct), old(Side()), Chunks(data)) ==
                  if |rest| > 0 || first then OfferedAll(Window(direct), Side(), Chunks(rest)) else Side()
        decreases |rest|, first
      {
        var n := if |rest| < CAPACITY then |rest| else CAPACITY;
        OfferedChunk(Window(direct), Side(), rest);
        QueueWire(wire(Message(block % WRAP, rest[..n])), rest[..n]);
        assert |rest| <= CAPACITY ==> rest[..n] == rest && rest[n..] == [];
        rest := rest[n..];
        first := false;
      }
    }

    method PutCommand(tag: seq<Byte>, payload: seq<Byte>)
      requires Valid() && |payload| < TWO32 && forall m: Message :: |wire(m)| < TWO32
      modifies this`out, this`pending, this`sent, this`waitingAck, this`block, this`chunks, this`frames, this`left
      ensures Valid() && Concat(chunks) == Concat(old(chunks)) + Command(tag, payload)
    {
      hide Command, Concat, Valid, Chunks;
      ghost var before := chunks;
      Emit(Command(tag, payload));
      EmitJoins(Command(tag, payload));
      ConcatSplit(before, Chunks(Command(tag, payload)));
    }

    method SetSending()
      requires Valid()
      modifies this`state
      ensures Valid() && state == Sending
    {
      state := Sending;
    }

    /** The guest connects: two greetings and the offer, once. */
    method Connect(info: seq<Byte>)
      requires Valid() && |info| < TWO32 && forall m: Message :: |wire(m)| < TWO32
      modifies this`out, this`pending, this`sent, this`waitingAck, this`block, this`chunks, this`frames, this`left,
               this`offered, this`state
      ensures Valid() && offered && (old(offered) ==> state == old(state) && chunks == old(chunks))
      ensures !old(offered) ==> state == Sending
      ensures !old(offered) ==>
                Concat(chunks) == Concat(old(chunks)) + Command(CNTD, [0]) + Command(CNTD, [0]) + Command(SPKG, info)
    {
      hide Command, Concat;
      if offered {
        return;
      }
      PutCommand(CNTD, [0]);
      PutCommand(CNTD, [0]);
      offered := true;
      PutCommand(SPKG, info);
      SetSending();
    }

    /** Remember that the package is on its way, and up to which block. */
    method MarkPackage(end: nat)
      requires Valid() && !packageAcked && end <= block
      modifies this`packageSent, this`packageEnd
      ensures Valid() && packageSent && packageEnd == end
    {
      packageSent := true;
      packageEnd := end;
    }

    method PutParts(package: seq<Byte>)
      requires Valid() && forall m: Message :: |wire(m)| < TWO32
      modifies this`out, this`pending, this`sent, this`waitingAck, this`block, this`chunks, this`frames, this`left
      ensures Valid()
      ensures Concat(chunks) + PackageStream(package, |package|) == Concat(old(chunks)) + PackageStream(package, 0)
    {
      hide Command, Concat, Valid, PackageStream, Part;
      var done := 0;
      while done < |package|
        invariant Valid() && done <= |package|
        invariant Concat(chunks) + PackageStream(package, done) == Concat(old(chunks)) + PackageStream(package, 0)
      {
        NextPart(package, done, Concat(chunks));
        var n := Part(package, done);
        PutCommand(SBUF, package[done..done + n]);
        done := done + n;
      }
    }

    /** The guest asks for the package: all of it in commands of at most 512 bytes, then
        the end marker. Completion waits for the acknowledgement of the last block. */
    method SendPackage(package: seq<Byte>)
      requires Valid() && forall m: Message :: |wire(m)| < TWO32
      modifies this`out, this`pending, this`sent, this`waitingAck, this`block, this`chunks, this`frames, this`left,
               this`packageSent, this`packageEnd
      ensures Valid() && packageSent
      ensures !old(packageSent) ==>
                packageEnd == block && Concat(chunks) == Concat(old(chunks)) + PackageStream(package, 0)
    {
      if packageSent {
        return;
      }
      assert !packageAcked;
      hide Command, Concat, Valid, PackageStream, Part;
      MarkPackage(0);
      PutAll(package);
      MarkPackage(block);
    }

    method PutAll(package: seq<Byte>)
      requires Valid() && forall m: Message :: |wire(m)| < TWO32
      modifies this`out, this`pending, this`sent, this`waitingAck, this`block, this`chunks, this`frames, this`left
      ensures Valid() && Concat(chunks) == Concat(old(chunks)) + PackageStream(package, 0)
    {
      hide Command, Concat, Valid, PackageStream, Part;
      PutParts(package);
      LastPart(package);
      PutCommand(SNDX, [0]);
    }

    /** The guest answers a ping: done only once every block up to the end marker is
        acknowledged. */
    method Pong()
      requires Valid()
      modifies this`state
      ensures Valid() && state == (if old(state) == Sending && packageAcked then Finished else old(state))
      ensures state == Finished ==> packageSent && acked >= packageEnd
    {
      if state == Sending && packageAcked {
        state := Finished;
      }
    }
  }

  lemma WindowBounds(frames: seq<seq<Byte>>, left: seq<seq<Byte>>, waiting: seq<Byte>, sent: nat, acked: nat,
                     window: nat)
    requires Windowed(frames, left, waiting, sent, acked, window)
    ensures acked <= sent <= |frames| && sent - acked <= window && left == frames[..sent]
  {
  }

  lemma WindowFull(frames: seq<seq<Byte>>, left: seq<seq<Byte>>, waiting: seq<Byte>, sent: nat, acked: nat, window: nat)
    requires Windowed(frames, left, waiting, sent, acked, window)
    ensures sent == Refill(|frames|, acked, window)
  {
  }

  lemma DrainBounds(frames: seq<seq<Byte>>, left: seq<seq<Byte>>, waiting: seq<Byte>, sent: nat, acked: nat,
                    window: nat)
    requires Draining(frames, left, waiting, sent, acked, window)
    ensures acked <= sent <= |frames| && sent - acked <= window && left == frames[..sent]
  {
  }

  lemma MoveWindow(frames: seq<seq<Byte>>, left: seq<seq<Byte>>, waiting: seq<Byte>, sent: nat, acked: nat, window: nat,
                   acked1: nat)
    requires Windowed(frames, left, waiting, sent, acked, window) && acked <= acked1 <= sent
    ensures Draining(frames, left, waiting, sent, acked1, window)
  {
    hide Records;
  }

  // ------------------------------------------------------------ the receiving half

  class Receiver {
    var received: Seq16
    var stream: seq<Byte>
    /** How many blocks were accepted altogether. */
    ghost var count: nat

    ghost predicate Valid()
      reads this
    {
      received == count % WRAP
    }

    ghost function Side(): Inbox
      reads this
    {
      Inbox(count, stream)
    }

    constructor ()
      ensures Valid() && Side() == START.into
    {
      received, stream, count := 0, [], 0;
    }

    /** Take a message block: append its payload if it is the next one, and acknowledge
        everything taken so far. */
    method Message(number: Seq16, payload: seq<Byte>) returns (ack: Seq16)
      requires Valid()
      modifies this
      ensures Valid() && Side() == Taken(old(Side()), number, payload)
      ensures ack == Side().count % WRAP
    {
      var isNext := number == received;
      if isNext {
        received := (received + 1) % WRAP;
        count := count + 1;
      }
      ack := received;
      if isNext {
        stream := stream + payload;
      }
    }
  }

  // ------------------------------------------------------------ both halves

  /** Sender and receiver joined, with the acknowledgements made. Every block sent and every
      acknowledgement made stays on its way for ever, so a run may deliver it late, again,
      or never. */
  datatype Net = Net(out: Outbox, into: Inbox, acks: set<nat>)

  datatype Event = Offer(payload: seq<Byte>) | Block(i: nat) | Ack(n: nat)

  const START: Net := Net(Outbox([], 0, 0), Inbox(0, []), {})

  function Next(window: nat, s: Net, e: Event): Net {
    match e
    case Offer(payload) => s.(out := Offered(window, s.out, payload))
    case Block(i) =>
      var into := if i < |s.out.chunks| then Taken(s.into, i % WRAP, s.out.chunks[i]) else s.into;
      s.(into := into, acks := s.acks + {into.count})
    case Ack(n) => s.(out := Confirmed(window, s.out, n % WRAP))
  }

  /** What the channel may deliver: blocks that were sent and acknowledgements that were
      made, none of them a whole sequence wrap old. */
  predicate Possible(s: Net, e: Event) {
    match e
    case Offer(_) => true
    case Block(i) => i < s.out.sent && s.into.count < i + WRAP
    case Ack(n) => n in s.acks && s.out.sent < n + WRAP
  }

  predicate Run(window: nat, s: Net, events: seq<Event>)
    decreases |events|
  {
    events == [] || (Possible(s, events[0]) && Run(window, Next(window, s, events[0]), events[1..]))
  }

  function After(window: nat, s: Net, events: seq<Event>): Net
    decreases |events|
  {
    if events == [] then s else After(window, Next(window, s, events[0]), events[1..])
  }

  /** Acknowledged blocks were received, received ones sent; the stream is exactly the
      payloads received, each once and in order; and blocks wait only behind a full window. */
  predicate InOrder(window: nat, s: Net) {
    && s.out.acked <= s.into.count <= s.out.sent <= |s.out.chunks| && s.out.sent - s.out.acked <= window
    && (s.out.sent < |s.out.chunks| ==> s.out.sent - s.out.acked == window)
    && s.into.stream == Concat(s.out.chunks[..s.into.count])
    && forall n :: n in s.acks ==> n <= s.into.count
  }

  /** A block that is not a wrap old is taken exactly when it is the next one. */
  lemma FreshExact(i: nat, count: nat)
    requires i < count + WRAP && count < i + WRAP
    ensures Fresh(i % WRAP, count % WRAP) <==> i == count
  {
    if i != count {
      if i < count {
        Behind(i, count);
        assert i % WRAP != count % WRAP by { DifferentResidues(i, count); }
      } else {
        DifferentResidues(count, i);
      }
    }
  }

  lemma DifferentResidues(a: nat, b: nat)
    requires a < b < a + WRAP
    ensures a % WRAP != b % WRAP
  {
  }

  lemma NextInOrder(window: nat, s: Net, e: Event)
    requires 0 < window < WRAP && InOrder(window, s) && Possible(s, e)
    ensures InOrder(window, Next(window, s, e))
  {
    hide Concat, AckedAfter, Fresh;
    match e
    case Offer(payload) =>
      assert (s.out.chunks + [payload])[..s.into.count] == s.out.chunks[..s.into.count];
    case Block(i) =>
      FreshExact(i, s.into.count);
      if i == s.into.count {
        ConcatNext(s.out.chunks, i);
      }
    case Ack(n) =>
      if n >= s.out.acked {
        AckExact(s.out.acked, s.out.sent, n);
      } else {
        ModUnique(s.out.acked - n, WRAP, 0, s.out.acked - n);
        OldAck(s.out.acked, s.out.sent, n);
      }
  }

  /** Exactly once and in order, over every run of the channel. */
  lemma {:induction false} ExactlyOnce(window: nat, s: Net, events: seq<Event>)
    requires 0 < window < WRAP && InOrder(window, s) && Run(window, s, events)
    ensures InOrder(window, After(window, s, events))
    decreases |events|
  {
    hide InOrder, Possible, Next;
    if events != [] {
      NextInOrder(window, s, events[0]);
      ExactlyOnce(window, Next(window, s, events[0]), events[1..]);
    }
  }

  /** So after any run of a fresh pair the stream is an initial part of what was offered. */
  lemma FreshPairInOrder(window: nat, events: seq<Event>)
    requires 0 < window < WRAP && Run(window, START, events)
    ensures
      var s := After(window, START, events);
      s.into.count <= |s.out.chunks| && s.into.stream == Concat(s.out.chunks[..s.into.count])
  {
    assert START.out.chunks[..0] == [];
    assert Concat([]) == [];
    ExactlyOnce(window, START, events);
  }

  /** The age bound is needed: a copy exactly one wrap old is taken for the next block. */
  lemma WrapOldIsFresh(i: nat)
    ensures Fresh(i % WRAP, (i + WRAP) % WRAP)
  {
    assert (i + WRAP) % WRAP == i % WRAP by { ModUnique(i + WRAP, WRAP, i / WRAP + 1, i % WRAP); }
  }
}
