/** The plain PC Link transport: quoting, checked blocks and commands on the way out, and
    the byte-by-byte decoder that undoes them. */
module PcLink {
  import opened Words
  import Crc

  const BLOCK_MAX: nat := 256
  const PAYLOAD_MAX: nat := 1028
  const CTRL_END: Byte := 0x0E
  const CTRL_ABORT: Byte := 0x0F
  const CTRL_QUOTE: Byte := 0x10
  const GREETING: seq<Byte> := [0x43, 0x68, 0x4D, 0x61]

  // ------------------------------------------------------------ words and checksums

  lemma LoadSlice(a: seq<Byte>, at: nat)
    requires at + 4 <= |a|
    ensures LoadBE(a, at, 4) == LoadBE(a[at..at + 4], 0, 4)
  {
  }

  /** The transport's checksum of a block: the CRC register, not complemented. */
  function Check(data: seq<Byte>): Word {
    Crc.Register(seq(|data|, i requires 0 <= i < |data| => data[i] as bv8)) as int
  }

  // ------------------------------------------------------------ the way out

  predicate IsControl(b: Byte) {
    b == CTRL_END || b == CTRL_ABORT || b == CTRL_QUOTE
  }

  function Quote(b: Byte): (r: seq<Byte>)
    ensures 1 <= |r| <= 2
  {
    if IsControl(b) then [CTRL_QUOTE, b] else [b]
  }

  function Quoted(data: seq<Byte>): seq<Byte>
    decreases |data|
  {
    if data == [] then [] else Quoted(data[..|data| - 1]) + Quote(data[|data| - 1])
  }

  /** How many bytes fill a block that starts with `at` bytes in it. */
  function Filled(data: seq<Byte>, at: nat): (n: nat)
    ensures n <= |data| && (data != [] && at + 2 <= BLOCK_MAX ==> n > 0)
    decreases |data|
  {
    if data == [] || at + 2 > BLOCK_MAX then 0 else 1 + Filled(data[1..], at + |Quote(data[0])|)
  }

  function Block(quoted: seq<Byte>): (r: seq<Byte>)
    requires 1 <= |quoted| <= BLOCK_MAX
    ensures |r| == |quoted| + 6
  {
    [|quoted| / 0x100, |quoted| % 0x100] + quoted + Word4(Check(quoted))
  }

  lemma QuotedNext(data: seq<Byte>, i: nat)
    requires i < |data|
    ensures Quoted(data[..i + 1]) == Quoted(data[..i]) + Quote(data[i])
  {
    assert data[..i + 1][..i] == data[..i];
  }

  lemma {:induction false} QuotedCons(b: Byte, data: seq<Byte>)
    ensures Quoted([b] + data) == Quote(b) + Quoted(data)
    decreases |data|
  {
    hide Quote;
    if data == [] {
      assert [b] + data == [b] && [b][..0] == [];
      assert Quoted([]) == [];
    } else {
      var n := |data| - 1;
      assert ([b] + data)[..n + 1] == [b] + data[..n];
      QuotedCons(b, data[..n]);
    }
  }

  lemma {:induction false} FilledFits(data: seq<Byte>, at: nat)
    requires at <= BLOCK_MAX
    ensures at + |Quoted(data[..Filled(data, at)])| <= BLOCK_MAX
    decreases |data|
  {
    hide Quote;
    if data == [] || at + 2 > BLOCK_MAX {
      assert data[..0] == [];
    } else {
      var n := Filled(data[1..], at + |Quote(data[0])|);
      FilledFits(data[1..], at + |Quote(data[0])|);
      assert data[..1 + n] == [data[0]] + data[1..][..n];
      QuotedCons(data[0], data[1..][..n]);
    }
  }

  lemma {:induction false} QuotedNonempty(data: seq<Byte>)
    ensures |Quoted(data)| >= |data|
    decreases |data|
  {
    hide Quote;
    if data != [] {
      QuotedNonempty(data[..|data| - 1]);
    }
  }

  /** The first block of `data`: never longer than the limit, and never ending between a
      quote and the byte it quotes. */
  function FirstBlock(data: seq<Byte>): (q: seq<Byte>)
    requires data != []
    ensures 1 <= |q| <= BLOCK_MAX && q == Quoted(data[..Filled(data, 0)])
  {
    FilledFits(data, 0);
    QuotedNonempty(data[..Filled(data, 0)]);
    Quoted(data[..Filled(data, 0)])
  }

  function Wire(data: seq<Byte>): seq<Byte>
    decreases |data|
  {
    if data == [] then [] else Block(FirstBlock(data)) + Wire(data[Filled(data, 0)..])
  }

  // ------------------------------------------------------------ the way in

  datatype Cmd = Cmd(tag: seq<Byte>, payload: seq<Byte>)

  datatype Decoder = Decoder(wire: seq<Byte>, escaped: bool, stream: seq<Byte>, commands: seq<Cmd>, failed: bool)

  /** Undo the quoting of one block; unquoted end and abort marks are dropped. */
  function Unquote(data: seq<Byte>, escaped: bool): (seq<Byte>, bool)
    decreases |data|
  {
    if data == [] then ([], escaped)
    else
      var (out, e) := Unquote(data[..|data| - 1], escaped);
      var b := data[|data| - 1];
      if e then (out + [b], false)
      else if b == CTRL_QUOTE then (out, true)
      else if b == CTRL_END || b == CTRL_ABORT then (out, false)
      else (out + [b], false)
  }

  /** Whole commands at the front of the stream, and what is left. */
  function Parse(stream: seq<Byte>): (seq<Cmd>, seq<Byte>, bool)
    decreases |stream|
  {
    if |stream| < 8 then ([], stream, false)
    else
      var len := LoadBE(stream, 4, 4);
      if len > PAYLOAD_MAX then ([], stream, true)
      else if |stream| < 8 + len then ([], stream, false)
      else
        var (rest, left, failed) := Parse(stream[8 + len..]);
        ([Cmd(stream[..4], stream[8..8 + len])] + rest, left, failed)
  }

  function TakeBlock(d: Decoder, n: nat): Decoder
    requires n + 6 <= |d.wire|
  {
    var (out, e) := Unquote(d.wire[2..2 + n], d.escaped);
    var (commands, left, failed) := Parse(d.stream + out);
    Decoder(d.wire[n + 6..], e, left, d.commands + commands, failed)
  }

  /** Take every whole block off the wire. */
  function Settle(d: Decoder): Decoder
    decreases |d.wire|
  {
    if d.failed || |d.wire| < 2 then d
    else
      var n := LoadBE(d.wire, 0, 2);
      if n < 1 || n > BLOCK_MAX then d.(failed := true)
      else if |d.wire| < n + 6 then d
      else if LoadBE(d.wire, 2 + n, 4) != Check(d.wire[2..2 + n]) then d.(failed := true)
      else Settle(TakeBlock(d, n))
  }

  function Feed(d: Decoder, b: Byte): Decoder {
    if d.failed then d else Settle(d.(wire := d.wire + [b]))
  }

  function FeedAll(d: Decoder, data: seq<Byte>): Decoder
    decreases |data|
  {
    if data == [] then d else Feed(FeedAll(d, data[..|data| - 1]), data[|data| - 1])
  }

  // ------------------------------------------------------------ round trip

  lemma UnquoteNext(data: seq<Byte>, b: Byte, escaped: bool)
    ensures
      var (out, e) := Unquote(data, escaped);
      Unquote(data + [b], escaped) ==
        (if e then (out + [b], false)
         else if b == CTRL_QUOTE then (out, true)
         else if b == CTRL_END || b == CTRL_ABORT then (out, false)
         else (out + [b], false))
  {
    assert (data + [b])[..|data|] == data;
  }

  /** Unquoting undoes quoting, and leaves no quote pending. */
  lemma {:induction false} UnquoteQuoted(data: seq<Byte>)
    ensures Unquote(Quoted(data), false) == (data, false)
    decreases |data|
  {
    if data != [] {
      hide Unquote;
      var n := |data| - 1;
      UnquoteQuoted(data[..n]);
      var b := data[n];
      assert data == data[..n] + [b];
      if IsControl(b) {
        UnquoteNext(Quoted(data[..n]), CTRL_QUOTE, false);
        UnquoteNext(Quoted(data[..n]) + [CTRL_QUOTE], b, false);
        assert Quoted(data) == Quoted(data[..n]) + [CTRL_QUOTE] + [b];
      } else {
        UnquoteNext(Quoted(data[..n]), b, false);
      }
    }
  }

  predicate Idle(d: Decoder) {
    d.wire == [] && !d.escaped && !d.failed
  }

  lemma BlockLength(q: seq<Byte>, k: nat)
    requires 1 <= |q| <= BLOCK_MAX && 2 <= k <= |Block(q)|
    ensures LoadBE(Block(q)[..k], 0, 2) == |q|
  {
    hide Check, Word4;
    var n := |q|;
    assert (n / 0x100) * 0x100 + n % 0x100 == n;
  }

  /** The bytes of a block before its last change nothing but the wire. */
  lemma {:induction false} PartialBlock(d: Decoder, q: seq<Byte>, k: nat)
    requires Idle(d) && 1 <= |q| <= BLOCK_MAX && k < |Block(q)|
    ensures FeedAll(d, Block(q)[..k]) == d.(wire := Block(q)[..k])
    decreases k
  {
    hide Check, Word4, TakeBlock;
    var block := Block(q);
    if k == 0 {
      assert block[..0] == [];
    } else {
      PartialBlock(d, q, k - 1);
      assert block[..k][..k - 1] == block[..k - 1];
      assert block[..k - 1] + [block[k - 1]] == block[..k];
      if k >= 2 {
        BlockLength(q, k);
      }
    }
  }

  /** A whole block arrives as its unquoted bytes. */
  lemma BlockArrives(d: Decoder, q: seq<Byte>)
    requires Idle(d) && 1 <= |q| <= BLOCK_MAX
    ensures
      var (out, e) := Unquote(q, false);
      var (commands, left, failed) := Parse(d.stream + out);
      FeedAll(d, Block(q)) == Decoder([], e, left, d.commands + commands, failed)
  {
    hide Check, Word4, Unquote, Parse;
    var block := Block(q);
    var n := |block| - 1;
    PartialBlock(d, q, n);
    assert block == block[..n] + [block[n]];
    BlockParts(q);
    BlockLength(q, |block|);
    assert block[..|block|] == block;
    var d1 := d.(wire := block);
    assert FeedAll(d, block) == Settle(d1);
    assert d1.wire[2..2 + |q|] == q;
    assert d1.wire[|q| + 6..] == [];
  }

  lemma BlockParts(q: seq<Byte>)
    requires 1 <= |q| <= BLOCK_MAX
    ensures LoadBE(Block(q), 2 + |q|, 4) == Check(q)
  {
    hide Check, Word4, LoadBE;
    LoadSlice(Block(q), 2 + |q|);
    assert Block(q)[2 + |q|..2 + |q| + 4] == Word4(Check(q));
    Word4Back(Check(q));
  }

  lemma {:induction false} FeedConcat(d: Decoder, a: seq<Byte>, b: seq<Byte>)
    ensures FeedAll(d, a + b) == FeedAll(FeedAll(d, a), b)
    decreases |b|
  {
    hide Feed;
    if b == [] {
      assert a + b == a;
    } else {
      var n := |b| - 1;
      assert (a + b)[..|a + b| - 1] == a + b[..n];
      FeedConcat(d, a, b[..n]);
    }
  }

  /** Parsing in two portions is parsing at once. */
  lemma {:induction false} ParseSplit(a: seq<Byte>, b: seq<Byte>)
    ensures
      var (c1, left, failed) := Parse(a);
      && (failed ==> Parse(a + b).2)
      && (!failed ==>
            var (c2, left2, failed2) := Parse(left + b);
            Parse(a + b) == (c1 + c2, left2, failed2))
    decreases |a|
  {
    hide LoadBE;
    if |a| < 8 {
      assert [] + Parse(a + b).0 == Parse(a + b).0;
    } else {
      LoadSlice(a, 4);
      LoadSlice(a + b, 4);
      assert (a + b)[4..8] == a[4..8];
      var len := LoadBE(a, 4, 4);
      if len <= PAYLOAD_MAX && |a| >= 8 + len {
        assert (a + b)[8 + len..] == a[8 + len..] + b;
        assert (a + b)[..4] == a[..4] && (a + b)[8..8 + len] == a[8..8 + len];
        ParseSplit(a[8 + len..], b);
        var head := [Cmd(a[..4], a[8..8 + len])];
        var (rest, left, _) := Parse(a[8 + len..]);
        assert head + (rest + Parse(left + b).0) == head + rest + Parse(left + b).0;
      } else if len <= PAYLOAD_MAX {
        assert [] + Parse(a + b).0 == Parse(a + b).0;
      }
    }
  }

  /** Decoding what was emitted gives the data back to the command parser, whatever bytes
      it has. */
  lemma {:induction false} WireRoundTrip(d: Decoder, data: seq<Byte>)
    requires Idle(d) && !Parse(d.stream + data).2 && Parse(d.stream) == ([], d.stream, false)
    ensures
      var (commands, left, _) := Parse(d.stream + data);
      FeedAll(d, Wire(data)) == Decoder([], false, left, d.commands + commands, false)
    decreases |data|
  {
    hide Parse, Feed, Block, FirstBlock, Filled, Unquote;
    if data == [] {
      assert d.stream + data == d.stream && d.commands + [] == d.commands;
      NoBytes(d);
    } else {
      FilledSome(data);
      var n := Filled(data, 0);
      var q := FirstBlock(data);
      assert d.stream + data == d.stream + data[..n] + data[n..];
      ParseSplit(d.stream + data[..n], data[n..]);
      UnquoteQuoted(data[..n]);
      BlockArrives(d, q);
      var (c1, left, failed) := Parse(d.stream + data[..n]);
      var d1 := Decoder([], false, left, d.commands + c1, failed);
      FeedConcat(d, Block(q), Wire(data[n..]));
      ParseRest(d.stream + data[..n]);
      WireRoundTrip(d1, data[n..]);
      var (c2, left2, _) := Parse(left + data[n..]);
      assert d.commands + c1 + c2 == d.commands + (c1 + c2);
    }
  }

  lemma NoBytes(d: Decoder)
    ensures FeedAll(d, Wire([])) == d
  {
  }

  lemma FilledSome(data: seq<Byte>)
    requires data != []
    ensures 0 < Filled(data, 0) <= |data| && Wire(data) == Block(FirstBlock(data)) + Wire(data[Filled(data, 0)..])
  {
  }

  /** What the parser leaves holds no whole command. */
  lemma {:induction false} ParseRest(stream: seq<Byte>)
    ensures !Parse(stream).2 ==> Parse(Parse(stream).1) == ([], Parse(stream).1, false)
    decreases |stream|
  {
    hide LoadBE;
    if |stream| >= 8 {
      var len := LoadBE(stream, 4, 4);
      if len <= PAYLOAD_MAX && |stream| >= 8 + len {
        ParseRest(stream[8 + len..]);
      }
    }
  }

  // ------------------------------------------------------------ commands

  predicate Sendable(c: Cmd) {
    |c.tag| == 4 && |c.payload| <= PAYLOAD_MAX
  }

  /** A command: four-byte tag, length, payload. */
  function CommandBytes(c: Cmd): seq<Byte>
    requires |c.payload| < TWO32
  {
    c.tag + Word4(|c.payload|) + c.payload
  }

  lemma ParseCommand(c: Cmd)
    requires Sendable(c)
    ensures Parse(CommandBytes(c)) == ([c], [], false)
  {
    hide LoadBE, Word4;
    var bytes := CommandBytes(c);
    LoadSlice(bytes, 4);
    assert bytes[4..8] == Word4(|c.payload|);
    Word4Back(|c.payload|);
    assert bytes[..4] == c.tag && bytes[8..8 + |c.payload|] == c.payload;
    assert bytes[8 + |c.payload|..] == [];
    assert Parse([]) == ([], [], false);
    assert [Cmd(c.tag, c.payload)] + [] == [c];
  }

  /** A command at the front of a stream is read back, and the rest after it. */
  lemma ParseFirst(c: Cmd, rest: seq<Byte>)
    requires Sendable(c)
    ensures
      var (commands, left, failed) := Parse(rest);
      Parse(CommandBytes(c) + rest) == ([c] + commands, left, failed)
  {
    hide Parse, CommandBytes;
    ParseCommand(c);
    ParseSplit(CommandBytes(c), rest);
    assert [] + rest == rest;
  }

  function WireOf(commands: seq<Cmd>): seq<Byte>
    requires forall i :: 0 <= i < |commands| ==> Sendable(commands[i])
    decreases |commands|
  {
    if commands == [] then []
    else
      assert Sendable(commands[0]);
      Wire(CommandBytes(commands[0])) + WireOf(commands[1..])
  }

  /** Any sequence of commands is parsed back as the same tags and payloads. */
  lemma {:induction false} CommandsRoundTrip(d: Decoder, commands: seq<Cmd>)
    requires Idle(d) && d.stream == []
    requires forall i :: 0 <= i < |commands| ==> Sendable(commands[i])
    ensures FeedAll(d, WireOf(commands)) == d.(commands := d.commands + commands)
    decreases |commands|
  {
    hide Feed, Wire, Parse, CommandBytes;
    if commands == [] {
      assert d.commands + [] == d.commands;
    } else {
      assert Sendable(commands[0]);
      var bytes := CommandBytes(commands[0]);
      assert d.stream + bytes == bytes;
      ParseCommand(commands[0]);
      ParseNothing();
      WireRoundTrip(d, bytes);
      FeedConcat(d, Wire(bytes), WireOf(commands[1..]));
      CommandsRoundTrip(d.(commands := d.commands + [commands[0]]), commands[1..]);
      assert d.commands + [commands[0]] + commands[1..] == d.commands + commands;
    }
  }

  lemma ParseNothing()
    ensures Parse([]) == ([], [], false)
  {
  }

  // ------------------------------------------------------------ the link

  lemma CheckIs(data: seq<Byte>, c: bv32)
    requires c == Crc.Register(seq(|data|, i requires 0 <= i < |data| => data[i] as bv8))
    ensures c as int == Check(data)
  {
  }

  method CheckOf(data: seq<Byte>) returns (w: Word)
    ensures w == Check(data)
  {
    hide Crc.Register;
    var c := Crc.Crc32Of(seq(|data|, i requires 0 <= i < |data| => data[i] as bv8));
    CheckIs(data, c);
    w := c as int;
  }

  class Transport {
    var out: seq<Byte>
    var wire: seq<Byte>
    var stream: seq<Byte>
    var escaped: bool
    var greeted: bool
    /** The first byte was a PPP flag: the other transport takes over. */
    var ppp: bool
    var failed: bool
    /** Commands handed on, in order. */
    var commands: seq<Cmd>
    /** Everything received so far. */
    ghost var heard: seq<Byte>

    ghost function State(): Decoder
      reads this
    {
      Decoder(wire, escaped, stream, commands, failed)
    }

    constructor ()
      ensures State() == Decoder([], false, [], [], false) && !greeted && !ppp && out == [] && Waiting() && heard == []
    {
      out, wire, stream, commands := [], [], [], [];
      escaped, greeted, ppp, failed := false, false, false, false;
      heard := [];
    }

    /** Fill one block from the front of `data`, never splitting a quote from its byte. */
    method Fill(data: seq<Byte>) returns (quoted: seq<Byte>, i: nat)
      requires data != []
      ensures i == Filled(data, 0) && quoted == FirstBlock(data)
    {
      hide Quote;
      quoted, i := [], 0;
      assert data[..0] == [] && Quoted([]) == [];
      while i < |data| && |quoted| + 2 <= BLOCK_MAX
        invariant i <= |data| && quoted == Quoted(data[..i]) && |quoted| <= BLOCK_MAX
        invariant i + Filled(data[i..], |quoted|) == Filled(data, 0)
      {
        QuotedNext(data, i);
        FilledNext(data, i, |quoted|);
        quoted := quoted + Quote(data[i]);
        i := i + 1;
      }
    }

    /** Quote the bytes and cut them into checked blocks. */
    method Emit(data: seq<Byte>)
      modifies this`out
      ensures out == old(out) + Wire(data)
    {
      hide Check, Word4, Wire, Filled, FirstBlock;
      var i := 0;
      assert data[0..] == data;
      while i < |data|
        invariant i <= |data| && out + Wire(data[i..]) == old(out) + Wire(data)
      {
        var quoted, n := Fill(data[i..]);
        FilledSome(data[i..]);
        assert data[i..][n..] == data[i + n..];
        var c := CheckOf(quoted);
        out := out + ([|quoted| / 0x100, |quoted| % 0x100] + quoted + Word4(c));
        i := i + n;
      }
      NothingLeft(data);
    }

    /** Undo the quoting of a block into the stream. */
    method Unstuff(data: seq<Byte>)
      modifies this`stream, this`escaped
      ensures stream == old(stream) + Unquote(data, old(escaped)).0 && escaped == Unquote(data, old(escaped)).1
    {
      assert data[..0] == [];
      for i := 0 to |data|
        invariant stream == old(stream) + Unquote(data[..i], old(escaped)).0
        invariant escaped == Unquote(data[..i], old(escaped)).1
      {
        UnquoteNext(data[..i], data[i], old(escaped));
        assert data[..i + 1] == data[..i] + [data[i]];
        var b := data[i];
        if escaped {
          escaped := false;
          stream := stream + [b];
        } else if b == CTRL_QUOTE {
          escaped := true;
        } else if b != CTRL_END && b != CTRL_ABORT {
          stream := stream + [b];
        }
      }
      assert data[..|data|] == data;
    }

    /** Take whole commands off the stream. */
    method DrainStream()
      requires !failed
      modifies this`stream, this`commands, this`failed
      ensures commands == old(commands) + Parse(old(stream)).0 && stream == Parse(old(stream)).1
      ensures failed == Parse(old(stream)).2
    {
      hide LoadBE;
      ghost var all := Parse(stream);
      while true
        invariant !failed
        invariant Parse(stream).1 == all.1 && Parse(stream).2 == all.2
        invariant commands + Parse(stream).0 == old(commands) + all.0
        decreases |stream|
      {
        if |stream| < 8 {
          return;
        }
        var len := LoadBE(stream, 4, 4);
        if len > PAYLOAD_MAX {
          failed := true;
          return;
        }
        if |stream| < 8 + len {
          return;
        }
        commands := commands + [Cmd(stream[..4], stream[8..8 + len])];
        stream := stream[8 + len..];
      }
    }

    /** Before the greeting only its possible beginnings are kept. */
    ghost predicate Waiting()
      reads this
    {
      !greeted && !ppp && !failed && !Greeted(heard) && wire == Tail(heard)
    }

    /** A byte before the greeting: the link is greeted exactly when the four letters have
        just arrived in a row, and then nothing is left over from before. */
    method Listen(b: Byte)
      requires Waiting() && b != 0x7E
      modifies this`wire, this`greeted, this`heard
      ensures heard == old(heard) + [b] && greeted == Greeted(heard)
      ensures if greeted then wire == [] else Waiting()
    {
      hide Greeted;
      wire := wire + [b];
      heard := heard + [b];
      GreetingEnds(old(heard), b);
      for i := 0 to if |wire| < 4 then 0 else |wire| - 3
        invariant !greeted && wire == Tail(old(heard)) + [b]
        invariant forall j :: 0 <= j < i ==> !GreetingAt(wire, j)
      {
        if GreetingAt(wire, i) {
          assert i == 0 && wire[0..4] == wire;
          wire := wire[i + 4..];
          greeted := true;
          return;
        }
      }
      if |wire| > 3 {
        assert !GreetingAt(wire, 0) && wire[0..4] == wire;
        wire := wire[|wire| - 3..];
      }
      TailNext(old(heard), b);
    }

    ghost predicate Valid()
      reads this
    {
      !greeted && !ppp && !failed ==> Waiting()
    }

    /** One byte from the guest. */
    method FromGuest(b: Byte)
      requires Valid()
      modifies this
      ensures Valid() && out == old(out)
      ensures old(failed) ==> State() == old(State()) && greeted == old(greeted)
      ensures !old(failed) && (old(ppp) || (!old(greeted) && b == 0x7E)) ==> ppp && State() == old(State())
      ensures !old(failed) && !old(ppp) && old(greeted) ==> State() == Feed(old(State()), b) && greeted && !ppp
      ensures old(Waiting()) && b != 0x7E ==>
                heard == old(heard) + [b] && greeted == Greeted(heard) && (if greeted then wire == [] else Waiting())
    {
      hide Feed, Greeted;
      if failed {
        return;
      }
      if ppp || (!greeted && b == 0x7E) {
        ppp := true;
        return;
      }
      if greeted {
        Receive(b);
      } else {
        Listen(b);
      }
    }

    /** One byte from the guest once it has greeted: every whole block is taken at once. */
    method Receive(b: Byte)
      modifies this`wire, this`stream, this`escaped, this`commands, this`failed
      ensures State() == Feed(old(State()), b)
    {
      hide LoadBE, Check, Unquote, Parse;
      if failed {
        return;
      }
      ghost var end := Feed(State(), b);
      wire := wire + [b];
      while true
        invariant !failed && Settle(State()) == end
        decreases |wire|
      {
        if |wire| < 2 {
          return;
        }
        var n := LoadBE(wire, 0, 2);
        if n < 1 || n > BLOCK_MAX {
          failed := true;
          return;
        }
        if |wire| < n + 6 {
          return;
        }
        var want := LoadBE(wire, 2 + n, 4);
        var got := CheckOf(wire[2..2 + n]);
        if want != got {
          failed := true;
          return;
        }
        ghost var next := TakeBlock(State(), n);
        Unstuff(wire[2..2 + n]);
        wire := wire[n + 6..];
        DrainStream();
        assert State() == next;
        if failed {
          return;
        }
      }
    }
  }

  lemma FilledNext(data: seq<Byte>, i: nat, at: nat)
    requires i < |data| && at + 2 <= BLOCK_MAX
    ensures Filled(data[i..], at) == 1 + Filled(data[i + 1..], at + |Quote(data[i])|)
  {
    hide Quote;
    assert data[i..][1..] == data[i + 1..];
  }

  predicate Greeted(heard: seq<Byte>) {
    exists i :: 0 <= i < |heard| && GreetingAt(heard, i)
  }

  predicate GreetingAt(heard: seq<Byte>, i: int) {
    0 <= i && i + 4 <= |heard| && heard[i..i + 4] == GREETING
  }

  function Tail(heard: seq<Byte>): seq<Byte> {
    if |heard| <= 3 then heard else heard[|heard| - 3..]
  }

  /** A greeting not heard before can only have just ended. */
  lemma GreetingEnds(heard: seq<Byte>, b: Byte)
    requires !Greeted(heard)
    ensures Greeted(heard + [b]) <==> |Tail(heard)| == 3 && Tail(heard) + [b] == GREETING
    ensures |Tail(heard) + [b]| <= 4
  {
    var all := heard + [b];
    if Greeted(all) {
      var i :| 0 <= i < |all| && GreetingAt(all, i);
      assert i + 4 <= |heard| ==> heard[i..i + 4] == all[i..i + 4];
      assert !GreetingAt(heard, i);
      assert all[i..i + 4] == Tail(heard) + [b];
    }
    if |Tail(heard)| == 3 && Tail(heard) + [b] == GREETING {
      assert all[|all| - 4..|all| - 4 + 4] == Tail(heard) + [b];
      assert GreetingAt(all, |all| - 4);
    }
  }

  lemma TailNext(heard: seq<Byte>, b: Byte)
    ensures
      var w := Tail(heard) + [b];
      Tail(heard + [b]) == if |w| > 3 then w[|w| - 3..] else w
  {
  }

  lemma NothingLeft(data: seq<Byte>)
    ensures Wire(data[|data|..]) == []
  {
  }
}
