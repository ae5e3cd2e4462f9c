/** The Magic Bus keyboard endpoint: a ring of scan bytes that whole key events enter, and
    the command envelopes the guest's driver sends. */
module KeyRing {
  import opened ByteBits
  import opened Wrappers

  const CAPACITY: nat := 256

  type Byte = bv8

  /** A code that needs no prefix sequence of its own. */
  predicate Plain(code: Byte) {
    code != 0 && code != 0xe0 && code != 0xe1 && code != 0xf0 && code != 0xf8
  }

  /** The scan bytes of one event. */
  function Scan(code: Byte, extended: bool, down: bool): (r: seq<Byte>)
    ensures |r| == 1 + (if extended then 1 else 0) + (if down then 0 else 1)
  {
    (if extended then [0xe0] else []) + (if down then [] else [0xf0]) + [code]
  }

  /** One event of the scan stream: its code, and whether it is a make. */
  datatype Stroke = Stroke(code: Byte, extended: bool, down: bool)

  function Scans(strokes: seq<Stroke>): seq<Byte> {
    if strokes == [] then []
    else
      var s := strokes[|strokes| - 1];
      Scans(strokes[..|strokes| - 1]) + Scan(s.code, s.extended, s.down)
  }

  /** Reads one event off a scan stream, prefixes first, as the guest's driver does. */
  function Parse(bytes: seq<Byte>): (r: seq<Stroke>) {
    if bytes == [] then []
    else
      var extended := bytes[0] == 0xe0;
      var rest := if extended then bytes[1..] else bytes;
      if rest == [] then []
      else
        var down := rest[0] != 0xf0;
        var last := if down then rest else rest[1..];
        if last == [] then [] else [Stroke(last[0], extended, down)] + Parse(last[1..])
  }

  lemma ParseFirst(s: Stroke, rest: seq<Byte>)
    requires Plain(s.code)
    ensures Parse(Scan(s.code, s.extended, s.down) + rest) == [s] + Parse(rest)
  {
    var all := Scan(s.code, s.extended, s.down) + rest;
    var body := if s.extended then all[1..] else all;
    assert body == (if s.down then [] else [0xf0]) + [s.code] + rest;
    var last := if s.down then body else body[1..];
    assert last == [s.code] + rest;
    assert last[1..] == rest;
  }

  lemma {:induction false} ScansFirst(strokes: seq<Stroke>)
    requires strokes != []
    ensures Scans(strokes) ==
            Scan(strokes[0].code, strokes[0].extended, strokes[0].down) + Scans(strokes[1..])
  {
    hide Scan;
    var last := |strokes| - 1;
    if last == 0 {
      assert strokes[..0] == [] && strokes[1..] == [];
    } else {
      ScansFirst(strokes[..last]);
      var rest, s := strokes[1..], strokes[last];
      assert rest[..|rest| - 1] == strokes[..last][1..];
      Joined(Scan(strokes[0].code, strokes[0].extended, strokes[0].down), Scans(strokes[..last][1..]),
             Scan(s.code, s.extended, s.down));
    }
  }

  lemma Joined(a: seq<Byte>, b: seq<Byte>, c: seq<Byte>)
    ensures (a + b) + c == a + (b + c)
  {
  }

  /** The scan stream tells the events: no event can be mistaken for parts of others. */
  lemma {:induction false} ParseScans(strokes: seq<Stroke>)
    requires forall k :: 0 <= k < |strokes| ==> Plain(strokes[k].code)
    ensures Parse(Scans(strokes)) == strokes
  {
    if strokes != [] {
      ScansFirst(strokes);
      ParseFirst(strokes[0], Scans(strokes[1..]));
      ParseScans(strokes[1..]);
    }
  }

  /** What a command envelope asks for. */
  datatype Command = Reset | Leds(leds: Byte) | Repeat(rate: Byte)

  /** The complete envelopes of the guest's driver; everything else is refused. */
  function Understood(data: seq<Byte>): Option<Command> {
    if |data| < 2 || data[0] != 0x4b || ValueOf(data[1]) > |data| - 2 then None
    else if data[1] == 1 && data[2] == 0xff then Some(Reset)
    else if data[1] == 2 && data[2] == 0xed && data[3] & !7 == 0 then Some(Leds(data[3]))
    else if data[1] == 3 && data[2] == 0xf3 && data[4] == 0xf4 && data[3] & 0x80 == 0 then Some(Repeat(data[3]))
    else None
  }

  function At(head: nat, i: nat): (r: nat)
    ensures r < CAPACITY
  {
    (head + i) % CAPACITY
  }

  lemma PlacesApart(head: nat, i: nat, j: nat)
    requires i < j < i + CAPACITY
    ensures At(head, i) != At(head, j)
  {
  }

  lemma PlacesAdd(head: nat, n: nat, i: nat)
    ensures At(At(head, n), i) == At(head, n + i)
  {
  }

  ghost function Slice(queue: seq<Byte>, head: nat, count: nat): (r: seq<Byte>)
    requires |queue| == CAPACITY
    ensures |r| == count
  {
    seq(count, i requires 0 <= i < count => queue[At(head, i)])
  }

  lemma SliceAt(queue: seq<Byte>, head: nat, count: nat, i: nat)
    requires |queue| == CAPACITY && i < count
    ensures Slice(queue, head, count)[i] == queue[At(head, i)]
  {
  }

  lemma SlicePush(queue: seq<Byte>, head: nat, count: nat, b: Byte)
    requires |queue| == CAPACITY && head < CAPACITY && count < CAPACITY
    ensures Slice(queue[At(head, count) := b], head, count + 1) == Slice(queue, head, count) + [b]
  {
    forall i | 0 <= i < count
      ensures At(head, i) != At(head, count)
    {
      PlacesApart(head, i, count);
    }
    hide At;
  }

  lemma SliceDrop(queue: seq<Byte>, head: nat, count: nat, n: nat)
    requires |queue| == CAPACITY && head < CAPACITY && n <= count <= CAPACITY
    ensures Slice(queue, At(head, n), count - n) == Slice(queue, head, count)[n..]
  {
    hide At;
    forall i | 0 <= i < count - n
      ensures At(At(head, n), i) == At(head, n + i)
    {
      PlacesAdd(head, n, i);
    }
  }

  function Least(a: nat, b: nat): nat {
    if a < b then a else b
  }

  /** Three lamps, and a repeat rate of seven bits. */
  predicate Settings(leds: Byte, repeat: Byte) {
    leds & !7 == 0 && repeat & 0x80 == 0
  }

  class Keyboard {
    const queue: array<Byte>
    var head: nat
    var count: nat
    var leds: Byte
    var repeat: Byte

    ghost predicate Valid()
      reads this, queue
    {
      queue.Length == CAPACITY && head < CAPACITY && count <= CAPACITY && Settings(leds, repeat)
    }

    ghost function Contents(): seq<Byte>
      requires queue.Length == CAPACITY
      reads this, queue
    {
      Slice(queue[..], head, count)
    }

    constructor ()
      ensures Valid() && fresh(queue) && Contents() == [] && leds == 0 && repeat == 0
    {
      queue := new Byte[CAPACITY](_ => 0);
      head, count, leds, repeat := 0, 0, 0, 0;
    }

    /** Enters the whole event, or nothing. */
    method Key(code: Byte, extended: bool, down: bool) returns (ok: bool)
      requires Valid()
      modifies `count, queue
      ensures Valid()
      ensures ok == (code !in {0, 0xe0, 0xe1, 0xf0, 0xf8} && |Scan(code, extended, down)| <= CAPACITY - old(count))
      ensures Contents() == old(Contents()) + if ok then Scan(code, extended, down) else []
    {
      if !Plain(code) { return false; }
      var n := 1 + (if extended then 1 else 0) + (if down then 0 else 1);
      if n > CAPACITY - count { return false; }
      var bytes := (if extended then [0xe0] else []) + (if down then [] else [0xf0]) + [code];
      PushAll(bytes);
      ok := true;
    }

    method PushAll(bytes: seq<Byte>)
      requires Valid() && |bytes| <= CAPACITY - count
      modifies `count, queue
      ensures Valid() && Contents() == old(Contents()) + bytes
    {
      var j := 0;
      while j < |bytes|
        invariant j <= |bytes| && Valid() && count == old(count) + j
        invariant Contents() == old(Contents()) + bytes[..j]
      {
        hide Slice;
        SlicePush(queue[..], head, count, bytes[j]);
        queue[At(head, count)] := bytes[j];
        count := count + 1;
        assert bytes[..j + 1] == bytes[..j] + [bytes[j]];
        j := j + 1;
      }
    }

    method Write(data: seq<Byte>) returns (ok: bool)
      requires Valid()
      modifies this
      ensures Valid()
      ensures ok == Understood(data).Some?
      ensures Contents() == if Understood(data) == Some(Reset) then [] else old(Contents())
      ensures leds == (match Understood(data) case Some(Reset) => 0 case Some(Leds(v)) => v case _ => old(leds))
      ensures repeat == (match Understood(data) case Some(Reset) => 0 case Some(Repeat(v)) => v case _ => old(repeat))
    {
      if |data| < 2 || data[0] != 0x4b || ValueOf(data[1]) > |data| - 2 { return false; }
      if data[1] == 1 && data[2] == 0xff {
        head, count, leds, repeat := 0, 0, 0, 0;
        return true;
      }
      if data[1] == 2 && data[2] == 0xed && data[3] & !7 == 0 {
        leds := data[3];
        return true;
      }
      if data[1] == 3 && data[2] == 0xf3 {
        if |data| < 5 || data[4] != 0xf4 || data[3] & 0x80 != 0 { return false; }
        repeat := data[3];
        return true;
      }
      return false;
    }

    /** Hands over the oldest bytes behind their count, as many as fit, and removes exactly
        those. */
    method Read(capacity: nat) returns (data: seq<Byte>)
      requires Valid()
      modifies `head, `count
      ensures Valid()
      ensures capacity == 0 ==> data == [] && Contents() == old(Contents())
      ensures capacity > 0 ==>
                var n := Least(old(count), Least(capacity - 1, 255));
                data == [ByteOf(n)] + old(Contents())[..n] && Contents() == old(Contents())[n..]
    {
      hide Slice, At, ByteOf;
      if capacity == 0 { return []; }
      var taken := count;
      if taken > capacity - 1 { taken := capacity - 1; }
      if taken > 255 { taken := 255; }
      data := Oldest(taken);
      data := [ByteOf(taken)] + data;
      SliceDrop(queue[..], head, count, taken);
      head := At(head, taken);
      count := count - taken;
    }

    method Oldest(n: nat) returns (bytes: seq<Byte>)
      requires Valid() && n <= count
      ensures bytes == Contents()[..n]
    {
      hide Slice;
      bytes := [];
      ghost var all := Contents();
      var i := 0;
      while i < n
        invariant i <= n && bytes == all[..i]
      {
        SliceAt(queue[..], head, count, i);
        bytes := bytes + [queue[At(head, i)]];
        assert all[..i + 1] == all[..i] + [all[i]];
        i := i + 1;
      }
    }

    /** A copy of the whole endpoint, by value. */
    method Copy() returns (k: Keyboard)
      requires Valid()
      ensures fresh(k) && fresh(k.queue) && k.Valid()
      ensures k.Contents() == Contents() && k.count == count && k.leds == leds && k.repeat == repeat
    {
      k := new Keyboard();
      k.Assign(this);
    }

    /** Takes over everything from another endpoint. */
    method Assign(k: Keyboard)
      requires Valid() && k.Valid() && k != this && k.queue != queue
      modifies this, queue
      ensures Valid()
      ensures Contents() == k.Contents() && count == k.count && leds == k.leds && repeat == k.repeat
    {
      forall i | 0 <= i < CAPACITY {
        queue[i] := k.queue[i];
      }
      head, count, leds, repeat := k.head, k.count, k.leds, k.repeat;
      assert queue[..] == k.queue[..];
    }

    /** Starts over with these bytes, from the front of the ring. */
    method Load(bytes: seq<Byte>, lamps: Byte, rate: Byte)
      requires queue.Length == CAPACITY && |bytes| <= CAPACITY && Settings(lamps, rate)
      modifies this, queue
      ensures Valid() && Contents() == bytes && leds == lamps && repeat == rate
    {
      hide Settings;
      head, count, leds, repeat := 0, |bytes|, lamps, rate;
      forall i | 0 <= i < CAPACITY {
        queue[i] := if i < |bytes| then bytes[i] else 0;
      }
      forall i | 0 <= i < |bytes|
        ensures At(0, i) == i
      {
      }
    }
  }
}
