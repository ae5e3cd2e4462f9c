/** The mutable bus: region registration, the page lookup cache, reads and writes, page
    pointers and spans; and the 68k core's direct tables on top of it. The cache and the
    tables are invisible: every access gives what the first-match rule gives. */
module Bus {
  import opened Words
  import opened Wrappers
  import opened BusMap

  const MAX_REGIONS: nat := 16
  const LINES: nat := 256

  /** A cache line: a page number and one more than a region index, or 0. */
  datatype Line = Line(page: nat, regionPlusOne: nat)

  /** Reads of a device region: region index, offset, size. */
  type Device = (nat, Word, nat) -> Word

  // ------------------------------------------------------------ what an access means

  predicate IsSize(size: nat) {
    size == 1 || size == 2 || size == 4
  }

  /** The host has the bytes the code takes. Those of a chip it always has; across the seam
      of a mirrored chip the code takes what lies behind the chip. */
  predicate InHost(rs: Map, memLen: nat, pa: Word, size: nat)
    requires IsSize(size)
  {
    match Answers(rs, pa, size)
    case Data(at) => at + size <= memLen
    case Seam(at) => at + size <= memLen
    case _ => true
  }

  lemma DataInHost(rs: Map, memLen: nat, pa: Word, size: nat)
    requires IsSize(size) && Backed(rs, memLen) && !Answers(rs, pa, size).Seam?
    ensures InHost(rs, memLen, pa, size)
  {
  }

  function ReadValue(rs: Map, mem: seq<Byte>, device: Device, pa: Word, size: nat): (r: (Word, bool))
    requires IsSize(size) && InHost(rs, |mem|, pa, size)
  {
    match Answers(rs, pa, size)
    case Fault => (0, false)
    case Floats(v) => (v, true)
    case Device(i, off) => (device(i, off, size), true)
    case Data(at) => (LoadBE(mem, at, size), true)
    case Seam(at) => (LoadBE(mem, at, size), true)
  }

  predicate Writable(rs: Map, pa: Word, size: nat) {
    First(rs, pa, size).Some? &&
    var k := rs[First(rs, pa, size).value].kind;
    k.Ram? || k.Flash?
  }

  /** Memory after a write: only RAM and flash take one. */
  function MemoryAfter(rs: Map, mem: seq<Byte>, pa: Word, size: nat, v: Word): (r: seq<Byte>)
    requires IsSize(size) && InHost(rs, |mem|, pa, size)
    ensures |r| == |mem|
  {
    match Answers(rs, pa, size)
    case Data(at) => if Writable(rs, pa, size) then StoreBE(mem, at, size, v) else mem
    case Seam(at) => if Writable(rs, pa, size) then StoreBE(mem, at, size, v) else mem
    case _ => mem
  }

  predicate IsRom(rs: Map, pa: Word, size: nat) {
    First(rs, pa, size).Some? && rs[First(rs, pa, size).value].kind.Rom?
  }

  predicate IsFlash(rs: Map, pa: Word, size: nat) {
    First(rs, pa, size).Some? && rs[First(rs, pa, size).value].kind.Flash?
  }

  /** Memory regions have memory installed, inside the host's. */
  predicate MapOk(rs: Map, memLen: nat) {
    |rs| <= MAX_REGIONS && Backed(rs, memLen) && forall i :: 0 <= i < |rs| && IsMemory(rs[i]) ==> Installed(rs[i])
  }

  /** The bytes the access covers on the board, where the chip's copies repeat. */
  function MirrorBytes(r: Region, mem: seq<Byte>, pa: Word, size: nat): (bytes: seq<Byte>)
    requires Installed(r) && r.base <= pa && r.host.value + r.hostLen <= |mem|
    ensures |bytes| == size
  {
    seq(size, d requires 0 <= d < size => mem[MirrorAddress(r, pa, d)])
  }

  /** Clear of the seam a read gives the mirrored bytes of the first region. */
  lemma ReadMirrors(rs: Map, mem: seq<Byte>, device: Device, pa: Word, size: nat)
    requires IsSize(size) && Backed(rs, |mem|) && Answers(rs, pa, size).Data?
    ensures InHost(rs, |mem|, pa, size)
    ensures
      var r := rs[First(rs, pa, size).value];
      ReadValue(rs, mem, device, pa, size) == (LoadBE(MirrorBytes(r, mem, pa, size), 0, size), true)
  {
    var r := rs[First(rs, pa, size).value];
    SeamExact(r, pa, size);
    var bytes := MirrorBytes(r, mem, pa, size);
    forall d | 0 <= d < size
      ensures bytes[d] == mem[HostAddress(r, pa) + d]
    {
      assert MirrorAddress(r, pa, d) == HostAddress(r, pa) + d;
    }
  }

  /** Clear of the seam a write to RAM or flash puts the value in the mirrored bytes of the
      first region, and changes no other byte. */
  lemma WriteMirrors(rs: Map, mem: seq<Byte>, pa: Word, size: nat, v: Word)
    requires IsSize(size) && Backed(rs, |mem|) && Answers(rs, pa, size).Data? && Writable(rs, pa, size)
    ensures InHost(rs, |mem|, pa, size)
    ensures
      var r := rs[First(rs, pa, size).value];
      var after := MemoryAfter(rs, mem, pa, size, v);
      && LoadBE(MirrorBytes(r, after, pa, size), 0, size) == Truncated(v, size)
      && forall b :: 0 <= b < |mem| && (forall d :: 0 <= d < size ==> b != MirrorAddress(r, pa, d)) ==>
           after[b] == mem[b]
  {
    var r := rs[First(rs, pa, size).value];
    SeamExact(r, pa, size);
    var at := HostAddress(r, pa);
    var after := StoreBE(mem, at, size, v);
    forall d | 0 <= d < size
      ensures MirrorAddress(r, pa, d) == at + d
    {
    }
    StoredBack(mem, at, size, v, MirrorBytes(r, after, pa, size));
    forall b | 0 <= b < |mem| && (forall d :: 0 <= d < size ==> b != MirrorAddress(r, pa, d))
      ensures after[b] == mem[b]
    {
      NotCovered(r, pa, size, at, b);
    }
  }

  lemma NotCovered(r: Region, pa: Word, size: nat, at: nat, b: nat)
    requires Installed(r) && r.base <= pa && forall d :: 0 <= d < size ==> MirrorAddress(r, pa, d) == at + d
    requires forall d :: 0 <= d < size ==> b != MirrorAddress(r, pa, d)
    ensures b < at || b >= at + size
  {
    var d := if at <= b < at + size then b - at else 0;
    if d < size {
      assert MirrorAddress(r, pa, d) == at + d;
    }
  }

  /** The low `size` bytes of a word. */
  function Truncated(v: Word, size: nat): Word
    requires IsSize(size)
  {
    if size == 4 then v else if size == 2 then v % 0x1_0000 else v % 0x100
  }

  lemma StoredBack(mem: seq<Byte>, at: nat, size: nat, v: Word, bytes: seq<Byte>)
    requires IsSize(size) && at + size <= |mem| && |bytes| == size
    requires forall d :: 0 <= d < size ==> bytes[d] == StoreBE(mem, at, size, v)[at + d]
    ensures LoadBE(bytes, 0, size) == Truncated(v, size)
  {
    var q1 := v / 0x100;
    var q2 := q1 / 0x100;
    assert v == v % 0x100 + 0x100 * q1 && q1 == q1 % 0x100 + 0x100 * q2 && q2 == q2 % 0x100 + 0x100 * (q2 / 0x100);
    assert v / 0x1_0000 == q2 && v / 0x100_0000 == q2 / 0x100;
    var stored := StoreBE(mem, at, size, v);
    assert bytes[0] == stored[at];
    if size >= 2 {
      assert bytes[1] == stored[at + 1];
    }
    if size == 4 {
      assert bytes[2] == stored[at + 2] && bytes[3] == stored[at + 3];
    } else {
      assert v % 0x1_0000 == v % 0x100 + 0x100 * (q1 % 0x100);
    }
  }

  // ------------------------------------------------------------ the cache

  function LineOf(page: nat): (r: nat)
    ensures r < LINES
  {
    Bitwise(BitXor, page, page / 256) % LINES
  }

  /** A filled line names the region that answers every access inside its page. */
  predicate LineOk(rs: Map, l: Line) {
    l.regionPlusOne > 0 ==> l.page < 0x10_0000 && Uniform(rs, l.page * 0x1000, l.regionPlusOne - 1)
  }

  predicate PageAccess(pa: Word, size: nat) {
    0 < size <= 4096 && pa % 4096 <= 4096 - size
  }

  /** A line that matches answers as the scan would. */
  lemma LineAnswers(rs: Map, l: Line, pa: Word, size: nat)
    requires LineOk(rs, l) && l.regionPlusOne > 0 && l.page == pa / 4096 && PageAccess(pa, size)
    ensures First(rs, pa, size) == Some(l.regionPlusOne - 1)
  {
    UniformPageAnswers(rs, l.page * 0x1000, l.regionPlusOne - 1, pa, size);
  }

  class MemoryBus {
    var region: seq<Region>
    var lastHit: nat
    var lookupEnabled: bool
    var generation: nat
    const lookup: array<Line>
    /** The host's memory that regions point into. */
    var mem: seq<Byte>
    const device: Device
    var readCount: nat
    var writeCount: nat
    var faults: nat
    var flashWrites: nat

    ghost predicate Valid()
      reads this, lookup
    {
      lookup.Length == LINES && MapOk(region, |mem|) && forall k :: 0 <= k < LINES ==> LineOk(region, lookup[k])
    }

    constructor (mem: seq<Byte>, device: Device)
      ensures Valid() && fresh(lookup) && region == [] && this.mem == mem && this.device == device && !lookupEnabled
    {
      region := [];
      lastHit := 0;
      lookupEnabled := false;
      generation := 0;
      lookup := new Line[LINES](_ => Line(0, 0));
      this.mem := mem;
      this.device := device;
      readCount, writeCount, faults, flashWrites := 0, 0, 0, 0;
    }

    method Invalidate()
      requires lookup.Length == LINES && MapOk(region, |mem|)
      modifies this`generation, lookup
      ensures Valid() && generation == old(generation) + 1
    {
      generation := generation + 1;
      forall k | 0 <= k < LINES {
        lookup[k] := Line(0, 0);
      }
    }

    method EnableLookup(enabled: bool)
      requires Valid()
      modifies this`generation, this`lookupEnabled, lookup
      ensures Valid() && lookupEnabled == enabled && generation == old(generation) + 1
    {
      Invalidate();
      lookupEnabled := enabled;
    }

    /** Register one more region behind the others; false when the table is full. */
    method AddRegion(r: Region) returns (ok: bool)
      requires Valid() && (r.host.Some? ==> r.host.value + r.hostLen <= |mem|) && (IsMemory(r) ==> Installed(r))
      modifies this`generation, this`region, lookup
      ensures Valid() && ok == (|old(region)| < MAX_REGIONS)
      ensures region == (if ok then old(region) + [r] else old(region))
      ensures generation == (if ok then old(generation) + 1 else old(generation))
    {
      if |region| >= MAX_REGIONS {
        return false;
      }
      Invalidate();
      region := region + [r];
      ok := true;
    }

    method AddRam(base: Word, host: nat, len: Word, window: Word) returns (ok: bool)
      requires Valid() && 0 < len && host + len <= |mem|
      modifies this`generation, this`region, lookup
      ensures Valid() && ok == (|old(region)| < MAX_REGIONS)
      ensures ok ==> region == old(region) + [Region(Ram, base, if window < len then len else window, Some(host), len)]
      ensures !ok ==> region == old(region) && generation == old(generation)
    {
      ok := AddRegion(Region(Ram, base, if window < len then len else window, Some(host), len));
    }

    method AddRom(base: Word, size: Word, host: nat, len: Word) returns (ok: bool)
      requires Valid() && 0 < len && host + len <= |mem|
      modifies this`generation, this`region, lookup
      ensures Valid() && ok == (|old(region)| < MAX_REGIONS)
      ensures ok ==> region == old(region) + [Region(Rom, base, size, Some(host), len)]
      ensures !ok ==> region == old(region) && generation == old(generation)
    {
      ok := AddRegion(Region(Rom, base, size, Some(host), len));
    }

    /** A map owner's edit of a region, with the invalidation it owes. */
    method Edit(i: nat, r: Region)
      requires Valid() && i < |region| && (r.host.Some? ==> r.host.value + r.hostLen <= |mem|)
      requires IsMemory(r) ==> Installed(r)
      modifies this`generation, this`region, lookup
      ensures Valid() && region == old(region)[i := r] && generation == old(generation) + 1
    {
      region := region[i := r];
      Invalidate();
    }

    /** The region that answers: from the cache, or by the scan, which fills the cache
        with pages no earlier region touches. Always the first match. */
    method Find(pa: Word, size: nat) returns (r: Option<nat>)
      requires Valid()
      modifies this`lastHit, lookup
      ensures Valid() && r == First(region, pa, size)
    {
      var page := pa / 4096;
      var line := LineOf(page);
      if lookupEnabled && PageAccess(pa, size) && lookup[line].regionPlusOne > 0 && lookup[line].page == page {
        LineAnswers(region, lookup[line], pa, size);
        lastHit := lookup[line].regionPlusOne - 1;
        return Some(lastHit);
      }
      for i := 0 to |region|
        invariant Valid() && forall j :: 0 <= j < i ==> !InRegion(region[j], pa, size)
        invariant unchanged(lookup)
      {
        if InRegion(region[i], pa, size) {
          FirstIs(region, pa, size, i);
          lastHit := i;
          if lookupEnabled && PageAccess(pa, size) && InRegion(region[i], page * 4096, 4096) {
            var uniform := true;
            for j := 0 to i
              invariant uniform ==> forall k :: 0 <= k < j ==> !Touches(region[k], page * 4096)
            {
              if region[j].size > 0 && region[j].base < page * 4096 + 4096
                 && region[j].base + region[j].size > page * 4096 {
                uniform := false;
              }
            }
            if uniform {
              lookup[line] := Line(page, i + 1);
            }
          }
          return Some(i);
        }
      }
      r := None;
    }

    method Read(pa: Word, size: nat) returns (v: Word, ok: bool)
      requires Valid() && IsSize(size) && InHost(region, |mem|, pa, size)
      modifies this`lastHit, this`readCount, this`faults, lookup
      ensures Valid() && (v, ok) == ReadValue(region, mem, device, pa, size)
      ensures readCount == old(readCount) + 1 && faults == old(faults) + (if ok then 0 else 1)
    {
      hide LoadBE, BackingOffset, LineOf;
      var found := Find(pa, size);
      readCount := readCount + 1;
      if found.None? {
        faults := faults + 1;
        return 0, false;
      }
      var r := region[found.value];
      var off := pa - r.base;
      if r.kind.Floating? {
        return if size == 4 then 0xFFFF_FFFF else if size == 2 then 0xFFFF else 0xFF, true;
      }
      if r.kind.Mmio? {
        return device(found.value, off, size), true;
      }
      return LoadBE(mem, r.host.value + BackingOffset(r, off), size), true;
    }

    /** Writes take effect in RAM and flash only; one to ROM is counted as a fault but
        accepted. */
    method Write(pa: Word, size: nat, v: Word) returns (ok: bool)
      requires Valid() && IsSize(size) && InHost(region, |mem|, pa, size)
      modifies this`lastHit, this`writeCount, this`faults, this`flashWrites, this`mem, lookup
      ensures Valid() && ok == First(region, pa, size).Some?
      ensures mem == MemoryAfter(region, old(mem), pa, size, v)
      ensures writeCount == old(writeCount) + 1
      ensures faults == old(faults) + (if !ok || IsRom(region, pa, size) then 1 else 0)
      ensures flashWrites == old(flashWrites) + (if IsFlash(region, pa, size) then 1 else 0)
    {
      var found := Find(pa, size);
      writeCount := writeCount + 1;
      if found.None? {
        faults := faults + 1;
        return false;
      }
      ok := true;
      var r := region[found.value];
      var off := pa - r.base;
      if r.kind.Mmio? || r.kind.Floating? {
        return;
      }
      if r.kind.Rom? {
        faults := faults + 1;
        return;
      }
      if r.kind.Flash? {
        flashWrites := flashWrites + 1;
      }
      mem := StoreBE(mem, r.host.value + BackingOffset(r, off), size, v);
    }

    /** The page-pointer scan, as written. */
    method PagePointer(pa: Word, write: bool) returns (p: Option<nat>)
      requires Valid()
      ensures p == PageHost(region, pa / 4096 * 4096, write)
    {
      var start: Word := pa / 4096 * 4096;
      for i := 0 to |region|
        invariant PageHost(region, start, write) == PageHostFrom(region, start, write, i)
      {
        var r := region[i];
        if r.size > 0 {
          if !InRegion(r, start, 1) {
            if r.base < Wrap(start + 4096) && r.base + r.size > start {
              return None;
            }
          } else {
            if !InRegion(r, start, 4096) || r.host.None? || r.hostLen == 0 {
              return None;
            }
            if if write then !r.kind.Ram? else !(r.kind.Ram? || r.kind.Rom? || r.kind.Flash?) {
              return None;
            }
            var backing := BackingOffset(r, start - r.base);
            if backing + 4096 > r.hostLen {
              return None;
            }
            return Some(r.host.value + backing);
          }
        }
      }
      p := None;
    }

    /** The readable span from `pa`, as written. */
    method SpanFrom(pa: Word) returns (span: Option<(nat, nat)>)
      requires Valid()
      modifies this`lastHit, lookup
      ensures Valid() && span == ReadSpan(region, pa)
    {
      var found := Find(pa, 1);
      if found.None? {
        return None;
      }
      var i := found.value;
      var r := region[i];
      if r.host.None? || r.hostLen == 0 || !IsMemory(r) {
        return None;
      }
      var off := pa - r.base;
      var backing := BackingOffset(r, off);
      BackingIsMirror(r, off);
      hide BackingOffset, LineOk, MapOk, Answers;
      var end: int := pa + r.size - off;
      if end > pa + r.hostLen - backing {
        end := pa + r.hostLen - backing;
      }
      if end > TWO32 {
        end := TWO32;
      }
      ghost var all := ClipFrom(region, pa, end, 0, i);
      for j := 0 to i
        invariant all == ClipFrom(region, pa, end, j, i) && end > pa
      {
        if region[j].size > 0 && region[j].base > pa && region[j].base < end {
          end := region[j].base;
        }
      }
      span := Some((r.host.value + backing, end - pa));
    }
  }

  // ------------------------------------------------------------ the 68k core's tables

  predicate TablesFor(rd: seq<Option<nat>>, wr: seq<Option<nat>>, rs: Map) {
    |rd| == 0x10_0000 && |wr| == 0x10_0000
    && forall page :: 0 <= page < 0x10_0000 ==>
         rd[page] == PageHost(rs, page * 0x1000, false) && wr[page] == PageHost(rs, page * 0x1000, true)
  }

  /** Everything a read of the 68k core gives: a value, with ones for what nothing decodes. */
  function CoreRead(rs: Map, mem: seq<Byte>, device: Device, pa: Word, size: nat): Word
    requires IsSize(size) && InHost(rs, |mem|, pa, size)
  {
    var (v, ok) := ReadValue(rs, mem, device, pa, size);
    if ok then v else if size == 4 then 0xFFFF_FFFF else if size == 1 then 0xFF else 0xFFFF
  }

  /** An access through a page pointer is the access the bus would make. */
  lemma DirectAccess(rs: Map, memLen: nat, pa: Word, size: nat, write: bool)
    requires IsSize(size) && NothingHidden(rs) && Backed(rs, memLen)
    requires PageHost(rs, pa / 4096 * 4096, write).Some? && pa % 4096 + size <= 4096
    ensures Answers(rs, pa, size) == Data(PageHost(rs, pa / 4096 * 4096, write).value + pa % 4096)
    ensures PageHost(rs, pa / 4096 * 4096, write).value + pa % 4096 + size <= memLen
    ensures write ==> Writable(rs, pa, size) && !IsFlash(rs, pa, size)
    ensures !write ==> First(rs, pa, size).Some?
  {
    var start: Word := pa / 4096 * 4096;
    if HiddenOverlay(rs, start, write) {
      assert false;
    }
    PageHostAccess(rs, start, write, pa, size);
    PageHostInBounds(rs, start, write, memLen);
  }

  class DirectBus {
    const bus: MemoryBus
    const rd: array<Option<nat>>
    const wr: array<Option<nat>>
    /** The map generation the tables were built at, or none yet. */
    var generation: Option<nat>
    var enabled: bool

    ghost predicate Valid()
      reads this, rd, wr, bus, bus.lookup
    {
      && bus.Valid() && rd.Length == 0x10_0000 && wr.Length == 0x10_0000 && rd != wr
      && bus.lookup as object != rd && bus.lookup as object != wr
      && (generation == Some(bus.generation) ==> TablesFor(rd[..], wr[..], bus.region))
    }

    constructor (bus: MemoryBus, enabled: bool)
      requires bus.Valid()
      ensures Valid() && this.bus == bus && this.enabled == enabled && fresh(rd) && fresh(wr)
    {
      this.bus := bus;
      this.enabled := enabled;
      rd := new Option<nat>[0x10_0000](_ => None);
      wr := new Option<nat>[0x10_0000](_ => None);
      generation := None;
    }

    method Prepare()
      requires Valid()
      modifies this`generation, rd, wr
      ensures Valid() && generation == Some(bus.generation)
    {
      hide PageHost, MapOk, LineOk;
      if generation == Some(bus.generation) {
        return;
      }
      for page := 0 to 0x10_0000
        invariant bus.Valid() && forall k :: 0 <= k < page ==>
                    rd[k] == PageHost(bus.region, k * 0x1000, false) && wr[k] == PageHost(bus.region, k * 0x1000, true)
      {
        var r := bus.PagePointer(page * 0x1000, false);
        var w := bus.PagePointer(page * 0x1000, true);
        rd[page] := r;
        wr[page] := w;
      }
      generation := Some(bus.generation);
    }

    /** A read gives what the bus gives, and counts as one bus read, whichever way it goes. */
    method Read(addr: Word, size: nat) returns (v: Word)
      requires Valid() && IsSize(size) && InHost(bus.region, |bus.mem|, addr, size) && NothingHidden(bus.region)
      modifies this`generation, rd, wr, bus`lastHit, bus`readCount, bus`faults, bus.lookup
      ensures Valid() && v == CoreRead(bus.region, bus.mem, bus.device, addr, size)
      ensures bus.readCount == old(bus.readCount) + 1
      ensures bus.faults == old(bus.faults) + (if First(bus.region, addr, size).None? then 1 else 0)
    {
      hide PageHost, HiddenOverlay, LineOk, LoadBE, NothingHidden;
      if enabled {
        Prepare();
        var p := rd[addr / 4096];
        var off := addr % 4096;
        if p.Some? && off + size <= 4096 {
          DirectAccess(bus.region, |bus.mem|, addr, size, false);
          bus.readCount := bus.readCount + 1;
          return LoadBE(bus.mem, p.value + off, size);
        }
      }
      var ok;
      v, ok := bus.Read(addr, size);
      if !ok {
        v := if size == 4 then 0xFFFF_FFFF else if size == 1 then 0xFF else 0xFFFF;
      }
    }

    /** A write leaves memory and every counter as the bus would. */
    method Write(addr: Word, size: nat, v: Word)
      requires Valid() && IsSize(size) && InHost(bus.region, |bus.mem|, addr, size) && NothingHidden(bus.region)
      modifies this`generation, rd, wr, bus`lastHit, bus`writeCount, bus`faults, bus`flashWrites, bus`mem, bus.lookup
      ensures Valid() && bus.mem == MemoryAfter(bus.region, old(bus.mem), addr, size, v)
      ensures bus.writeCount == old(bus.writeCount) + 1
      ensures bus.faults == old(bus.faults)
              + (if First(bus.region, addr, size).None? || IsRom(bus.region, addr, size) then 1 else 0)
      ensures bus.flashWrites == old(bus.flashWrites) + (if IsFlash(bus.region, addr, size) then 1 else 0)
    {
      hide PageHost, HiddenOverlay, LineOk, StoreBE, NothingHidden;
      if enabled {
        Prepare();
        var p := wr[addr / 4096];
        var off := addr % 4096;
        if p.Some? && off + size <= 4096 {
          DirectAccess(bus.region, |bus.mem|, addr, size, true);
          bus.writeCount := bus.writeCount + 1;
          bus.mem := StoreBE(bus.mem, p.value + off, size, v);
          return;
        }
      }
      var ok := bus.Write(addr, size, v);
    }
  }
}
