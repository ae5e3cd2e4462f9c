/** The physical address rs: an ordered list of regions in which the first one that
    covers a whole access answers it, with the installed memory mirrored through the
    window its chip select decodes. These are the pure parts of the bus; `Bus` holds
    the mutable one with its caches. */
module BusMap {
  import opened Words
  import opened Wrappers

  datatype Kind = Ram | Rom | Flash | Mmio | Floating

  /** `host` is where the backing store starts in the host's memory, if there is one. */
  datatype Region = Region(kind: Kind, base: Word, size: Word, host: Option<nat>, hostLen: Word)

  type Map = seq<Region>

  const PAGE: int := 4096
  const LAST_PAGE: int := 0xFFFF_F000

  predicate InRegion(r: Region, pa: Word, size: nat) {
    r.size >= size && pa >= r.base && pa - r.base <= r.size - size
  }

  predicate IsMemory(r: Region) {
    r.kind.Ram? || r.kind.Rom? || r.kind.Flash?
  }

  predicate Installed(r: Region) {
    r.host.Some? && r.hostLen > 0
  }

  /** Every backing store lies inside the host's memory. */
  predicate Backed(rs: Map, memLen: nat) {
    forall i :: 0 <= i < |rs| && rs[i].host.Some? ==> rs[i].host.value + rs[i].hostLen <= memLen
  }

  /** The lowest-numbered region, from `i` on, that covers the whole access. */
  function FirstFrom(rs: Map, pa: Word, size: nat, i: nat): (r: Option<nat>)
    requires i <= |rs|
    ensures r.Some? ==> i <= r.value < |rs| && InRegion(rs[r.value], pa, size)
    ensures forall j :: i <= j < (if r.Some? then r.value else |rs|) ==> !InRegion(rs[j], pa, size)
    decreases |rs| - i
  {
    if i == |rs| then None
    else if InRegion(rs[i], pa, size) then Some(i)
    else FirstFrom(rs, pa, size, i + 1)
  }

  function First(rs: Map, pa: Word, size: nat): Option<nat> {
    FirstFrom(rs, pa, size, 0)
  }

  lemma FirstIs(rs: Map, pa: Word, size: nat, i: nat)
    requires i < |rs| && InRegion(rs[i], pa, size)
    requires forall j :: 0 <= j < i ==> !InRegion(rs[j], pa, size)
    ensures First(rs, pa, size) == Some(i)
  {
    var r := First(rs, pa, size);
    assert r.Some? ==> InRegion(rs[r.value], pa, size);
  }

  /** Offset into the backing store, as computed: identity inside the installed part,
      a mask for power-of-two chips, a division otherwise. */
  function BackingOffset(r: Region, off: Word): Word
    requires r.hostLen > 0
  {
    if off < r.hostLen then off
    else if And(r.hostLen, r.hostLen - 1) == 0 then And(off, r.hostLen - 1)
    else off % r.hostLen
  }

  /** All three branches compute the mirrored offset. */
  lemma BackingIsMirror(r: Region, off: Word)
    requires r.hostLen > 0
    ensures BackingOffset(r, off) == off % r.hostLen
  {
    if off < r.hostLen {
      ModUnique(off, r.hostLen, 0, off);
    } else if And(r.hostLen, r.hostLen - 1) == 0 {
      MaskIsRemainder(off, r.hostLen);
    }
  }

  lemma MirrorAdvances(r: Region, off: Word, d: nat)
    requires r.hostLen > 0 && off + d < TWO32
    requires BackingOffset(r, off) + d < r.hostLen
    ensures BackingOffset(r, off + d) == BackingOffset(r, off) + d
  {
    BackingIsMirror(r, off);
    BackingIsMirror(r, off + d);
    hide BackingOffset;
    var q, m := off / r.hostLen, off % r.hostLen;
    ModUnique(off + d, r.hostLen, q, m + d);
  }

  /** Where in host memory an access to region `r` lands. */
  function HostAddress(r: Region, pa: Word): nat
    requires Installed(r) && r.base <= pa
  {
    r.host.value + BackingOffset(r, pa - r.base)
  }

  /** Host address of byte `d` of an access, where the chip mirrors it. */
  function MirrorAddress(r: Region, pa: Word, d: nat): nat
    requires Installed(r) && r.base <= pa
  {
    r.host.value + (pa - r.base + d) % r.hostLen
  }

  /** The access stays clear of the seam between one copy of the chip and the next. */
  predicate ClearOfSeam(r: Region, pa: Word, size: nat)
    requires Installed(r) && r.base <= pa
  {
    BackingOffset(r, pa - r.base) + size <= r.hostLen
  }

  /** The bytes the code takes are the mirrored ones, every one of them, exactly clear of
      the seam. */
  lemma SeamExact(r: Region, pa: Word, size: nat)
    requires Installed(r) && InRegion(r, pa, size) && size > 0
    ensures (forall d :: 0 <= d < size ==> MirrorAddress(r, pa, d) == HostAddress(r, pa) + d)
            <==> ClearOfSeam(r, pa, size)
  {
    var off := pa - r.base;
    BackingIsMirror(r, off);
    var q, m := off / r.hostLen, off % r.hostLen;
    hide BackingOffset;
    if ClearOfSeam(r, pa, size) {
      forall d | 0 <= d < size
        ensures MirrorAddress(r, pa, d) == HostAddress(r, pa) + d
      {
        ModUnique(off + d, r.hostLen, q, m + d);
      }
    } else {
      assert MirrorAddress(r, pa, size - 1) < r.host.value + r.hostLen <= HostAddress(r, pa) + (size - 1);
    }
  }

  /** The 4528151-byte ROM image: the aligned word at its last whole offset takes a byte
      from behind the image, where the board mirrors the first. */
  lemma SeamExample(r: Region, pa: Word)
    requires r == Region(Flash, 0x3C0_0000, 0x80_0000, Some(0), 4528151) && pa == 0x3C0_0000 + 4528148
    ensures pa % 4 == 0 && InRegion(r, pa, 4) && !ClearOfSeam(r, pa, 4)
    ensures HostAddress(r, pa) + 3 == r.hostLen && MirrorAddress(r, pa, 3) == 0
  {
    assert BackingOffset(r, pa - r.base) == 4528148;
  }

  datatype Answer = Fault | Floats(value: Word) | Device(region: nat, offset: Word) | Data(at: nat) | Seam(at: nat)

  /** What answers a read: nothing, an undriven bus, a device, or bytes of host memory,
      those of the chip or, across its seam, some from behind it. */
  function Answers(rs: Map, pa: Word, size: nat): Answer
    requires size == 1 || size == 2 || size == 4
  {
    match First(rs, pa, size)
    case None => Fault
    case Some(i) =>
      var r := rs[i];
      if r.kind.Floating? then
        Floats(if size == 4 then 0xFFFF_FFFF else if size == 2 then 0xFFFF else 0xFF)
      else if r.kind.Mmio? || !Installed(r) then Device(i, pa - r.base)
      else if ClearOfSeam(r, pa, size) then Data(HostAddress(r, pa))
      else Seam(HostAddress(r, pa))
  }

  // ------------------------------------------------------------ uniform pages

  /** Region `r` touches a byte of the page at `start`, in unbounded arithmetic. */
  predicate Touches(r: Region, start: nat) {
    r.size > 0 && r.base < start + PAGE && r.base + r.size > start
  }

  /** Region `i` covers the whole page and no earlier region touches it. */
  predicate Uniform(rs: Map, start: Word, i: nat) {
    && i < |rs|
    && InRegion(rs[i], start, PAGE)
    && forall j :: 0 <= j < i ==> !Touches(rs[j], start)
  }

  predicate InPage(start: int, pa: int, size: int) {
    start <= pa && pa + size <= start + PAGE
  }

  lemma UniformPageAnswers(rs: Map, start: Word, i: nat, pa: Word, size: nat)
    requires Uniform(rs, start, i) && size > 0 && InPage(start, pa, size)
    ensures First(rs, pa, size) == Some(i)
  {
    forall j | 0 <= j < i
      ensures !InRegion(rs[j], pa, size)
    {
      assert !Touches(rs[j], start);
    }
    FirstIs(rs, pa, size, i);
  }

  /** Region `i` may serve the page through a host pointer. */
  predicate Pointable(r: Region, start: Word, write: bool) {
    && InRegion(r, start, PAGE)
    && Installed(r)
    && (if write then r.kind.Ram? else IsMemory(r))
    && BackingOffset(r, start - r.base) + PAGE <= r.hostLen
  }

  /** The page scan as written: `start + 4096` wraps at the end of the address space. */
  function PageHostFrom(rs: Map, start: Word, write: bool, i: nat): Option<nat>
    requires i <= |rs|
    decreases |rs| - i
  {
    if i == |rs| then None
    else if rs[i].size == 0 then PageHostFrom(rs, start, write, i + 1)
    else if !InRegion(rs[i], start, 1) then
      if rs[i].base < Wrap(start + PAGE) && rs[i].base + rs[i].size > start then None
      else PageHostFrom(rs, start, write, i + 1)
    else if Pointable(rs[i], start, write) then Some(HostAddress(rs[i], start))
    else None
  }

  function PageHost(rs: Map, start: Word, write: bool): Option<nat> {
    PageHostFrom(rs, start, write, 0)
  }

  /** The rule the scan is meant to apply: some region covers the page alone. */
  predicate Serves(rs: Map, start: Word, write: bool, p: nat) {
    exists i :: 0 <= i < |rs| && Uniform(rs, start, i) && Pointable(rs[i], start, write)
                && p == HostAddress(rs[i], start)
  }

  /** The one case the wrapped comparison misses: in the last page of the address space
      an earlier region begins after the page does, and the region that holds the page's
      first byte would otherwise qualify. */
  predicate HiddenOverlay(rs: Map, start: Word, write: bool) {
    && start == LAST_PAGE
    && First(rs, start, 1).Some?
    && var i := First(rs, start, 1).value;
       && Pointable(rs[i], start, write)
       && exists j :: 0 <= j < i && rs[j].size > 0 && rs[j].base > start
  }

  /** No overlay hides in the last page of the map. */
  predicate NothingHidden(rs: Map) {
    !HiddenOverlay(rs, LAST_PAGE, false) && !HiddenOverlay(rs, LAST_PAGE, true)
  }

  /** Regions before the first one that holds the page's first byte touch the page
      exactly when they begin inside it. */
  lemma EarlierTouch(rs: Map, start: Word, j: nat)
    requires start % PAGE == 0 && j < |rs| && !InRegion(rs[j], start, 1)
    ensures Touches(rs[j], start) <==> rs[j].size > 0 && start < rs[j].base < start + PAGE
  {
  }

  /** The scan stops at the region holding the first byte, unless an earlier overlay
      stops it first. */
  lemma {:induction false} ScanResult(rs: Map, start: Word, write: bool, i: nat)
    requires start % PAGE == 0 && i <= |rs|
    ensures
      var f := FirstFrom(rs, start, 1, i);
      PageHostFrom(rs, start, write, i) ==
      if f.Some? && Pointable(rs[f.value], start, write)
         && (forall j :: i <= j < f.value ==> start == LAST_PAGE || !Touches(rs[j], start))
      then Some(HostAddress(rs[f.value], start)) else None
    decreases |rs| - i
  {
    if i < |rs| && !InRegion(rs[i], start, 1) {
      ScanResult(rs, start, write, i + 1);
      EarlierTouch(rs, start, i);
      var f := FirstFrom(rs, start, 1, i + 1);
      assert FirstFrom(rs, start, 1, i) == f;
      if f.Some? {
        assert (forall j :: i <= j < f.value ==> start == LAST_PAGE || !Touches(rs[j], start))
          <==> (start == LAST_PAGE || !Touches(rs[i], start))
               && (forall j :: i + 1 <= j < f.value ==> start == LAST_PAGE || !Touches(rs[j], start));
      }
    }
  }

  /** A region that serves a page alone is the first to hold the page's first byte. */
  lemma ServesIsFirst(rs: Map, start: Word, write: bool, p: nat)
    requires Serves(rs, start, write, p)
    ensures
      var f := First(rs, start, 1);
      f.Some? && Uniform(rs, start, f.value) && Pointable(rs[f.value], start, write)
      && p == HostAddress(rs[f.value], start)
  {
    var i :| 0 <= i < |rs| && Uniform(rs, start, i) && Pointable(rs[i], start, write)
             && p == HostAddress(rs[i], start);
    UniformPageAnswers(rs, start, i, start, 1);
  }

  lemma EarlierDoNotTouch(rs: Map, start: Word, f: nat)
    requires start % PAGE == 0 && First(rs, start, 1) == Some(f)
    requires InRegion(rs[f], start, PAGE)
    ensures Uniform(rs, start, f)
            <==> forall j :: 0 <= j < f && rs[j].size > 0 ==> !(start < rs[j].base < start + PAGE)
  {
    forall j | 0 <= j < f
      ensures Touches(rs[j], start) <==> rs[j].size > 0 && start < rs[j].base < start + PAGE
    {
      EarlierTouch(rs, start, j);
    }
  }

  /** Exactness of the page scan: it returns the pointers the uniformity rule allows,
      for every page and rs, if and only if no overlay hides in the last page. */
  lemma PageHostExact(rs: Map, start: Word, write: bool)
    requires start % PAGE == 0
    ensures (forall p: nat :: PageHost(rs, start, write) == Some(p) <==> Serves(rs, start, write, p))
            <==> !HiddenOverlay(rs, start, write)
  {
    ScanResult(rs, start, write, 0);
    var f := First(rs, start, 1);
    forall p: nat | Serves(rs, start, write, p)
      ensures PageHost(rs, start, write) == Some(p)
    {
      ServesIsFirst(rs, start, write, p);
    }
    if f.Some? && Pointable(rs[f.value], start, write) {
      EarlierDoNotTouch(rs, start, f.value);
      var p := HostAddress(rs[f.value], start);
      if HiddenOverlay(rs, start, write) {
        assert PageHost(rs, start, write) == Some(p);
        if Serves(rs, start, write, p) {
          ServesIsFirst(rs, start, write, p);
          assert false;
        }
      } else if PageHost(rs, start, write) == Some(p) {
        forall j | 0 <= j < f.value && rs[j].size > 0
          ensures !(start < rs[j].base < start + PAGE)
        {
          EarlierTouch(rs, start, j);
        }
        assert Uniform(rs, start, f.value);
        assert Serves(rs, start, write, p);
      }
    }
  }

  /** A one-byte overlay at the very end of the address space is missed. */
  lemma HiddenOverlayExample()
    ensures
      var overlay := Region(Mmio, 0xFFFF_FFFF, 1, None, 0);
      var ram := Region(Ram, 0xFFFF_F000, 0x1000, Some(0), 0x1000);
      && PageHost([overlay, ram], LAST_PAGE, false) == Some(0)
      && First([overlay, ram], 0xFFFF_FFFF, 1) == Some(0)
  {
    var overlay := Region(Mmio, 0xFFFF_FFFF, 1, None, 0);
    var ram := Region(Ram, 0xFFFF_F000, 0x1000, Some(0), 0x1000);
    var rs := [overlay, ram];
    assert PageHostFrom(rs, LAST_PAGE, false, 0) == PageHostFrom(rs, LAST_PAGE, false, 1);
    assert Pointable(ram, LAST_PAGE, false);
    assert InRegion(rs[0], 0xFFFF_FFFF, 1);
  }

  /** Every access inside a pointed-to page is answered by those very bytes. */
  lemma PageHostAccess(rs: Map, start: Word, write: bool, pa: Word, size: nat)
    requires start % PAGE == 0 && !HiddenOverlay(rs, start, write)
    requires PageHost(rs, start, write).Some?
    requires (size == 1 || size == 2 || size == 4) && InPage(start, pa, size)
    ensures
      var i := First(rs, pa, size);
      && i.Some? && IsMemory(rs[i.value]) && Installed(rs[i.value])
      && (write ==> rs[i.value].kind.Ram?)
    ensures Answers(rs, pa, size) == Data(PageHost(rs, start, write).value + (pa - start))
  {
    PageHostExact(rs, start, write);
    ServesIsFirst(rs, start, write, PageHost(rs, start, write).value);
    var i := First(rs, start, 1).value;
    UniformPageAnswers(rs, start, i, pa, size);
    MirrorAdvances(rs[i], start - rs[i].base, pa - start);
  }

  lemma PageHostInBounds(rs: Map, start: Word, write: bool, memLen: nat)
    requires start % PAGE == 0 && Backed(rs, memLen) && PageHost(rs, start, write).Some?
    ensures PageHost(rs, start, write).value + PAGE <= memLen
  {
    ScanResult(rs, start, write, 0);
  }

  // ------------------------------------------------------------ readable spans

  function Min(a: int, b: int): int {
    if a <= b then a else b
  }

  /** The overlay clip of the span scan: regions before the one that serves `pa`. */
  function ClipFrom(rs: Map, pa: Word, end: int, i: nat, k: nat): (e: int)
    requires i <= k <= |rs|
    ensures e <= end && (end > pa ==> e > pa)
    ensures forall j :: i <= j < k && rs[j].size > 0 && rs[j].base > pa ==> rs[j].base >= e
    decreases k - i
  {
    if i == k then end
    else
      var e := if rs[i].size > 0 && rs[i].base > pa && rs[i].base < end then rs[i].base else end;
      ClipFrom(rs, pa, e, i + 1, k)
  }

  /** Host address and length of the contiguous readable bytes from `pa`. */
  function ReadSpan(rs: Map, pa: Word): Option<(nat, nat)> {
    match First(rs, pa, 1)
    case None => None
    case Some(i) =>
      var r := rs[i];
      if !Installed(r) || !IsMemory(r) then None
      else
        var off := pa - r.base;
        var backing := BackingOffset(r, off);
        BackingIsMirror(r, off);
        var end := Min(Min(pa + r.size - off, pa + r.hostLen - backing), TWO32);
        Some((r.host.value + backing, ClipFrom(rs, pa, end, 0, i) - pa))
  }

  /** A span holds at least one byte and lies in the backing store. */
  lemma ReadSpanInBounds(rs: Map, pa: Word, memLen: nat)
    requires Backed(rs, memLen) && ReadSpan(rs, pa).Some?
    ensures ReadSpan(rs, pa).value.1 > 0
    ensures ReadSpan(rs, pa).value.0 + ReadSpan(rs, pa).value.1 <= memLen
    ensures pa + ReadSpan(rs, pa).value.1 <= TWO32
  {
    var i := First(rs, pa, 1).value;
    BackingIsMirror(rs[i], pa - rs[i].base);
  }

  /** Every access inside a span is answered by the span's bytes: no earlier region
      covers it, and the mirror does not wrap inside it. */
  lemma ReadSpanAccess(rs: Map, pa: Word, a: Word, size: nat)
    requires ReadSpan(rs, pa).Some?
    requires size == 1 || size == 2 || size == 4
    requires pa <= a && a + size <= pa + ReadSpan(rs, pa).value.1
    ensures Answers(rs, a, size) == Data(ReadSpan(rs, pa).value.0 + (a - pa))
  {
    var i := First(rs, pa, 1).value;
    var r := rs[i];
    var off := pa - r.base;
    BackingIsMirror(r, off);
    forall j | 0 <= j < i
      ensures !InRegion(rs[j], a, size)
    {
      assert !InRegion(rs[j], pa, 1);
    }
    FirstIs(rs, a, size, i);
    MirrorAdvances(r, off, a - pa);
  }
}
