/** The block cache: page tables, the four-way slot table, the code arena with its link
    sites, and the operations that keep them in step with the bus map. A code address is
    an index into the arena. */
module BlockCache {
  import opened Words
  import opened Wrappers
  import opened BusMap
  import opened Mips
  import opened MipsIr
  import opened NativeBlock
  import opened HostCode
  import opened A64Code
  import A64Emitter
  import opened Sampling
  import opened A64Memory
  import opened A64Theorem
  import opened StraightLine

  const SETS: nat := 16384
  const WAYS: nat := 4
  const PAGES: nat := 0x10_0000
  const ARENA_SIZE: nat := 0x200_0000

  datatype Slot = Slot(va: Word, n: nat, code: Option<nat>)

  const EMPTY: Slot := Slot(0, 0, None)

  /** Where a link site's branch goes: its own stub, or the chain entry of a block. */
  datatype Target = Stub | Chain(to: nat)

  datatype Site = LinkSite(at: nat, n: nat) | StaleSite(at: nat)

  datatype Compiled = Compiled(b: Block, code: seq<Insn>, links: seq<Target>, stale: Target)

  function Aligned(used: nat): nat {
    (used + 15) / 16 * 16
  }

  function Window(start: nat): nat {
    if start + 0x1_0000 < ARENA_SIZE then start + 0x1_0000 else ARENA_SIZE
  }

  function SetOf(va: Word): nat {
    Xor(va / 4, va / 0x1_0000) % SETS
  }

  // ------------------------------------------------------------ invariants

  /** A block in the arena: its code is what was emitted for it, its words are where the
      map puts them, and every patched site goes to the one successor it was emitted for. */
  predicate CompiledOk(arena: seq<Compiled>, i: nat, rs: Map, hasMmu: bool, memLen: nat)
    requires i < |arena|
  {
    var e := arena[i];
    && Valid(e.b) && Located(e.b, rs, hasMmu, memLen)
    && e.code == Flatten(BlockCode(e.b))
    && |e.links| == 2
    && (forall n :: 0 <= n < 2 && e.links[n].Chain? ==>
          e.links[n].to < |arena| && arena[e.links[n].to].b.va == LinkAddress(e.b, n))
    && (e.stale.Chain? ==> i < e.stale.to < |arena| && arena[e.stale.to].b.va == e.b.va)
  }

  predicate ArenaOk(arena: seq<Compiled>, rs: Map, hasMmu: bool, memLen: nat) {
    forall i :: 0 <= i < |arena| ==> CompiledOk(arena, i, rs, hasMmu, memLen)
  }

  /** A lookup of `va` that reaches way `k` would take it. */
  predicate Hit(slots: seq<Slot>, k: nat, va: Word)
    requires k < |slots|
  {
    k / WAYS == SetOf(va) && slots[k].va == va && slots[k].code.Some?
  }

  /** An occupied way either names its block's own address, in that address's set, and
      holds that block's newest code, or it names 0 for a block of another address. */
  predicate SlotOk(slots: seq<Slot>, k: nat, arena: seq<Compiled>)
    requires k < |slots|
  {
    var s := slots[k];
    s.code.Some? ==>
      && s.code.value < |arena| && s.n == |arena[s.code.value].b.words|
      && ((s.va == arena[s.code.value].b.va && k / WAYS == SetOf(s.va) && arena[s.code.value].stale.Stub?)
          || (s.va == 0 && arena[s.code.value].b.va != 0))
  }

  predicate SlotsOk(slots: seq<Slot>, arena: seq<Compiled>) {
    && (forall k :: 0 <= k < |slots| ==> SlotOk(slots, k, arena))
    && (forall j, k, va: Word ::
          0 <= j < |slots| && 0 <= k < |slots| && Hit(slots, j, va) && Hit(slots, k, va) ==> j == k)
  }

  /** A lookup of address 0 takes way `k`, which holds the block of another address. */
  predicate Misnamed(slots: seq<Slot>, k: nat, arena: seq<Compiled>)
    requires k < |slots|
  {
    Hit(slots, k, 0) && slots[k].code.value < |arena| && arena[slots[k].code.value].b.va != 0
  }

  /** A lookup of `va` goes to the wrong block. */
  predicate Astray(slots: seq<Slot>, arena: seq<Compiled>, va: Word) {
    va == 0 && exists k :: 0 <= k < |slots| && Misnamed(slots, k, arena)
  }

  /** Every way a lookup of `va` can take holds code whose words are still in memory. */
  predicate FreshAt(slots: seq<Slot>, arena: seq<Compiled>, va: Word, mem: seq<Byte>) {
    forall k :: 0 <= k < |slots| && Hit(slots, k, va) && slots[k].code.value < |arena| ==>
      var b := arena[slots[k].code.value].b;
      b.guest + 4 * |b.words| <= |mem| && GuardHolds(b, 0, mem)
  }

  /** The successor a site was emitted for. */
  predicate SiteGoesTo(arena: seq<Compiled>, site: Site, va: Word) {
    site.at < |arena| && Valid(arena[site.at].b)
    && (site.LinkSite? ==> site.n < 2 && LinkAddress(arena[site.at].b, site.n) == va)
    && (site.StaleSite? ==> arena[site.at].b.va == va)
  }

  function PatchSite(arena: seq<Compiled>, site: Site, to: nat): seq<Compiled>
    requires site.at < |arena| && (site.LinkSite? ==> site.n < |arena[site.at].links|)
  {
    var e := arena[site.at];
    arena[site.at := if site.LinkSite? then e.(links := e.links[site.n := Chain(to)]) else e.(stale := Chain(to))]
  }

  lemma AppendKeeps(arena: seq<Compiled>, e: Compiled, slots: seq<Slot>, rs: Map, hasMmu: bool, memLen: nat)
    requires ArenaOk(arena, rs, hasMmu, memLen)
    requires Valid(e.b) && Located(e.b, rs, hasMmu, memLen) && e.code == Flatten(BlockCode(e.b))
    requires e.links == [Stub, Stub] && e.stale == Stub
    ensures ArenaOk(arena + [e], rs, hasMmu, memLen)
    ensures SlotsOk(slots, arena) ==> SlotsOk(slots, arena + [e])
  {
    hide Valid, Located, Flatten, BlockCode, LinkAddress, SetOf;
    forall i | 0 <= i < |arena| + 1
      ensures CompiledOk(arena + [e], i, rs, hasMmu, memLen)
    {
      if i < |arena| {
        assert CompiledOk(arena, i, rs, hasMmu, memLen);
      }
    }
    if SlotsOk(slots, arena) {
      forall k | 0 <= k < |slots|
        ensures SlotOk(slots, k, arena + [e])
      {
        assert SlotOk(slots, k, arena);
      }
    }
  }

  /** Redirecting a site to a block for its successor keeps every site right. A stale site
      may only move to newer code, and only once no way holds its own block. */
  lemma PatchKeeps(arena: seq<Compiled>, slots: seq<Slot>, site: Site, to: nat, rs: Map, hasMmu: bool, memLen: nat)
    requires ArenaOk(arena, rs, hasMmu, memLen) && SlotsOk(slots, arena)
    requires to < |arena| && SiteGoesTo(arena, site, arena[to].b.va)
    requires |arena[site.at].links| == 2
    requires site.StaleSite? ==>
      site.at < to && forall k :: 0 <= k < |slots| && Hit(slots, k, arena[to].b.va) ==> slots[k].code != Some(site.at)
    ensures ArenaOk(PatchSite(arena, site, to), rs, hasMmu, memLen) && SlotsOk(slots, PatchSite(arena, site, to))
    ensures forall i :: 0 <= i < |arena| ==> PatchSite(arena, site, to)[i].b == arena[i].b
  {
    hide Valid, Located, Flatten, BlockCode, LinkAddress, SetOf;
    var arena1 := PatchSite(arena, site, to);
    forall i | 0 <= i < |arena1|
      ensures CompiledOk(arena1, i, rs, hasMmu, memLen)
    {
      assert CompiledOk(arena, i, rs, hasMmu, memLen);
    }
    forall k | 0 <= k < |slots|
      ensures SlotOk(slots, k, arena1)
    {
      assert SlotOk(slots, k, arena);
      if site.StaleSite? && slots[k].code == Some(site.at) {
        assert !Hit(slots, k, arena[to].b.va);
      }
    }
  }

  /** Filling way `k` for `va`, when no other way answers for it. */
  lemma FillKeeps(slots: seq<Slot>, k: nat, s: Slot, arena: seq<Compiled>)
    requires SlotsOk(slots, arena) && k < |slots| && s.code.Some? && SlotOk(slots[k := s], k, arena)
    requires forall j :: 0 <= j < |slots| && j != k ==> !Hit(slots, j, s.va)
    ensures SlotsOk(slots[k := s], arena)
  {
    hide SetOf;
    var slots1 := slots[k := s];
    forall j | 0 <= j < |slots1|
      ensures SlotOk(slots1, j, arena)
    {
      assert SlotOk(slots, j, arena);
    }
    forall i, j, va: Word | 0 <= i < |slots1| && 0 <= j < |slots1| && Hit(slots1, i, va) && Hit(slots1, j, va)
      ensures i == j
    {
      assert i != k ==> Hit(slots, i, va);
      assert j != k ==> Hit(slots, j, va);
    }
  }

  lemma ClearKeeps(slots: seq<Slot>, k: nat, va: Word, arena: seq<Compiled>)
    requires SlotsOk(slots, arena) && k < |slots|
    ensures SlotsOk(slots[k := slots[k].(code := None, va := va)], arena)
  {
    hide SetOf;
    var slots1 := slots[k := slots[k].(code := None, va := va)];
    forall j | 0 <= j < |slots1|
      ensures SlotOk(slots1, j, arena)
    {
      assert SlotOk(slots, j, arena);
    }
    forall i, j, a: Word | 0 <= i < |slots1| && 0 <= j < |slots1| && Hit(slots1, i, a) && Hit(slots1, j, a)
      ensures i == j
    {
      assert Hit(slots, i, a) && Hit(slots, j, a);
    }
  }

  // ------------------------------------------------------------ fetch spans

  function FetchAddress(va: Word): Word {
    if UnmappedSegment(va) then va % 0x2000_0000 else va
  }

  /** Host bytes and length from which code at `va` may be compiled. */
  function FetchSpan(rs: Map, va: Word): Option<(nat, nat)> {
    match ReadSpan(rs, FetchAddress(va))
    case None => None
    case Some((at, length)) =>
      var boundary: int :=
        if va < 0x8000_0000 then 0x8000_0000 else if va < 0xA000_0000 then 0xA000_0000 else 0xC000_0000;
      Some((at, if va < 0xC000_0000 && length > boundary - va then boundary - va else length))
  }

  /** Native code may be entered at `va`: kernel mode, and no TLB in the way. */
  predicate MayEnter(sys: Sys, va: Word) {
    va % 4 == 0 && (sys.hasMmu ==> UnmappedSegment(va) && KernelBit(sys.cp0.status))
  }

  /** Every whole word of a fetch span is where the reference fetches it. */
  lemma SpanWord(rs: Map, hasMmu: bool, va: Word, memLen: nat, k: nat)
    requires FetchSpan(rs, va).Some? && Backed(rs, memLen)
    requires hasMmu ==> UnmappedSegment(va)
    requires 4 * (k + 1) <= FetchSpan(rs, va).value.1
    ensures
      var at := FetchSpan(rs, va).value.0;
      var pa := FetchPa(hasMmu, Wrap(va + 4 * k));
      && at + 4 * (k + 1) <= memLen
      && pa.Some? && Answers(rs, pa.value, 4) == Data(at + 4 * k)
  {
    hide ReadSpan, Answers, Backed;
    var pa := FetchAddress(va);
    var span := ReadSpan(rs, pa).value;
    ReadSpanInBounds(rs, pa, memLen);
    ModUnique(va, 0x2000_0000, va / 0x2000_0000, va % 0x2000_0000);
    assert va + FetchSpan(rs, va).value.1 <= TWO32;
    var a: Word := va + 4 * k;
    assert UnmappedSegment(a) <==> UnmappedSegment(va);
    if UnmappedSegment(va) {
      SegmentOffset(va, 4 * k);
    }
    assert FetchPa(hasMmu, a) == Some(pa + 4 * k);
    ReadSpanAccess(rs, pa, pa + 4 * k, 4);
  }

  lemma SegmentOffset(va: Word, d: nat)
    requires va + d < TWO32 && UnmappedSegment(va) && UnmappedSegment(va + d)
    requires va < 0xA000_0000 ==> va + d < 0xA000_0000
    ensures (va + d) % 0x2000_0000 == va % 0x2000_0000 + d
  {
    ModUnique(va + d, 0x2000_0000, va / 0x2000_0000, va % 0x2000_0000 + d);
  }

  // ------------------------------------------------------------ reading a block

  function WordAt(mem: seq<Byte>, at: nat): Word
    requires at + 4 <= |mem|
  {
    LoadBE(mem, at, 4)
  }

  /** Why a block is no longer: it is full, the span ends, its delay slot or an entry that
      must be followed by a check closes it, or a branch stands in its delay slot. */
  predicate Closed(b: Block, length: nat, mem: seq<Byte>)
    requires Valid(b)
  {
    var n := |b.words|;
    n == MAX_INSNS || n == length / 4 || b.delay || NeedsCheck(b)
    || (b.branch == n && b.guest + 4 * n + 4 <= |mem| && IsBranch(Decode(WordAt(mem, b.guest + 4 * n)).op))
  }

  /** A block under construction. */
  predicate Part(b: Block, rs: Map, hasMmu: bool, mem: seq<Byte>) {
    && |b.words| <= MAX_INSNS && |b.ir| == |b.words| && b.va % 4 == 0
    && Located(b, rs, hasMmu, |mem|)
    && (forall k :: 0 <= k < |b.words| ==>
          WordAt(mem, b.guest + 4 * k) == b.words[k] && b.ir[k] == Decode(b.words[k]))
    && (forall k :: 0 <= k < |b.ir| ==> (IsBranch(b.ir[k].op) <==> k + 1 == b.branch))
    && (forall k :: 0 <= k < |b.ir| - 1 ==> !(b.ir[k].op.IExec? && b.ir[k].endsBlock))
    && (if b.branch == 0 then !b.delay
        else if b.delay then |b.words| == b.branch + 1 else |b.words| == b.branch)
  }

  /** Nothing so far closes it. */
  predicate StillOpen(b: Block) {
    !b.delay && (|b.ir| > 0 ==> !NeedsCheck(b))
  }

  function AddWord(b: Block, word: Word, i: Ir): Block {
    b.(words := b.words + [word], ir := b.ir + [i],
       branch := if b.branch == 0 && IsBranch(i.op) then |b.words| + 1 else b.branch,
       delay := b.branch != 0)
  }

  lemma AddWordKeeps(b: Block, rs: Map, hasMmu: bool, mem: seq<Byte>)
    requires Part(b, rs, hasMmu, mem) && StillOpen(b) && |b.words| < MAX_INSNS
    requires b.guest + 4 * (|b.words| + 1) <= |mem|
    requires
      var pa := FetchPa(hasMmu, Pc(b, |b.words|));
      pa.Some? && Answers(rs, pa.value, 4) == Data(b.guest + 4 * |b.words|)
    requires
      var word := WordAt(mem, b.guest + 4 * |b.words|);
      !(b.branch != 0 && IsBranch(Decode(word).op))
    ensures
      var word := WordAt(mem, b.guest + 4 * |b.words|);
      Part(AddWord(b, word, Decode(word)), rs, hasMmu, mem)
  {
    hide Answers, LoadBE, Decode, FetchPa;
    var word := WordAt(mem, b.guest + 4 * |b.words|);
    var b1 := AddWord(b, word, Decode(word));
    forall k | 0 <= k < |b1.words|
      ensures
        var pa := FetchPa(hasMmu, Pc(b1, k));
        pa.Some? && Answers(rs, pa.value, 4) == Data(b1.guest + 4 * k)
    {
      assert Pc(b1, k) == Pc(b, k);
    }
  }

  lemma PartValid(b: Block, rs: Map, hasMmu: bool, mem: seq<Byte>)
    requires Part(b, rs, hasMmu, mem) && |b.words| > 0
    ensures Valid(b) && Located(b, rs, hasMmu, |mem|) && GuardHolds(b, 0, mem)
  {
    hide Answers, LoadBE, Decode, FetchPa;
    forall k | 0 <= k < |b.words|
      ensures LoadBE(mem, b.guest + 4 * k, 4) == b.words[k]
    {
      assert WordAt(mem, b.guest + 4 * k) == b.words[k];
    }
  }

  /** Some instruction can be fetched at `va` without leaving one backing store. */
  predicate Fetchable(c: Cpu, va: Word) {
    FetchSpan(c.sys.rs, va).Some? && FetchSpan(c.sys.rs, va).value.1 >= 4
  }

  /** `b` is the block at `va`: as long as it can be, made of the words that stand there. */
  predicate BlockOf(b: Block, c: Cpu, va: Word) {
    && Valid(b) && b.va == va && Located(b, c.sys.rs, c.sys.hasMmu, |c.mem|) && GuardHolds(b, 0, c.mem)
    && Fetchable(c, va) && |b.words| <= FetchSpan(c.sys.rs, va).value.1 / 4
    && Closed(b, FetchSpan(c.sys.rs, va).value.1, c.mem)
  }

  lemma BlockFacts(b: Block, c: Cpu, va: Word)
    requires BlockOf(b, c, va)
    ensures Valid(b) && b.va == va && Located(b, c.sys.rs, c.sys.hasMmu, |c.mem|)
    ensures b.guest + 4 * |b.words| <= |c.mem| && GuardHolds(b, 0, c.mem)
  {
    hide Valid, Closed, Fetchable, FetchSpan, Answers, LoadBE;
  }

  /** An address has no two blocks. */
  lemma OneBlock(b: Block, d: Block, c: Cpu, va: Word)
    requires BlockOf(b, c, va) && BlockOf(d, c, va)
    ensures b == d
  {
    hide FetchSpan, FetchPa, Decode, LoadBE, Answers;
    NotLonger(b, d, c, va);
    NotLonger(d, b, c, va);
    SameStart(b, d, c, va);
    assert b.words == d.words && b.ir == d.ir;
    SameBranch(b, d);
  }

  /** Two blocks at one address agree as far as both go. */
  lemma SameStart(b: Block, d: Block, c: Cpu, va: Word)
    requires BlockOf(b, c, va) && BlockOf(d, c, va)
    ensures b.guest == d.guest
    ensures forall k :: 0 <= k < |b.words| && k < |d.words| ==> b.words[k] == d.words[k] && b.ir[k] == d.ir[k]
  {
    hide FetchSpan, Decode, LoadBE, Answers, Closed;
    assert Pc(b, 0) == Pc(d, 0) == va;
    forall k | 0 <= k < |b.words| && k < |d.words|
      ensures b.words[k] == d.words[k] && b.ir[k] == d.ir[k]
    {
      assert LoadBE(c.mem, b.guest + 4 * k, 4) == b.words[k];
      assert LoadBE(c.mem, d.guest + 4 * k, 4) == d.words[k];
    }
  }

  lemma SameBranch(b: Block, d: Block)
    requires Valid(b) && Valid(d) && b.words == d.words && b.ir == d.ir
    ensures b.branch == d.branch && b.delay == d.delay
  {
    hide Decode;
    assert b.branch > 0 ==> IsBranch(d.ir[b.branch - 1].op);
    assert d.branch > 0 ==> IsBranch(b.ir[d.branch - 1].op);
  }

  /** What closes a block keeps any other from going on. */
  lemma GoesOn(b: Block, d: Block, length: nat, mem: seq<Byte>)
    requires Valid(b) && Valid(d) && |b.words| < |d.words| <= length / 4
    requires b.guest == d.guest && d.guest + 4 * |d.words| <= |mem|
    requires forall k :: 0 <= k < |b.words| ==> b.ir[k] == d.ir[k]
    requires d.words[|b.words|] == WordAt(mem, d.guest + 4 * |b.words|)
    ensures !Closed(b, length, mem)
  {
    hide LoadBE, Decode;
    var n := |b.words|;
    assert b.branch > 0 ==> IsBranch(d.ir[b.branch - 1].op);
    assert d.ir[n - 1] == b.ir[n - 1] && d.ir[n] == Decode(d.words[n]);
  }

  lemma NotLonger(b: Block, d: Block, c: Cpu, va: Word)
    requires BlockOf(b, c, va) && BlockOf(d, c, va)
    ensures |d.words| <= |b.words|
  {
    hide FetchSpan, FetchPa, Answers, LoadBE, Decode, Valid, Closed;
    SameStart(b, d, c, va);
    if |b.words| < |d.words| {
      assert d.words[|b.words|] == LoadBE(c.mem, d.guest + 4 * |b.words|, 4);
      GoesOn(b, d, FetchSpan(c.sys.rs, va).value.1, c.mem);
    }
  }

  /** The block at `va`, decoded from live memory. */
  method ReadBlock(c: Cpu, va: Word) returns (r: Option<Block>)
    requires Backed(c.sys.rs, |c.mem|) && MayEnter(c.sys, va)
    ensures r.Some? <==> Fetchable(c, va)
    ensures r.Some? ==> BlockOf(r.value, c, va)
  {
    hide FetchSpan, Answers, LoadBE, Decode, Backed, Valid, Located, GuardHolds, FetchPa, WordAt, Part;
    var rs, mmu, mem := c.sys.rs, c.sys.hasMmu, c.mem;
    var span := FetchSpan(rs, va);
    if span.None? || span.value.1 < 4 {
      return None;
    }
    var at, length := span.value.0, span.value.1;
    var b := Block(va, at, [], [], 0, false);
    var open := true;
    PartEmpty(rs, mmu, va, mem);
    while open && |b.words| < MAX_INSNS && |b.words| < length / 4
      invariant |b.words| <= MAX_INSNS && |b.words| <= length / 4 && |b.ir| == |b.words|
      invariant b.va == va && b.guest == at && Part(b, rs, mmu, mem)
      invariant if open then StillOpen(b)
                else |b.words| > 0 && (b.delay || NeedsCheck(b)
                     || (b.branch == |b.words| && at + 4 * |b.words| + 4 <= |mem|
                         && IsBranch(Decode(WordAt(mem, at + 4 * |b.words|)).op)))
      decreases open, MAX_INSNS - |b.words|
    {
      var n := |b.words|;
      SpanWord(rs, mmu, va, |mem|, n);
      var word := WordAt(mem, at + 4 * n);
      var ok, i := DecodeMips(word);
      if b.branch != 0 && IsBranch(i.op) {
        open := false;
        BranchLast(b, rs, mmu, mem);
      } else {
        AddWordKeeps(b, rs, mmu, mem);
        var inSlot := b.branch != 0;
        b := b.(words := b.words + [word], ir := b.ir + [i]);
        if inSlot {
          b := b.(delay := true);
          open := false;
        } else if IsBranch(i.op) {
          b := b.(branch := n + 1);
        } else if i.op.IExec? && i.endsBlock {
          open := false;
        }
      }
    }
    PartValid(b, rs, mmu, mem);
    r := Some(b);
  }

  lemma PartEmpty(rs: Map, hasMmu: bool, va: Word, mem: seq<Byte>)
    requires FetchSpan(rs, va).Some? && FetchSpan(rs, va).value.1 >= 4 && Backed(rs, |mem|)
    requires va % 4 == 0 && (hasMmu ==> UnmappedSegment(va))
    ensures Part(Block(va, FetchSpan(rs, va).value.0, [], [], 0, false), rs, hasMmu, mem)
  {
    SpanWord(rs, hasMmu, va, |mem|, 0);
  }

  lemma BranchLast(b: Block, rs: Map, hasMmu: bool, mem: seq<Byte>)
    requires Part(b, rs, hasMmu, mem) && b.branch != 0 && !b.delay
    ensures b.branch == |b.words|
  {
  }

  // ------------------------------------------------------------ the cache

  lemma EmptySlotsOk(slots: seq<Slot>, arena: seq<Compiled>)
    requires forall k :: 0 <= k < |slots| ==> slots[k] == EMPTY
    ensures SlotsOk(slots, arena)
  {
  }

  lemma {:induction false} XorZero(a: nat)
    ensures Bitwise(BitXor, a, 0) == a
  {
    if a > 0 {
      XorZero(a / 2);
    }
  }

  /** What a flush inside a compilation leaves: the way holds the new block under the name
      0, so the block's own address misses, and in set 0 address 0 hits it. */
  lemma FlushedWay(slots: seq<Slot>, k: nat, va: Word, n: nat, i: nat)
    requires k < |slots| && slots[k] == EMPTY && k / WAYS == SetOf(va) && va != 0
    ensures
      var filed := slots[k := Slot(0, n, Some(i))];
      !Hit(filed, k, va) && (Hit(filed, k, 0) <==> SetOf(va) == SetOf(0))
  {
    hide SetOf;
  }

  lemma SetIs(va: Word)
    ensures SetOf(va) == Bitwise(BitXor, va / 4, va / 0x1_0000) % SETS
  {
    hide Bitwise;
  }

  /** The block at 0x10004 shares the set of address 0: made by a compilation that flushed,
      it is what a lookup of 0 finds. */
  lemma FlushedWayExample(slots: seq<Slot>, k: nat, va: Word, n: nat, i: nat, arena: seq<Compiled>)
    requires va == 0x1_0004 && k < |slots| && slots[k] == EMPTY && k / WAYS == SetOf(va)
    requires i < |arena| && arena[i].b.va == va
    ensures Astray(slots[k := Slot(0, n, Some(i))], arena, 0)
  {
    hide Bitwise, SetOf;
    XorOdd();
    SetIs(va);
    SetIs(0);
    XorZero(0);
    assert va / 4 == 0x4001 && va / 0x1_0000 == 1;
    FlushedWay(slots, k, va, n, i);
    assert Misnamed(slots[k := Slot(0, n, Some(i))], k, arena);
  }

  lemma XorOdd()
    ensures Bitwise(BitXor, 0x4001, 1) == 0x4000
  {
    XorZero(0x2000);
    assert 0x4001 / 2 == 0x2000 && 1 / 2 == 0;
    var half := Bitwise(BitXor, 0x2000, 0);
    assert Bitwise(BitXor, 0x4001, 1) == OneBit(BitXor, 1, 1) + 2 * half;
  }

  class Jit {
    const rd: array<Option<nat>>
    const wr: array<Option<nat>>
    const slots: array<Slot>
    const dual: bool
    /** Code words around a block's body: prologue, stubs, literals and wide constants. */
    const extra: Block -> nat
    var arena: seq<Compiled>
    var used: nat
    var link: Option<Site>
    var generation: nat
    var built: bool
    var hasMmu: bool
    var flushes: int
    var clock: nat
    /** The system the tables and blocks were made for. */
    ghost var sys: Sys
    ghost var memLen: nat

    ghost predicate Shape()
      reads this
    {
      && rd.Length == PAGES && wr.Length == PAGES && slots.Length == SETS * WAYS
      && rd != wr && slots as object != rd && slots as object != wr
    }

    ghost predicate Valid()
      reads this, rd, wr, slots
    {
      && Shape()
      && ArenaOk(arena, sys.rs, hasMmu, memLen)
      && SlotsOk(slots[..], arena)
      && (built ==> hasMmu == sys.hasMmu && TablesMatch(rd[..], wr[..], sys))
    }

    /** The tables and blocks are for the map `c` runs under. */
    ghost predicate Current(c: Cpu)
      reads this
    {
      built && generation == c.sys.generation && hasMmu == c.sys.hasMmu
      && sys.rs == c.sys.rs && memLen == |c.mem|
    }

    /** The arena has room for `b` at `start`; without a second view of it only a window of
        64 KiB is open for writing. */
    ghost predicate Fits(b: Block, start: nat)
      requires NativeBlock.Valid(b)
    {
      start < ARENA_SIZE && start + Size(b) <= if dual then ARENA_SIZE else Window(start)
    }

    ghost function Size(b: Block): nat
      requires NativeBlock.Valid(b)
    {
      4 * (|Flatten(BlockCode(b))| + extra(b))
    }

    /** There is a block at `va`, and an empty arena has room for it. */
    ghost predicate Makes(c: Cpu, va: Word) {
      exists b :: BlockOf(b, c, va) && Fits(b, 0)
    }

    ghost predicate Answered(va: Word)
      reads this, slots
    {
      exists k :: 0 <= k < slots.Length && Hit(slots[..], k, va)
    }

    /** What the generation check can rely on: the map does not change behind it. */
    ghost predicate Follows(c: Cpu)
      reads this
    {
      built && generation == c.sys.generation && hasMmu == c.sys.hasMmu ==> Current(c)
    }

    constructor (dual: bool, extra: Block -> nat)
      ensures Valid() && fresh(rd) && fresh(wr) && fresh(slots) && !built && link.None?
    {
      rd := new Option<nat>[PAGES](_ => None);
      wr := new Option<nat>[PAGES](_ => None);
      slots := new Slot[SETS * WAYS](_ => EMPTY);
      this.dual := dual;
      this.extra := extra;
      arena := [];
      used := 0;
      link := None;
      generation := 0;
      built := false;
      hasMmu := false;
      flushes := 0;
      clock := 0;
      new;
      EmptySlotsOk(slots[..], arena);
    }

    method Flush()
      requires Shape()
      modifies this`arena, this`used, this`flushes, this`link, slots
      ensures arena == [] && used == 0 && flushes == old(flushes) + 1 && link.None?
      ensures forall k :: 0 <= k < slots.Length ==> slots[k] == EMPTY
      ensures SlotsOk(slots[..], arena) && ArenaOk(arena, sys.rs, hasMmu, memLen)
    {
      forall k | 0 <= k < slots.Length {
        slots[k] := EMPTY;
      }
      arena := [];
      used := 0;
      flushes := flushes + 1;
      link := None;
      EmptySlotsOk(slots[..], arena);
    }

    method BuildTables(c: Cpu)
      requires Shape()
      modifies this`built, this`hasMmu, this`sys, rd, wr
      ensures rd.Length == PAGES && wr.Length == PAGES && TablesMatch(rd[..], wr[..], c.sys)
      ensures built && hasMmu == c.sys.hasMmu && sys == c.sys
    {
      hide PageHost, ArenaOk, SlotsOk;
      for page := 0 to PAGES
        invariant forall k :: 0 <= k < page ==>
                    rd[k] == TableEntry(c.sys, k, false) && wr[k] == TableEntry(c.sys, k, true)
      {
        var va: Word := page * 0x1000;
        var r, w := None, None;
        if UnmappedSegment(va) || !c.sys.hasMmu {
          var pa := if UnmappedSegment(va) then va % 0x2000_0000 else va;
          r := PageHost(c.sys.rs, pa, false);
          w := PageHost(c.sys.rs, pa, true);
        }
        rd[page] := r;
        wr[page] := w;
      }
      built := true;
      hasMmu := c.sys.hasMmu;
      sys := c.sys;
    }

    method Prepare(c: Cpu)
      requires Valid() && Follows(c)
      modifies this, rd, wr, slots
      ensures Valid() && Current(c) && flushes == old(flushes) && clock == old(clock)
      ensures old(Current(c)) ==> arena == old(arena) && slots[..] == old(slots[..]) && link == old(link)
                                  && used == old(used)
      ensures !old(Current(c)) ==> arena == [] && link.None? && used == 0
                                   && forall k :: 0 <= k < slots.Length ==> slots[k] == EMPTY
    {
      hide SlotsOk, TablesMatch, ArenaOk;
      if generation == c.sys.generation && built && hasMmu == c.sys.hasMmu {
        return;
      }
      BuildTables(c);
      generation := c.sys.generation;
      memLen := |c.mem|;
      Flush();
      flushes := flushes - 1;
    }

    /** Read, emit and file the block at `va` in way `k`, which was cleared and named `va`.
        When the arena is full it is flushed whole, way `k` included, and the block is
        emitted once more. */
    method Compile(c: Cpu, va: Word, k: nat) returns (ok: bool)
      requires Valid() && Current(c) && Backed(c.sys.rs, |c.mem|) && MayEnter(c.sys, va)
      requires k < slots.Length && k / WAYS == SetOf(va) && slots[k].va == va && slots[k].code.None?
      requires forall j :: 0 <= j < slots.Length && j != k ==> !Hit(slots[..], j, va)
      modifies this`arena, this`used, this`flushes, this`link, slots
      ensures Valid() && flushes >= old(flushes)
      ensures ok <==> Makes(c, va)
      ensures flushes == old(flushes) <==> forall b :: BlockOf(b, c, va) ==> Fits(b, Aligned(old(used)))
      ensures ok ==> |arena| > 0 && Filed(c, va, k, |arena| - 1) && BlockOf(arena[|arena| - 1].b, c, va)
      ensures ok ==> used == Aligned(if flushes == old(flushes) then old(used) else 0) + Size(arena[|arena| - 1].b)
      ensures ok && flushes == old(flushes) ==>
                arena == old(arena) + [arena[|arena| - 1]] && link == old(link)
                && slots[..] == old(slots[..])[k := Slot(va, slots[k].n, Some(|arena| - 1))]
      ensures ok && flushes != old(flushes) ==>
                |arena| == 1 && link.None? && slots[k].va == 0
                && forall j :: 0 <= j < slots.Length && j != k ==> slots[j] == EMPTY
      ensures !ok && flushes == old(flushes) ==>
                arena == old(arena) && link == old(link) && slots[..] == old(slots[..])
      ensures !ok && flushes != old(flushes) ==>
                arena == [] && link.None? && forall j :: 0 <= j < slots.Length ==> slots[j] == EMPTY
    {
      hide SlotsOk, TablesMatch, ArenaOk, NativeBlock.Valid, Located, FetchSpan, Closed, GuardHolds, BlockCode,
           Flatten, SetOf, Hit, Fetchable, Fits, BlockOf, Makes;
      var r := ReadBlock(c, va);
      OnlyBlock(c, va, r);
      if r.None? {
        return false;
      }
      var b := r.value;
      BlockFacts(b, c, va);
      for attempt := 0 to 2
        invariant Valid()
        invariant attempt > 0 ==> used == 0 && !Fits(b, Aligned(old(used)))
        invariant attempt > 1 ==> !Fits(b, 0)
        invariant attempt == 0 ==> used == old(used)
        invariant flushes >= old(flushes)
        invariant attempt == 0 ==>
          flushes == old(flushes) && arena == old(arena) && link == old(link)
          && slots[..] == old(slots[..])
        invariant attempt > 0 ==>
          flushes > old(flushes) && arena == [] && link.None?
          && forall j :: 0 <= j < slots.Length ==> slots[j] == EMPTY
      {
        if attempt > 0 {
          EmptyMisses(slots[..]);
        }
        var start, code := Allocate(b);
        if code.Some? {
          FitsEmpty(b, start);
          used := start + 4 * (|code.value| + extra(b));
          assert used == start + Size(b);
          File(c, va, k, b, code.value);
          return true;
        }
        Flush();
      }
      return false;
    }

    lemma OnlyBlock(c: Cpu, va: Word, r: Option<Block>)
      requires r.Some? <==> Fetchable(c, va)
      requires r.Some? ==> BlockOf(r.value, c, va)
      ensures Makes(c, va) <==> r.Some? && Fits(r.value, 0)
      ensures forall b :: BlockOf(b, c, va) ==> r.Some? && b == r.value
    {
      hide Fits, Fetchable, Closed, NativeBlock.Valid, Located, GuardHolds, FetchSpan;
      forall b | BlockOf(b, c, va)
        ensures r.Some? && b == r.value
      {
        OneBlock(b, r.value, c, va);
      }
    }

    lemma FitsEmpty(b: Block, start: nat)
      requires NativeBlock.Valid(b) && Fits(b, start)
      ensures Fits(b, 0)
    {
      hide Flatten, BlockCode;
    }

    /** Emit the block behind what the arena holds, exactly if it fits there. */
    method Allocate(b: Block) returns (start: nat, code: Option<seq<Insn>>)
      requires NativeBlock.Valid(b)
      ensures start == Aligned(used)
      ensures code.Some? <==> Fits(b, start)
      ensures code.Some? ==> code.value == Flatten(BlockCode(b))
    {
      hide Flatten, BlockCode, NativeBlock.Valid;
      start := (used + 15) / 16 * 16;
      var cap := if start < ARENA_SIZE then ARENA_SIZE - start else 0;
      if !dual && cap > 0x1_0000 {
        cap := 0x1_0000;
      }
      code := None;
      if cap > 0 && cap / 4 >= extra(b) {
        code := A64Emitter.Emit(b, cap / 4 - extra(b));
      }
    }

    /** Way `k` holds block `i`, just made for `va` from memory as it is. */
    ghost predicate Filed(c: Cpu, va: Word, k: nat, i: nat)
      requires k < slots.Length
      reads this, slots
    {
      && i < |arena| && slots[k].code == Some(i) && slots[k].n == |arena[i].b.words|
      && arena[i].b.va == va && arena[i].stale.Stub?
      && arena[i].b.guest + 4 * |arena[i].b.words| <= |c.mem| && GuardHolds(arena[i].b, 0, c.mem)
    }

    /** Append the block and fill way `k`, whose name a flush may have zeroed. */
    method File(c: Cpu, va: Word, k: nat, b: Block, code: seq<Insn>)
      requires Valid() && Current(c) && k < slots.Length && k / WAYS == SetOf(va)
      requires slots[k].va == va || slots[k] == EMPTY
      requires forall j :: 0 <= j < slots.Length && j != k ==> !Hit(slots[..], j, slots[k].va)
      requires NativeBlock.Valid(b) && b.va == va && code == Flatten(BlockCode(b))
      requires Located(b, c.sys.rs, c.sys.hasMmu, |c.mem|) && GuardHolds(b, 0, c.mem)
      modifies this`arena, slots
      ensures Valid() && |arena| == |old(arena)| + 1 && Filed(c, va, k, |old(arena)|)
      ensures arena[|old(arena)|].b == b
      ensures arena == old(arena) + [arena[|old(arena)|]]
      ensures slots[..] == old(slots[..])[k := Slot(old(slots[k].va), |b.words|, Some(|old(arena)|))]
    {
      hide SlotsOk, TablesMatch, ArenaOk, NativeBlock.Valid, Located, GuardHolds, BlockCode, Flatten, SetOf, Hit;
      LocatedLength(b, c.sys, |c.mem|);
      var e := Compiled(b, code, [Stub, Stub], Stub);
      AppendKeeps(arena, e, slots[..], sys.rs, hasMmu, memLen);
      ghost var before := slots[..];
      var s := slots[k].(code := Some(|arena|), n := |b.words|);
      arena := arena + [e];
      slots[k] := s;
      assert slots[..] == before[k := s];
      FillKeeps(before, k, s, arena);
    }

    /** The entry for `va`: the one filed, or a newly made one. Asked to recompile, it
        replaces the one filed. Only a lookup of 0 can find a block for another address;
        such a way comes from a flush in a compilation for set 0. */
    method Find(c: Cpu, va: Word, recompile: bool) returns (r: Option<nat>)
      requires Valid() && Current(c) && Backed(c.sys.rs, |c.mem|) && MayEnter(c.sys, va)
      modifies this`arena, this`used, this`flushes, this`link, this`clock, slots
      ensures Valid()
      ensures r.Some? <==> Makes(c, va) || (!recompile && old(Answered(va)))
      ensures flushes == old(flushes) ==>
                if r.Some? then r.value < slots.Length && Hit(slots[..], r.value, va) else !Answered(va)
      ensures r.Some? ==>
                && r.value < slots.Length && slots[r.value].code.Some? && slots[r.value].code.value < |arena|
                && (EntryFor(va, r.value) || WrongFor(va, r.value))
      ensures r.Some? && WrongFor(va, r.value) ==> !recompile && slots[..] == old(slots[..]) && arena == old(arena)
      ensures r.Some? && flushes != old(flushes) ==>
                (Misnamed(slots[..], r.value, arena) <==> va != 0 && SetOf(va) == SetOf(0))
      ensures flushes == old(flushes) ==> old(arena) <= arena && link == old(link)
      ensures flushes != old(flushes) ==> link.None?
      ensures recompile ==> FreshAt(slots[..], arena, va, c.mem)
      ensures recompile && r.Some? && flushes == old(flushes) ==>
                slots[r.value].code == Some(|old(arena)|)
                && forall k :: 0 <= k < slots.Length && Hit(slots[..], k, va) ==> k == r.value
      ensures r.Some? && old(FreshAt(slots[..], arena, va, c.mem)) ==> EntryFresh(c, r.value)
    {
      hide SlotsOk, TablesMatch, ArenaOk, GuardHolds, SetOf, FreshAt, Hit, Makes;
      SetInRange(va);
      var found, victim := Scan(va, recompile);
      if found && !recompile {
        HitMeans(slots[..], victim, va, arena);
        FreshMeans(slots[..], arena, va, c.mem, victim);
        r := Some(victim);
        return;
      }
      if !recompile && slots[victim].code.Some? {
        victim := SetOf(va) * WAYS + clock % WAYS;
        clock := clock + 1;
      }
      OthersMiss(slots[..], arena, va, victim, found);
      r := Refile(c, va, victim);
    }

    /** The way of `va`'s set that answers for it, or else the last empty one, or the first. */
    method Scan(va: Word, recompile: bool) returns (found: bool, victim: nat)
      requires Shape() && SetOf(va) * WAYS + WAYS <= slots.Length
      ensures victim < slots.Length && victim / WAYS == SetOf(va)
      ensures if found then Hit(slots[..], victim, va)
              else forall j :: 0 <= j < slots.Length && j / WAYS == SetOf(va) ==> !Hit(slots[..], j, va)
      ensures !found && slots[victim].code.Some? ==>
                forall j :: 0 <= j < slots.Length && j / WAYS == SetOf(va) ==> slots[j].code.Some?
    {
      hide SetOf;
      var base := SetOf(va) * WAYS;
      victim := base;
      var k := base;
      while k < base + WAYS
        invariant base <= k <= base + WAYS && base <= victim < base + WAYS
        invariant forall j :: base <= j < k ==> !Hit(slots[..], j, va)
        invariant slots[victim].code.Some? ==> forall j :: base <= j < k ==> slots[j].code.Some?
      {
        if slots[k].va == va && slots[k].code.Some? {
          return true, k;
        }
        if slots[k].code.None? {
          victim := k;
        }
        k := k + 1;
      }
      found := false;
    }

    /** Clear way `victim`, name it `va` and compile into it. */
    method Refile(c: Cpu, va: Word, victim: nat) returns (r: Option<nat>)
      requires Valid() && Current(c) && Backed(c.sys.rs, |c.mem|) && MayEnter(c.sys, va)
      requires victim < slots.Length && victim / WAYS == SetOf(va)
      requires forall j :: 0 <= j < slots.Length && j != victim ==> !Hit(slots[..], j, va)
      modifies this`arena, this`used, this`flushes, this`link, slots
      ensures Valid() && flushes >= old(flushes)
      ensures r.Some? <==> Makes(c, va)
      ensures flushes == old(flushes) ==> if r.Some? then Hit(slots[..], victim, va) else !Answered(va)
      ensures r.Some? ==> r.value == victim && EntryFor(va, victim) && EntryFresh(c, victim)
      ensures r.Some? && flushes != old(flushes) ==>
                (Misnamed(slots[..], victim, arena) <==> va != 0 && SetOf(va) == SetOf(0))
      ensures flushes == old(flushes) ==> old(arena) <= arena && link == old(link)
      ensures flushes != old(flushes) ==> link.None?
      ensures r.Some? && flushes == old(flushes) ==> slots[victim].code == Some(|old(arena)|)
      ensures forall k :: 0 <= k < slots.Length && Hit(slots[..], k, va) ==> k == victim
      ensures FreshAt(slots[..], arena, va, c.mem)
    {
      hide SlotsOk, TablesMatch, ArenaOk, GuardHolds, SetOf, FreshAt, Hit, Makes, BlockOf, Fits, Size, Aligned;
      ghost var before := slots[..];
      slots[victim] := slots[victim].(code := None, va := va);
      ghost var cleared := slots[..];
      assert cleared == before[victim := before[victim].(code := None, va := va)];
      ClearKeeps(before, victim, va, arena);
      MissKept(before, cleared, va, victim);
      var ok := Compile(c, va, victim);
      ghost var after := slots[..];
      if flushes == old(flushes) {
        if ok { NamedHit(after, victim, va); }
        MissKept(cleared, after, va, victim);
      } else {
        if ok { NamedZero(after, victim, va, arena); }
        EmptyMisses(seq(SETS * WAYS, _ => EMPTY));
        MissKept(seq(SETS * WAYS, _ => EMPTY), after, va, victim);
      }
      if !ok {
        ClearKeeps(after, victim, after[victim].va, arena);
        slots[victim] := slots[victim].(code := None);
        assert slots[..] == after[victim := after[victim].(code := None)];
        MissKept(after, slots[..], va, victim);
        HitNeedsCode(slots[..], va, victim);
        r := None;
      } else {
        r := Some(victim);
      }
      FreshBut(slots[..], arena, va, c.mem, victim);
    }

    /** After native code left through an unresolved site: find the block for pc, again if
        it was stale, and redirect the site to it, unless that flushed the site away. The
        model stops, with `ok` false, where the program would redirect it to a misnamed way. */
    method ResolveLink(c: Cpu, stale: bool) returns (ok: bool)
      requires Valid() && Current(c) && Backed(c.sys.rs, |c.mem|)
      requires link.Some? ==> SiteGoesTo(arena, link.value, c.pc) && (stale <==> link.value.StaleSite?)
      modifies this`arena, this`used, this`flushes, this`link, this`clock, slots
      ensures Valid() && link.None?
      ensures old(link).Some? && stale && Enterable(c) ==> FreshAt(slots[..], arena, c.pc, c.mem)
      ensures old(link).Some? && Enterable(c) && Makes(c, c.pc) && ok && flushes == old(flushes) ==>
                Linked(old(link).value, c.pc)
      ensures !ok <==> old(link).Some? && Enterable(c) && flushes == old(flushes) && Astray(slots[..], arena, c.pc)
    {
      hide SlotsOk, TablesMatch, ArenaOk, GuardHolds, SetOf, FreshAt, Hit, SiteGoesTo, Makes;
      var site := link;
      link := None;
      ok := true;
      if site.None? || !Enterable(c) {
        return;
      }
      var before := flushes;
      ghost var arena0 := arena;
      var target := Find(c, c.pc, stale);
      if target.None? || flushes != before {
        NoneAstray(slots[..], c.pc, arena);
        return;
      }
      var to := slots[target.value].code.value;
      OnlyHit(slots[..], target.value, c.pc, arena);
      if arena[to].b.va != c.pc {
        return false;
      }
      SiteKept(arena0, arena, site.value, c.pc, sys.rs, hasMmu, memLen);
      PatchKeeps(arena, slots[..], site.value, to, sys.rs, hasMmu, memLen);
      FreshPatched(slots[..], arena, site.value, to, c.pc, c.mem);
      arena := PatchSite(arena, site.value, to);
      OnlyHit(slots[..], target.value, c.pc, arena);
    }

    /** The site's branch goes to a block for `va`. */
    ghost predicate Linked(site: Site, va: Word)
      reads this
    {
      site.at < |arena| && (site.LinkSite? ==> site.n < |arena[site.at].links|) &&
      var to := if site.LinkSite? then arena[site.at].links[site.n] else arena[site.at].stale;
      to.Chain? && to.to < |arena| && arena[to.to].b.va == va
    }

    /** The run loop's conditions for native code at pc, checked again before linking. */
    static predicate Enterable(c: Cpu) {
      MayEnter(c.sys, c.pc) && !c.branchPending && !c.sys.powerStopped
    }

    /** The register-jump search native code makes: a way of the set whose name matches. */
    method Search(va: Word) returns (code: Option<nat>)
      requires Valid()
      ensures code.Some? ==> code.value < |arena| && (arena[code.value].b.va == va || Astray(slots[..], arena, va))
      ensures code.Some? <==> Answered(va)
      ensures Astray(slots[..], arena, va) <==> code.Some? && code.value < |arena| && arena[code.value].b.va != va
    {
      hide SlotsOk, TablesMatch, ArenaOk, SetOf;
      var base := SetOf(va) * WAYS;
      assert base + WAYS <= slots.Length by { SetInRange(va); }
      for way := 0 to WAYS
        invariant forall j :: base <= j < base + way ==> !Hit(slots[..], j, va)
      {
        if slots[base + way].va == va && slots[base + way].code.Some? {
          HitMeans(slots[..], base + way, va, arena);
          OnlyHit(slots[..], base + way, va, arena);
          assert Hit(slots[..], base + way, va);
          return slots[base + way].code;
        }
      }
      code := None;
    }

    /** Way `k` holds the newest code of a block compiled for `va`. */
    ghost predicate EntryFor(va: Word, k: nat)
      requires k < slots.Length
      reads this, slots
    {
      var s := slots[k];
      s.code.Some? && s.code.value < |arena| && arena[s.code.value].b.va == va
      && s.n == |arena[s.code.value].b.words| && arena[s.code.value].stale.Stub?
    }

    /** Way `k` answers for address 0 with the block of another address. */
    ghost predicate WrongFor(va: Word, k: nat)
      requires k < slots.Length
      reads this, slots
    {
      va == 0 && Misnamed(slots[..], k, arena)
    }

    ghost predicate EntryFresh(c: Cpu, k: nat)
      requires k < slots.Length
      reads this, slots
    {
      var s := slots[k];
      s.code.Some? && s.code.value < |arena| &&
      var b := arena[s.code.value].b;
      b.guest + 4 * |b.words| <= |c.mem| && GuardHolds(b, 0, c.mem)
    }
  }

  lemma SetInRange(va: Word)
    ensures SetOf(va) * WAYS + WAYS <= SETS * WAYS
  {
  }

  lemma HitMeans(slots: seq<Slot>, k: nat, va: Word, arena: seq<Compiled>)
    requires SlotsOk(slots, arena) && k < |slots| && Hit(slots, k, va)
    ensures
      var s := slots[k];
      && s.code.Some? && s.code.value < |arena| && s.n == |arena[s.code.value].b.words|
      && if arena[s.code.value].b.va == va then arena[s.code.value].stale.Stub?
         else va == 0 && Misnamed(slots, k, arena)
  {
    assert SlotOk(slots, k, arena);
  }

  /** A lookup goes astray exactly if the one way that answers holds another block. */
  lemma OnlyHit(slots: seq<Slot>, k: nat, va: Word, arena: seq<Compiled>)
    requires SlotsOk(slots, arena) && k < |slots| && Hit(slots, k, va)
    ensures slots[k].code.value < |arena|
    ensures Astray(slots, arena, va) <==> arena[slots[k].code.value].b.va != va
  {
    hide SetOf;
    HitMeans(slots, k, va, arena);
    if arena[slots[k].code.value].b.va != va {
      assert Misnamed(slots, k, arena);
    }
  }

  lemma NamedHit(slots: seq<Slot>, k: nat, va: Word)
    requires k < |slots| && k / WAYS == SetOf(va) && slots[k].va == va && slots[k].code.Some?
    ensures Hit(slots, k, va)
  {
  }

  lemma NoneAstray(slots: seq<Slot>, va: Word, arena: seq<Compiled>)
    ensures (forall k :: 0 <= k < |slots| ==> !Hit(slots, k, va)) ==> !Astray(slots, arena, va)
  {
    hide SetOf;
  }

  /** What a flush inside a compilation leaves in its way. */
  lemma NamedZero(slots: seq<Slot>, k: nat, va: Word, arena: seq<Compiled>)
    requires k < |slots| && k / WAYS == SetOf(va) && slots[k].va == 0 && slots[k].code.Some?
    requires slots[k].code.value < |arena| && arena[slots[k].code.value].b.va == va
    ensures Misnamed(slots, k, arena) <==> va != 0 && SetOf(va) == SetOf(0)
  {
    hide SetOf;
  }

  /** After the scan of the set, no way but the victim answers for `va`. */
  lemma OthersMiss(slots: seq<Slot>, arena: seq<Compiled>, va: Word, victim: nat, found: bool)
    requires SlotsOk(slots, arena) && victim < |slots|
    requires if found then Hit(slots, victim, va)
             else forall j :: 0 <= j < |slots| && j / WAYS == SetOf(va) ==> !Hit(slots, j, va)
    ensures forall j :: 0 <= j < |slots| && j != victim ==> !Hit(slots, j, va)
  {
    hide SetOf;
  }

  lemma SiteKept(arena: seq<Compiled>, arena1: seq<Compiled>, site: Site, va: Word, rs: Map, hasMmu: bool, memLen: nat)
    requires arena <= arena1 && SiteGoesTo(arena, site, va) && ArenaOk(arena1, rs, hasMmu, memLen)
    ensures SiteGoesTo(arena1, site, va) && |arena1[site.at].links| == 2 && site.at < |arena|
    ensures site.LinkSite? ==> site.n < 2
  {
    hide Valid, Located, Flatten, BlockCode, LinkAddress;
    assert CompiledOk(arena1, site.at, rs, hasMmu, memLen);
    assert arena1[site.at] == arena[site.at];
  }

  lemma FreshPatched(slots: seq<Slot>, arena: seq<Compiled>, site: Site, to: nat, va: Word, mem: seq<Byte>)
    requires site.at < |arena| && (site.LinkSite? ==> site.n < |arena[site.at].links|)
    ensures FreshAt(slots, arena, va, mem) ==> FreshAt(slots, PatchSite(arena, site, to), va, mem)
  {
    hide SetOf, GuardHolds;
    var arena1 := PatchSite(arena, site, to);
    assert forall i :: 0 <= i < |arena| ==> arena1[i].b == arena[i].b;
  }

  lemma HitNeedsCode(slots: seq<Slot>, va: Word, k: nat)
    requires k < |slots| && slots[k].code.None?
    ensures !Hit(slots, k, va)
  {
  }

  lemma FreshMeans(slots: seq<Slot>, arena: seq<Compiled>, va: Word, mem: seq<Byte>, k: nat)
    requires k < |slots| && Hit(slots, k, va) && slots[k].code.value < |arena|
    ensures FreshAt(slots, arena, va, mem) ==>
            var b := arena[slots[k].code.value].b;
            b.guest + 4 * |b.words| <= |mem| && GuardHolds(b, 0, mem)
  {
    hide SetOf, GuardHolds;
  }

  lemma EmptyMisses(slots: seq<Slot>)
    ensures (forall k :: 0 <= k < |slots| ==> slots[k] == EMPTY) ==>
            forall k, va: Word :: 0 <= k < |slots| ==> !Hit(slots, k, va)
  {
  }

  lemma MissKept(slots: seq<Slot>, slots1: seq<Slot>, va: Word, k: nat)
    requires |slots1| == |slots|
    requires forall j :: 0 <= j < |slots| && j != k ==> slots1[j] == slots[j] && !Hit(slots, j, va)
    ensures forall j :: 0 <= j < |slots| && j != k ==> !Hit(slots1, j, va)
  {
    hide SetOf;
    forall j | 0 <= j < |slots| && j != k
      ensures !Hit(slots1, j, va)
    {
      assert slots1[j] == slots[j] && !Hit(slots, j, va);
    }
  }

  lemma FreshBut(slots: seq<Slot>, arena: seq<Compiled>, va: Word, mem: seq<Byte>, k: nat)
    requires k < |slots| && forall j :: 0 <= j < |slots| && j != k ==> !Hit(slots, j, va)
    requires slots[k].code.Some? && slots[k].code.value < |arena| ==>
      var b := arena[slots[k].code.value].b;
      b.guest + 4 * |b.words| <= |mem| && GuardHolds(b, 0, mem)
    ensures FreshAt(slots, arena, va, mem)
  {
    hide SetOf, GuardHolds;
  }

  lemma LocatedLength(b: Block, sys: Sys, memLen: nat)
    requires Located(b, sys.rs, sys.hasMmu, memLen)
    ensures b.guest + 4 * |b.words| <= memLen
  {
  }
}
