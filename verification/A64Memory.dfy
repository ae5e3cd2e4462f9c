/** Loads, stores and trapping arithmetic: a fast path through the page tables or the host
    flags, and the helper otherwise. */
module A64Memory {
  import opened Words
  import opened Wrappers
  import opened BusMap
  import opened Mips
  import opened MipsIr
  import opened NativeBlock
  import opened HostCode
  import opened RegCache
  import opened A64Code
  import opened A64Proof
  import opened A64Step
  import opened Sampling
  import opened A64Helper

  // ------------------------------------------------------------ page tables

  /** The entry `build_tables` computes for a guest virtual page. */
  function TableEntry(sys: Sys, page: nat, write: bool): Option<nat>
    requires page < 0x10_0000
  {
    var va := page * 0x1000;
    if UnmappedSegment(va) then PageHost(sys.rs, va % 0x2000_0000, write)
    else if !sys.hasMmu then PageHost(sys.rs, va, write)
    else None
  }

  predicate TablesMatch(rd: Table, wr: Table, sys: Sys) {
    forall page :: 0 <= page < 0x10_0000 ==>
      rd[page] == TableEntry(sys, page, false) && wr[page] == TableEntry(sys, page, true)
  }

  lemma AlignedInPage(va: Word, size: nat)
    requires AccessSize(size) && va % size == 0
    ensures va % 0x1000 + size <= 0x1000
  {
  }

  /** A table entry and the reference access agree on the host bytes. */
  lemma TableAccess(sys: Sys, memLen: nat, va: Word, size: nat, write: bool)
    requires Safe(sys, memLen) && AccessSize(size) && va % size == 0
    requires TableEntry(sys, va / 0x1000, write).Some?
    ensures MemoryAt(sys, memLen, va, size) == Some(TableEntry(sys, va / 0x1000, write).value + va % 0x1000)
    ensures write ==> RamAt(sys, va, size)
  {
    hide PageHost, HiddenOverlay, First, Answers, Quiet, Backed;
    var base := (va / 0x1000) * 0x1000;
    var pa := Physical(sys, va).value;
    var start: Word := if UnmappedSegment(va) then base % 0x2000_0000 else base;
    assert UnmappedSegment(va) <==> UnmappedSegment(base);
    assert pa == start + va % 0x1000 && start % PAGE == 0;
    AlignedInPage(va, size);
    HiddenOnlyLast(sys.rs, start, write);
    PageHostAccess(sys.rs, start, write, pa, size);
    PageHostInBounds(sys.rs, start, write, memLen);
  }

  lemma HiddenOnlyLast(rs: Map, start: Word, write: bool)
    requires NothingHidden(rs)
    ensures !HiddenOverlay(rs, start, write)
  {
  }

  // ------------------------------------------------------------ byte order

  lemma ByteOfJoin(b0: Byte, b1: Byte, b2: Byte, b3: Byte)
    ensures
      var w: Word := Join(b0, b1, b2, b3);
      ByteOf(w, 0) == b0 && ByteOf(w, 1) == b1 && ByteOf(w, 2) == b2 && ByteOf(w, 3) == b3
  {
    var w: Word := Join(b0, b1, b2, b3);
    var q2: int := b2 + b3 * 0x100;
    var q1: int := b1 + q2 * 0x100;
    assert w == b0 + q1 * 0x100;
    assert w / 0x100 == q1 && w % 0x100 == b0;
    assert w / 0x1_0000 == q2;
    assert w / 0x100_0000 == b3;
  }

  /** A little-endian load and a byte reversal is a big-endian load. */
  lemma LoadReverses(mem: seq<Byte>, at: nat)
    requires at + 4 <= |mem|
    ensures Reverse(LoadLE(mem, at, 4)) == LoadBE(mem, at, 4)
  {
    ByteOfJoin(mem[at], mem[at + 1], mem[at + 2], mem[at + 3]);
  }

  lemma LoadReverses16(mem: seq<Byte>, at: nat)
    requires at + 2 <= |mem|
    ensures Reverse16(LoadLE(mem, at, 2)) == LoadBE(mem, at, 2)
  {
    ByteOfJoin(mem[at], mem[at + 1], 0, 0);
  }

  lemma StoreReverses(mem: seq<Byte>, at: nat, v: Word)
    requires at + 4 <= |mem|
    ensures StoreLE(mem, at, 4, Reverse(v)) == StoreBE(mem, at, 4, v)
  {
    ByteOfJoin(ByteOf(v, 3), ByteOf(v, 2), ByteOf(v, 1), ByteOf(v, 0));
  }

  lemma StoreReverses16(mem: seq<Byte>, at: nat, v: Word)
    requires at + 2 <= |mem|
    ensures StoreLE(mem, at, 2, Reverse16(v)) == StoreBE(mem, at, 2, v)
  {
    ByteOfJoin(ByteOf(v, 1), ByteOf(v, 0), ByteOf(v, 3), ByteOf(v, 2));
  }

  // ------------------------------------------------------------ the address

  /** Only scratch registers and flags differ from `h`; the cache `rc` still represents. */
  predicate Prepares(rc: Cache, h: Host, h1: Host, r: Regs) {
    && Ok(rc) && Represents(rc, h1.x, h1.m.c.r, r)
    && Scratched(h, h1)
  }

  predicate Prepared(rc: Cache, h: Host, h1: Host, r: Regs) {
    A64(rc) && Prepares(rc, h, h1, r)
  }

  lemma PreparesSim(b: Block, k: nat, rc: Cache, rc1: Cache, h: Host, h1: Host, m: Machine, target: Word, budget: nat)
    requires Simulates(b, k, rc, h, m, target, budget) && Prepares(rc1, h, h1, m.c.r)
    ensures Simulates(b, k, rc1, h1, m, target, budget)
  {
  }

  lemma PreparedSim(b: Block, k: nat, rc: Cache, rc1: Cache, h: Host, h1: Host, m: Machine, target: Word, budget: nat)
    requires Sim(b, k, rc, h, m, target, budget) && Prepared(rc1, h, h1, m.c.r)
    ensures Sim(b, k, rc1, h1, m, target, budget)
  {
  }

  lemma ScratchKeeps(rc: Cache, h: Host, h1: Host, r: Regs)
    requires A64(rc) && Ok(rc) && Represents(rc, h.x, h.m.c.r, r)
    requires h1 == h.(x := h1.x, flags := h1.flags)
    requires forall j :: 0 <= j < 32 && j != 1 && j != 2 && j != 3 && j != 9 && j != 17 ==> h1.x[j] == h.x[j]
    ensures Prepared(rc, h, h1, r)
  {
    hide Ok, Represents;
    RepresentsFrame(rc, h.x, h1.x, h.m.c.r, r);
  }

  lemma AddressRefines(env: Env, rc: Cache, i: Ir, base: HReg, h: Host, r: Regs)
    requires A64(rc) && Ok(rc) && Represents(rc, h.x, h.m.c.r, r) && AccessSize(i.size)
    requires Get(h, base) == r[i.left] && base != 17
    ensures
      var h1 := ApplyAll(env, AddressOps(i, base), h);
      var va := Add(r[i.left], i.value);
      && Prepared(rc, h, h1, r) && Low(h1.x[1]) == va
      && (i.size > 1 ==> (h1.flags.z <==> va % i.size == 0))
  {
    hide Ok, Represents;
    var first := if i.value != 0 then AddImm32(1, base, i.value) else Move(1, base);
    var second: seq<HOp> := if i.size > 1 then [TestLow(1, i.size)] else [];
    var h0 := ApplyAll(env, first, h);
    if i.value != 0 {
      AddImm32Computes(env, 1, base, i.value, h);
    } else {
      MoveComputes(env, 1, base, h);
    }
    ApplyConcat(env, first, second, h);
    if i.size > 1 {
      Apply1(env, TestLow(1, i.size), h0);
    }
    ScratchKeeps(rc, h, ApplyAll(env, AddressOps(i, base), h), r);
  }

  /** Everything up to the alignment test. */
  lemma PreRefines(env: Env, rc: Cache, i: Ir, h: Host, r: Regs)
    requires A64(rc) && Ok(rc) && Represents(rc, h.x, h.m.c.r, r) && AccessSize(i.size)
    ensures
      var (ops, base, rc1) := Read(rc, i.left, 1);
      var h1 := ApplyAll(env, ops + AddressOps(i, base), h);
      var va := Add(r[i.left], i.value);
      && Prepared(rc1, h, h1, r) && Low(h1.x[1]) == va
      && (i.size > 1 ==> (h1.flags.z <==> va % i.size == 0))
  {
    hide Ok, Represents, Read, ApplyAll, AddressOps, OnlyLoaded;
    var (ops, base, rc1) := Read(rc, i.left, 1);
    OneRead(env, rc, i.left, 1, h, r);
    AddressRefines(env, rc1, i, base, ApplyAll(env, ops, h), r);
    ApplyConcat(env, ops, AddressOps(i, base), h);
  }

  lemma PageNumber(va: Word)
    ensures ShiftRight(va, 12) == va / 0x1000
  {
    assert Pow2(6) == 64;
    assert Pow2(12) == 0x1000;
  }

  lemma LookupRefines(env: Env, rc: Cache, write: bool, va: Word, h: Host, r: Regs)
    requires A64(rc) && Ok(rc) && Represents(rc, h.x, h.m.c.r, r) && Low(h.x[1]) == va
    ensures
      var h1 := ApplyAll(env, PageLookup(write), h);
      && Prepared(rc, h, h1, r) && h1.x[1] == h.x[1]
      && h1.x[3] == Page(if write then h.wr[va / 0x1000] else h.rd[va / 0x1000])
  {
    hide Ok, Represents, ApplyAll, ShiftRight;
    PageNumber(va);
    Apply2(env, ShiftImm(Lsr, 2, 1, 12), LdTable(3, 2, write), h);
    ScratchKeeps(rc, h, ApplyAll(env, PageLookup(write), h), r);
  }

  // ------------------------------------------------------------ fast load

  lemma LoadWordComputes(env: Env, i: Ir, d: HReg, h: Host, at: nat)
    requires i.size == 4 && d != ZR && HostAt(h, 3, 1, 4) == Some(at)
    ensures Computed(h, ApplyAll(env, LoadOps(i, d), h), d, LoadBE(h.m.c.mem, at, 4))
  {
    hide LoadLE, LoadBE, Reverse, ApplyAll;
    Apply2(env, LdHost(d, 3, 1, 4, false), Rev(d, d), h);
    LoadReverses(h.m.c.mem, at);
  }

  lemma LoadHalfComputes(env: Env, i: Ir, d: HReg, h: Host, at: nat)
    requires i.size == 2 && d != ZR && HostAt(h, 3, 1, 2) == Some(at)
    ensures Computed(h, ApplyAll(env, LoadOps(i, d), h), d, Extend(2, i.sign, LoadBE(h.m.c.mem, at, 2)))
  {
    hide LoadLE, LoadBE, SignExtend16, ApplyAll, Apply;
    var first := [LdHost(d, 3, 1, 2, false), Rev16(d, d)];
    HalfReverses(env, d, h, at);
    if i.sign {
      ApplyConcat(env, first, [Sxth(d)], h);
      SignHalf(env, d, ApplyAll(env, first, h), LoadBE(h.m.c.mem, at, 2));
    } else {
      assert first + [] == first;
    }
  }

  lemma HalfReverses(env: Env, d: HReg, h: Host, at: nat)
    requires d != ZR && HostAt(h, 3, 1, 2) == Some(at)
    ensures
      var h1 := ApplyAll(env, [LdHost(d, 3, 1, 2, false), Rev16(d, d)], h);
      Computed(h, h1, d, LoadBE(h.m.c.mem, at, 2))
  {
    hide LoadLE, LoadBE, Reverse16, ApplyAll;
    Apply2(env, LdHost(d, 3, 1, 2, false), Rev16(d, d), h);
    LoadReverses16(h.m.c.mem, at);
  }

  lemma SignHalf(env: Env, d: HReg, h: Host, v: Word)
    requires d != ZR && Low(h.x[d]) == v
    ensures
      var h1 := ApplyAll(env, [Sxth(d)], h);
      Computed(h, h1, d, SignExtend16(v))
  {
    hide SignExtend16, ApplyAll;
    Apply1(env, Sxth(d), h);
  }

  lemma LoadComputes(env: Env, i: Ir, d: HReg, h: Host, at: nat)
    requires AccessSize(i.size) && d != ZR
    requires HostAt(h, 3, 1, i.size) == Some(at)
    ensures Computed(h, ApplyAll(env, LoadOps(i, d), h), d, Extend(i.size, i.sign, LoadBE(h.m.c.mem, at, i.size)))
  {
    hide LoadLE, LoadBE, SignExtend8, SignExtend16, Computed, ApplyAll;
    if i.size == 4 {
      LoadWordComputes(env, i, d, h, at);
    } else if i.size == 2 {
      LoadHalfComputes(env, i, d, h, at);
    } else {
      LoadByteComputes(env, i, d, h, at);
    }
  }

  lemma LoadByteComputes(env: Env, i: Ir, d: HReg, h: Host, at: nat)
    requires i.size == 1 && d != ZR && HostAt(h, 3, 1, 1) == Some(at)
    ensures Computed(h, ApplyAll(env, LoadOps(i, d), h), d, Extend(1, i.sign, LoadBE(h.m.c.mem, at, 1)))
  {
    hide LoadLE, LoadBE, SignExtend8, ApplyAll;
    Apply1(env, LdHost(d, 3, 1, 1, i.sign), h);
    LoadByte(h.m.c.mem, at);
  }

  lemma LoadByte(mem: seq<Byte>, at: nat)
    requires at < |mem|
    ensures LoadLE(mem, at, 1) == LoadBE(mem, at, 1)
  {
  }

  lemma WriteAnySettles(env: Env, rc: Cache, g: Reg, h: Host, ops: seq<HOp>, v: Word, r: Regs)
    requires A64(rc) && Ok(rc) && Represents(rc, h.x, h.m.c.r, r)
    requires Computed(h, ApplyAll(env, ops, h), WriteReg(rc, g, 9).0, v)
    ensures
      var (d, rc1) := WriteReg(rc, g, 9);
      Settled(rc1, h, ApplyAll(env, ops + Written(rc1, g, d), h), SetReg(r, g, v))
  {
    hide Ok, Represents, ApplyAll;
    if g == 0 {
      var h1 := ApplyAll(env, ops, h);
      assert ops + [] == ops;
      ScratchKeeps(rc, h, h1, r);
    } else {
      WriteSettles(env, rc, g, 9, h, ops, v, r);
    }
  }

  /** `h1` is the host after a fast access: registers `r`, memory `mem`, counters moved. */
  predicate Accesses(rc: Cache, h: Host, h1: Host, r: Regs, mem: seq<Byte>, dr: nat, dw: nat) {
    && Ok(rc) && Represents(rc, h1.x, h1.m.c.r, r)
    && h1 == h.(x := h1.x, flags := h1.flags,
                m := Machine(h.m.c.(r := h1.m.c.r, mem := mem), h.m.busReads + dr, h.m.busWrites + dw))
    && h1.x[TARGET] == h.x[TARGET] && h1.x[BUDGET] == h.x[BUDGET]
  }

  predicate Accessed(rc: Cache, h: Host, h1: Host, r: Regs, mem: seq<Byte>, dr: nat, dw: nat) {
    A64(rc) && Accesses(rc, h, h1, r, mem, dr, dw)
  }

  lemma CounterScratch(env: Env, rc: Cache, h: Host, counter: Counter, r: Regs)
    requires A64(rc) && Ok(rc) && Represents(rc, h.x, h.m.c.r, r) && (counter.CReads? || counter.CWrites?)
    ensures
      var h1 := ApplyAll(env, [AddCounter(counter, 1)], h);
      Accessed(rc, h, h1, r, h.m.c.mem, if counter.CReads? then 1 else 0, if counter.CWrites? then 1 else 0)
  {
    hide Ok, Represents;
    Apply1(env, AddCounter(counter, 1), h);
    RepresentsFrame(rc, h.x, h.x[9 := W(0)], h.m.c.r, r);
  }

  lemma OffsetRefines(env: Env, rc: Cache, h: Host, r: Regs, va: Word, p: nat, size: nat)
    requires A64(rc) && Ok(rc) && Represents(rc, h.x, h.m.c.r, r)
    requires Low(h.x[1]) == va && h.x[3] == Page(Some(p)) && AccessSize(size)
    requires p + va % 0x1000 + size <= |h.m.c.mem|
    ensures
      var h1 := ApplyAll(env, [PageOffset(1)], h);
      Prepared(rc, h, h1, r) && HostAt(h1, 3, 1, size) == Some(p + va % 0x1000)
      && h1.x[3] == h.x[3] && Low(h1.x[1]) == va % 0x1000
  {
    hide Ok, Represents;
    Apply1(env, PageOffset(1), h);
    ScratchKeeps(rc, h, ApplyAll(env, [PageOffset(1)], h), r);
  }

  lemma LoadFastRefines(env: Env, rc: Cache, i: Ir, h: Host, r: Regs, va: Word, p: nat)
    requires A64(rc) && Ok(rc) && Represents(rc, h.x, h.m.c.r, r)
    requires Low(h.x[1]) == va && h.x[3] == Page(Some(p)) && AccessSize(i.size)
    requires p + va % 0x1000 + i.size <= |h.m.c.mem|
    ensures
      var (ops, rc1) := LoadFast(i, rc);
      var v := Extend(i.size, i.sign, LoadBE(h.m.c.mem, p + va % 0x1000, i.size));
      Accessed(rc1, h, ApplyAll(env, ops, h), SetReg(r, i.dst, v), h.m.c.mem, 1, 0)
  {
    hide Ok, Represents, ApplyAll, LoadOps, Written, WriteReg, Extend, LoadBE, HostAt;
    var (d, rc1) := WriteReg(rc, i.dst, 9);
    var v := Extend(i.size, i.sign, LoadBE(h.m.c.mem, p + va % 0x1000, i.size));
    var body := LoadOps(i, d) + Written(rc1, i.dst, d);
    var h1 := ApplyAll(env, [PageOffset(1)], h);
    var h2 := ApplyAll(env, body, h1);
    OffsetRefines(env, rc, h, r, va, p, i.size);
    WriteRegHost(rc, i.dst, 9);
    LoadComputes(env, i, d, h1, p + va % 0x1000);
    WriteAnySettles(env, rc, i.dst, h1, LoadOps(i, d), v, r);
    CounterScratch(env, rc1, h2, CReads, SetReg(r, i.dst, v));
    ApplyConcat(env, [PageOffset(1)], body, h);
    ApplyConcat(env, [PageOffset(1)] + body, [AddCounter(CReads, 1)], h);
    assert [PageOffset(1)] + body + [AddCounter(CReads, 1)] == LoadFast(i, rc).0;
  }

  // ------------------------------------------------------------ fast store

  /** A store of `bytes` through scratch register 9. */
  lemma StoreEnds(rc: Cache, h: Host, h1: Host, r: Regs, mem: seq<Byte>)
    requires A64(rc) && Ok(rc) && Represents(rc, h.x, h.m.c.r, r)
    requires h1 == h.(x := h1.x, m := h.m.(c := h.m.c.(mem := mem)))
    requires forall j :: 0 <= j < 32 && j != 9 ==> h1.x[j] == h.x[j]
    ensures Accessed(rc, h, h1, r, mem, 0, 0)
  {
    hide Ok, Represents;
    RepresentsFrame(rc, h.x, h1.x, h.m.c.r, r);
  }

  lemma StoreComputes(env: Env, rc: Cache, i: Ir, v: HReg, h: Host, r: Regs, at: nat)
    requires A64(rc) && Ok(rc) && Represents(rc, h.x, h.m.c.r, r)
    requires AccessSize(i.size) && HostAt(h, 3, 1, i.size) == Some(at)
    ensures
      var h1 := ApplyAll(env, StoreOps(i, v), h);
      Accessed(rc, h, h1, r, StoreBE(h.m.c.mem, at, i.size, Get(h, v)), 0, 0)
  {
    hide Ok, Represents, StoreBE, ApplyAll, Accessed;
    if i.size == 4 {
      StoreWordComputes(env, i, v, h, at);
    } else if i.size == 2 {
      StoreHalfComputes(env, i, v, h, at);
    } else {
      StoreByteComputes(env, i, v, h, at);
    }
    StoreEnds(rc, h, ApplyAll(env, StoreOps(i, v), h), r, StoreBE(h.m.c.mem, at, i.size, Get(h, v)));
  }

  /** `h1` is `h` with bytes stored, register 9 aside. */
  predicate Stored(h: Host, h1: Host, mem: seq<Byte>) {
    && h1 == h.(x := h1.x, m := h.m.(c := h.m.c.(mem := mem)))
    && forall j :: 0 <= j < 32 && j != 9 ==> h1.x[j] == h.x[j]
  }

  lemma StoreWordComputes(env: Env, i: Ir, v: HReg, h: Host, at: nat)
    requires i.size == 4 && HostAt(h, 3, 1, 4) == Some(at)
    ensures Stored(h, ApplyAll(env, StoreOps(i, v), h), StoreBE(h.m.c.mem, at, 4, Get(h, v)))
  {
    hide StoreLE, StoreBE, Reverse, ApplyAll;
    Apply2(env, Rev(9, v), StHost(9, 3, 1, 4), h);
    StoreReverses(h.m.c.mem, at, Get(h, v));
  }

  lemma StoreHalfComputes(env: Env, i: Ir, v: HReg, h: Host, at: nat)
    requires i.size == 2 && HostAt(h, 3, 1, 2) == Some(at)
    ensures Stored(h, ApplyAll(env, StoreOps(i, v), h), StoreBE(h.m.c.mem, at, 2, Get(h, v)))
  {
    hide StoreLE, StoreBE, Reverse16, ApplyAll;
    Apply2(env, Rev16(9, v), StHost(9, 3, 1, 2), h);
    StoreReverses16(h.m.c.mem, at, Get(h, v));
  }

  lemma StoreByteComputes(env: Env, i: Ir, v: HReg, h: Host, at: nat)
    requires i.size == 1 && HostAt(h, 3, 1, 1) == Some(at)
    ensures Stored(h, ApplyAll(env, StoreOps(i, v), h), StoreBE(h.m.c.mem, at, 1, Get(h, v)))
  {
    hide StoreLE, StoreBE, ApplyAll;
    Apply1(env, StHost(v, 3, 1, 1), h);
    StoreByte(h.m.c.mem, at, Get(h, v));
  }

  lemma StoreByte(mem: seq<Byte>, at: nat, v: Word)
    requires at < |mem|
    ensures StoreLE(mem, at, 1, v) == StoreBE(mem, at, 1, v)
  {
  }

  lemma StoreFastRefines(env: Env, rc: Cache, i: Ir, h: Host, r: Regs, va: Word, p: nat)
    requires A64(rc) && Ok(rc) && Represents(rc, h.x, h.m.c.r, r)
    requires Low(h.x[1]) == va && h.x[3] == Page(Some(p)) && AccessSize(i.size)
    requires p + va % 0x1000 + i.size <= |h.m.c.mem|
    ensures
      var (ops, rc1) := StoreFast(i, rc);
      Accessed(rc1, h, ApplyAll(env, ops, h), r,
               StoreBE(h.m.c.mem, p + va % 0x1000, i.size, r[i.right]), 0, 1)
  {
    hide Ok, Represents, ApplyAll, StoreOps, Read, StoreBE;
    var (ops, v, rc1) := Read(rc, i.right, 9);
    var at := p + va % 0x1000;
    var h1 := ApplyAll(env, [PageOffset(1)], h);
    var h2 := ApplyAll(env, ops, h1);
    var h3 := ApplyAll(env, StoreOps(i, v), h2);
    OffsetRefines(env, rc, h, r, va, p, i.size);
    OneRead(env, rc, i.right, 9, h1, r);
    assert h2.x[1] == h1.x[1] && h2.x[3] == h1.x[3];
    StoreComputes(env, rc1, i, v, h2, r, at);
    CounterScratch(env, rc1, h3, CWrites, r);
    ApplyConcat(env, [PageOffset(1)], ops, h);
    ApplyConcat(env, [PageOffset(1)] + ops, StoreOps(i, v), h);
    ApplyConcat(env, [PageOffset(1)] + ops + StoreOps(i, v), [AddCounter(CWrites, 1)], h);
  }

  // ------------------------------------------------------------ the access

  lemma AccessesSim(b: Block, k: nat, rc: Cache, rc1: Cache, h: Host, h1: Host, m: Machine, m': Machine,
                    r: Regs, mem: seq<Byte>, dr: nat, dw: nat, target: Word, budget: nat)
    requires Simulates(b, k, rc, h, m, target, budget) && CanStep(b, k, m, target)
    requires !IsBranch(b.ir[k].op)
    requires Accesses(rc1, h, h1, r, mem, dr, dw)
    requires PlainRetire(m, m', r, m.c.hi, m.c.lo, mem, dr, dw)
    ensures Simulates(b, k + 1, rc1, h1, m', target, budget) && Before(b, k + 1, m', target) && !Left(m, m')
  {
    hide Ok;
    PlainAdvances(b, k, m, m', target, r, m.c.hi, m.c.lo, mem, dr, dw);
  }

  lemma AccessedSim(b: Block, k: nat, rc: Cache, rc1: Cache, h: Host, h1: Host, m: Machine, m': Machine,
                    r: Regs, mem: seq<Byte>, dr: nat, dw: nat, target: Word, budget: nat)
    requires Sim(b, k, rc, h, m, target, budget) && CanStep(b, k, m, target)
    requires !IsBranch(b.ir[k].op)
    requires Accessed(rc1, h, h1, r, mem, dr, dw)
    requires PlainRetire(m, m', r, m.c.hi, m.c.lo, mem, dr, dw)
    ensures Sim(b, k + 1, rc1, h1, m', target, budget) && Before(b, k + 1, m', target) && !Left(m, m')
  {
    AccessesSim(b, k, rc, rc1, h, h1, m, m', r, mem, dr, dw, target, budget);
  }

  lemma LoadFastStep(env: Env, b: Block, k: nat, rc: Cache, h: Host, m: Machine, target: Word, budget: nat,
                     va: Word, p: nat)
    requires Sim(b, k, rc, h, m, target, budget) && CanStep(b, k, m, target) && b.ir[k].op.ILoad?
    requires va == Add(m.c.r[b.ir[k].left], b.ir[k].value) && AccessSize(b.ir[k].size)
    requires Low(h.x[1]) == va && h.x[3] == Page(Some(p))
    requires MemoryAt(m.c.sys, |m.c.mem|, va, b.ir[k].size) == Some(p + va % 0x1000)
    ensures
      var (ops, rc1) := LoadFast(b.ir[k], rc);
      StepResult(b, k, rc1, Eval(env, Ops(ops), h), m, Retire(env, b.words[k], m), target, budget)
  {
    hide Ok, Represents, ApplyAll, LoadFast, Retire, MemoryAt, Extend, LoadBE, Before, Accessed;
    var i := b.ir[k];
    var (ops, rc1) := LoadFast(i, rc);
    var v := Extend(i.size, i.sign, LoadBE(m.c.mem, p + va % 0x1000, i.size));
    DecodeWellFormed(b.words[k]);
    LoadFastRefines(env, rc, i, h, m.c.r, va, p);
    LoadMeaning(env, b, k, m, target, v, p + va % 0x1000);
    AccessedSim(b, k, rc, rc1, h, ApplyAll(env, ops, h), m, Retire(env, b.words[k], m),
                SetReg(m.c.r, i.dst, v), m.c.mem, 1, 0, target, budget);
  }

  lemma LoadMeaning(env: Env, b: Block, k: nat, m: Machine, target: Word, v: Word, at: nat)
    requires CanStep(b, k, m, target) && b.ir[k].op.ILoad? && AccessSize(b.ir[k].size)
    requires MemoryAt(m.c.sys, |m.c.mem|, Add(m.c.r[b.ir[k].left], b.ir[k].value), b.ir[k].size) == Some(at)
    requires v == Extend(b.ir[k].size, b.ir[k].sign, LoadBE(m.c.mem, at, b.ir[k].size))
    ensures PlainRetire(m, Retire(env, b.words[k], m), SetReg(m.c.r, b.ir[k].dst, v),
                        m.c.hi, m.c.lo, m.c.mem, 1, 0)
  {
    hide Retire, Extend, LoadBE, PlainRetire, MemoryAt;
    DecodeWellFormed(b.words[k]);
    RetirePlain(env, b, k, m, target, b.ir[k].dst, v, m.c.hi, m.c.lo, m.c.mem, 1, 0);
  }

  lemma StoreFastStep(env: Env, b: Block, k: nat, rc: Cache, h: Host, m: Machine, target: Word, budget: nat,
                      va: Word, p: nat)
    requires Sim(b, k, rc, h, m, target, budget) && CanStep(b, k, m, target) && b.ir[k].op.IStore?
    requires va == Add(m.c.r[b.ir[k].left], b.ir[k].value) && AccessSize(b.ir[k].size)
    requires Low(h.x[1]) == va && h.x[3] == Page(Some(p))
    requires MemoryAt(m.c.sys, |m.c.mem|, va, b.ir[k].size) == Some(p + va % 0x1000)
    requires RamAt(m.c.sys, va, b.ir[k].size)
    ensures
      var (ops, rc1) := StoreFast(b.ir[k], rc);
      StepResult(b, k, rc1, Eval(env, Ops(ops), h), m, Retire(env, b.words[k], m), target, budget)
  {
    hide Ok, Represents, ApplyAll, StoreFast, Retire, MemoryAt, StoreBE, Before, Accessed, RamAt;
    var i := b.ir[k];
    var (ops, rc1) := StoreFast(i, rc);
    var at := p + va % 0x1000;
    var mem := StoreBE(m.c.mem, at, i.size, m.c.r[i.right]);
    DecodeWellFormed(b.words[k]);
    StoreFastRefines(env, rc, i, h, m.c.r, va, p);
    StoreMeaning(env, b, k, m, target, at);
    AccessedSim(b, k, rc, rc1, h, ApplyAll(env, ops, h), m, Retire(env, b.words[k], m),
                m.c.r, mem, 0, 1, target, budget);
  }

  lemma StoreMeaning(env: Env, b: Block, k: nat, m: Machine, target: Word, at: nat)
    requires CanStep(b, k, m, target) && b.ir[k].op.IStore? && AccessSize(b.ir[k].size)
    requires var va := Add(m.c.r[b.ir[k].left], b.ir[k].value);
             MemoryAt(m.c.sys, |m.c.mem|, va, b.ir[k].size) == Some(at) && RamAt(m.c.sys, va, b.ir[k].size)
    ensures PlainRetire(m, Retire(env, b.words[k], m), m.c.r, m.c.hi, m.c.lo,
                        StoreBE(m.c.mem, at, b.ir[k].size, m.c.r[b.ir[k].right]), 0, 1)
  {
    hide Retire, StoreBE, PlainRetire, MemoryAt, RamAt;
    DecodeWellFormed(b.words[k]);
    RetirePlain(env, b, k, m, target, 0, 0, m.c.hi, m.c.lo,
                StoreBE(m.c.mem, at, b.ir[k].size, m.c.r[b.ir[k].right]), 0, 1);
  }

  lemma FastCacheOk(rc: Cache, i: Ir)
    requires A64(rc) && Ok(rc)
    ensures Ok(LoadFast(i, rc).1) && Ok(StoreFast(i, rc).1)
  {
    hide Ok;
    WriteRegOk(rc, i.dst, 9);
    ReadOk(rc, i.right, 9);
  }

  lemma MemoryStep(env: Env, b: Block, k: nat, rc: Cache, h: Host, m: Machine, target: Word, budget: nat)
    requires Sim(b, k, rc, h, m, target, budget) && CanStep(b, k, m, target) && IsAccess(b.ir[k].op)
    requires Safe(m.c.sys, |m.c.mem|) && TablesMatch(h.rd, h.wr, m.c.sys)
    ensures
      var (code, rc1) := MemoryCode(b, k, rc);
      StepResult(b, k, rc1, Eval(env, code, h), m, Retire(env, b.words[k], m), target, budget)
  {
    hide Ok, Represents, ApplyAll, Retire, MemoryAt, RamAt, Safe, StepResult, Read, LoadFast, StoreFast,
         AddressOps, TableEntry, SlowPath, Decode, Before;
    var i := b.ir[k];
    DecodeWellFormed(b.words[k]);
    var (readOps, base, at) := Read(rc, i.left, 1);
    var (fast, join) := if i.op.IStore? then StoreFast(i, at) else LoadFast(i, at);
    var va := Add(m.c.r[i.left], i.value);
    var write := i.op.IStore?;
    var h1 := ApplyAll(env, readOps + AddressOps(i, base), h);
    var h2 := ApplyAll(env, PageLookup(write), h1);
    PreRefines(env, rc, i, h, m.c.r);
    LookupRefines(env, at, write, va, h1, m.c.r);
    FastCacheOk(at, i);
    PreparedSim(b, k, rc, at, h, h1, m, target, budget);
    PreparedSim(b, k, at, at, h1, h2, m, target, budget);
    SlowPathRefines(env, b, k, at, join, h1, m, target, budget);
    SlowPathRefines(env, b, k, at, join, h2, m, target, budget);
    var entry := TableEntry(m.c.sys, va / 0x1000, write);
    assert h2.x[3] == Page(entry);
    if va % i.size == 0 && entry.Some? {
      TableAccess(m.c.sys, |m.c.mem|, va, i.size, write);
      if write {
        StoreFastStep(env, b, k, at, h2, m, target, budget, va, entry.value);
      } else {
        LoadFastStep(env, b, k, at, h2, m, target, budget, va, entry.value);
      }
    }
  }
}
