/** The block-local register cache of the native back ends: which host register holds
    which guest register, and which of them must be written back. */
module RegCache {
  import opened Words
  import opened Wrappers
  import opened Mips
  import opened HostCode

  const FREE: nat := 32

  /** `regs` lists the host registers set aside for the cache; `host`, `dirty` and `guest`
      are the source's three arrays. */
  datatype Cache = Cache(regs: seq<HReg>, host: seq<int>, dirty: seq<bool>, guest: seq<nat>)

  predicate DistinctRegs(regs: seq<HReg>) {
    && (forall i :: 0 <= i < |regs| ==> regs[i] != 0 && regs[i] < 31)
    && (forall i, j :: 0 <= i < j < |regs| ==> regs[i] != regs[j])
  }

  predicate Shape(rc: Cache) {
    && |rc.host| == 32 && |rc.dirty| == 32 && |rc.guest| == |rc.regs| && DistinctRegs(rc.regs)
    && (forall g :: 0 <= g < 32 ==> -1 <= rc.host[g] < 32)
    && (forall g :: 0 <= g < 32 && rc.dirty[g] ==> rc.host[g] != -1)
  }

  /** The bookkeeping is consistent: hosts are cache registers, no two guests share one,
      slots and hosts point at each other, and only cached registers are dirty. */
  predicate Ok(rc: Cache) {
    && Shape(rc)
    && rc.host[0] == -1
    && (forall g :: 0 <= g < 32 ==> rc.host[g] == -1 || rc.host[g] in rc.regs)
    && (forall g1, g2 :: 0 <= g1 < g2 < 32 && rc.host[g1] != -1 ==> rc.host[g1] != rc.host[g2])
    && (forall s :: 0 <= s < |rc.guest| && rc.guest[s] == FREE ==> rc.regs[s] !in rc.host)
    && (forall s :: 0 <= s < |rc.guest| && rc.guest[s] != FREE ==>
          rc.guest[s] < 32 && rc.host[rc.guest[s]] == rc.regs[s])
  }

  function Reset(regs: seq<HReg>): Cache {
    Cache(regs, seq(32, _ => -1), seq(32, _ => false), seq(|regs|, _ => FREE))
  }

  /** First free slot from `s` on. */
  function FreeSlot(rc: Cache, s: nat): (r: Option<nat>)
    requires s <= |rc.guest|
    ensures r.Some? ==> s <= r.value < |rc.guest| && rc.guest[r.value] == FREE
    decreases |rc.guest| - s
  {
    if s == |rc.guest| then None
    else if rc.guest[s] == FREE then Some(s)
    else FreeSlot(rc, s + 1)
  }

  function Bind(rc: Cache, s: nat, g: Reg): Cache
    requires Shape(rc) && s < |rc.guest|
  {
    rc.(guest := rc.guest[s := g], host := rc.host[g := rc.regs[s]])
  }

  /** Host register number of guest `g`, or -1; -1 also when the cache is full. */
  function Alloc(rc: Cache, g: Reg): (r: (int, Cache))
    requires Shape(rc)
    ensures -1 <= r.0 < 32 && Shape(r.1) && r.1.regs == rc.regs
    ensures (r.0 != -1 ==> r.1.host[g] == r.0) && (r.0 == -1 ==> r.1 == rc)
  {
    match FreeSlot(rc, 0)
    case Some(s) =>
      var h: int := rc.regs[s];
      (h, Bind(rc, s, g))
    case None =>
      var none: int := -1;
      (none, rc)
  }

  /** Where to read guest `g`: emitted loads, the host register, the cache after. */
  function Read(rc: Cache, g: Reg, scratch: HReg): (r: (seq<HOp>, HReg, Cache))
    requires Shape(rc)
    ensures Shape(r.2) && r.2.regs == rc.regs
  {
    if g == 0 then ([], 31, rc)
    else if rc.host[g] >= 0 then ([], rc.host[g], rc)
    else
      var (host, rc1) := Alloc(rc, g);
      var h := if host < 0 then scratch else host;
      ([LdGpr(h, g)], h, rc1)
  }

  function WriteReg(rc: Cache, g: Reg, scratch: HReg): (r: (HReg, Cache))
    requires Shape(rc)
    ensures Shape(r.1) && r.1.regs == rc.regs
  {
    if g == 0 then (scratch, rc)
    else
      var (host, rc1) := if rc.host[g] < 0 then Alloc(rc, g) else (rc.host[g], rc);
      if host < 0 then (scratch, rc) else (host, rc1.(dirty := rc1.dirty[g := true]))
  }

  function Written(rc: Cache, g: Reg, h: HReg): seq<HOp>
    requires Shape(rc)
  {
    if g != 0 && h != rc.host[g] then [StGpr(h, g)] else []
  }

  /** Stores of the dirty registers from `g` on. */
  function Writeback(rc: Cache, g: nat): seq<HOp>
    requires Shape(rc) && 1 <= g <= 32
    decreases 32 - g
  {
    if g == 32 then []
    else (if rc.dirty[g] then [StGpr(rc.host[g], g)] else []) + Writeback(rc, g + 1)
  }

  /** Reloads of everything cached, from `g` on. */
  function Restore(rc: Cache, g: nat): seq<HOp>
    requires Shape(rc) && 1 <= g <= 32
    decreases 32 - g
  {
    if g == 32 then []
    else (if rc.host[g] >= 0 then [LdGpr(rc.host[g], g)] else []) + Restore(rc, g + 1)
  }

  lemma ResetOk(regs: seq<HReg>)
    requires DistinctRegs(regs)
    ensures Ok(Reset(regs))
  {
  }

  lemma BindOk(rc: Cache, s: nat, g: Reg)
    requires Ok(rc) && s < |rc.guest| && rc.guest[s] == FREE && g != 0 && rc.host[g] == -1
    ensures Ok(Bind(rc, s, g))
  {
    var rc1 := Bind(rc, s, g);
    forall g1 | 0 <= g1 < 32 && g1 != g
      ensures rc.host[g1] != rc.regs[s]
    {
      assert rc.host[g1] in rc.host;
    }
    forall t | 0 <= t < |rc1.guest| && rc1.guest[t] == FREE
      ensures rc1.regs[t] !in rc1.host
    {
      assert t != s && rc.regs[t] !in rc.host;
    }
  }

  lemma ReadOk(rc: Cache, g: Reg, scratch: HReg)
    requires Ok(rc)
    ensures
      var (ops, h, rc1) := Read(rc, g, scratch);
      && Ok(rc1) && rc1.regs == rc.regs
      && (h == 31 || h == scratch || (h in rc.regs && rc1.host[g] == h))
      && (h == 31 ==> g == 0 || scratch == 31)
      && (forall k :: 0 <= k < 32 && rc.host[k] != -1 ==> rc1.host[k] == rc.host[k])
      && rc1.dirty == rc.dirty
  {
    var free := FreeSlot(rc, 0);
    if g != 0 && rc.host[g] < 0 && free.Some? {
      BindOk(rc, free.value, g);
    }
  }

  lemma WriteRegOk(rc: Cache, g: Reg, scratch: HReg)
    requires Ok(rc) && scratch !in rc.regs
    ensures
      var (h, rc1) := WriteReg(rc, g, scratch);
      && Ok(rc1) && rc1.regs == rc.regs
      && (h == scratch || (g != 0 && h in rc.regs && rc1.host[g] == h && rc1.dirty[g]))
      && (h == scratch ==> rc1 == rc && rc.host[g] == -1)
      && (forall k :: 0 <= k < 32 && k != g ==> rc1.host[k] == rc.host[k] && rc1.dirty[k] == rc.dirty[k])
      && (forall k :: 0 <= k < 32 && rc.host[k] != -1 ==> rc1.host[k] == rc.host[k])
  {
    var free := FreeSlot(rc, 0);
    if g != 0 && rc.host[g] < 0 && free.Some? {
      BindOk(rc, free.value, g);
    }
  }

  // ------------------------------------------------------------ what the cache means

  /** The guest registers `r` are represented by the host registers and the memory image:
      a dirty cached register is authoritative, a clean one equals memory. */
  predicate Represents(rc: Cache, x: Vals, image: Regs, r: Regs) {
    && Shape(rc)
    && r[0] == 0 && image[0] == 0
    && forall g :: 1 <= g < 32 ==>
         if 0 <= rc.host[g] < 32 then
           Low(x[rc.host[g]]) == r[g] && (!rc.dirty[g] ==> image[g] == r[g])
         else image[g] == r[g]
  }

  predicate SameCached(rc: Cache, x: Vals, x': Vals) {
    forall j :: 0 <= j < |rc.regs| ==> x'[rc.regs[j]] == x[rc.regs[j]]
  }

  lemma CachedReg(rc: Cache, g: Reg)
    requires Ok(rc) && rc.host[g] != -1
    ensures exists j :: 0 <= j < |rc.regs| && rc.regs[j] == rc.host[g]
  {
  }

  /** Scratch registers do not matter. */
  lemma RepresentsFrame(rc: Cache, x: Vals, x': Vals, image: Regs, r: Regs)
    requires Ok(rc) && Represents(rc, x, image, r) && SameCached(rc, x, x')
    ensures Represents(rc, x', image, r)
  {
    forall g | 1 <= g < 32 && rc.host[g] >= 0
      ensures x'[rc.host[g]] == x[rc.host[g]]
    {
      CachedReg(rc, g);
    }
  }

  /** `x1` differs from `x` only in cache registers that held nothing, and in `scratch`. */
  predicate OnlyLoaded(rc: Cache, x: Vals, x1: Vals, scratch: HReg) {
    && Shape(rc)
    && (forall j :: 0 <= j < 32 && j !in rc.regs && j != scratch ==> x1[j] == x[j])
    && (forall k :: 0 <= k < 32 && 0 <= rc.host[k] < 32 ==> x1[rc.host[k]] == x[rc.host[k]])
  }

  /** A miss loads the register from memory into a free host, or into the scratch. */
  lemma MissRefines(rc: Cache, g: Reg, scratch: HReg, x: Vals, image: Regs, r: Regs)
    requires Ok(rc) && Represents(rc, x, image, r) && scratch !in rc.regs && scratch != 31
    requires g != 0 && rc.host[g] == -1
    ensures
      var (ops, host, rc1) := Read(rc, g, scratch);
      var x1 := x[host := W(image[g])];
      Ok(rc1) && Represents(rc1, x1, image, r) && OnlyLoaded(rc, x, x1, scratch)
  {
    ReadOk(rc, g, scratch);
    var (ops, host, rc1) := Read(rc, g, scratch);
    forall k | 0 <= k < 32 && rc.host[k] != -1
      ensures rc.host[k] != host
    {
      if host != scratch {
        assert k != g && rc1.host[k] == rc.host[k];
      }
    }
  }

  /** A read delivers the guest register and disturbs nothing but its own host. */
  lemma ReadRefines(env: Env, rc: Cache, g: Reg, scratch: HReg, h: Host, r: Regs)
    requires Ok(rc) && Represents(rc, h.x, h.m.c.r, r) && scratch !in rc.regs && scratch != 31
    ensures
      var (ops, host, rc1) := Read(rc, g, scratch);
      var h1 := ApplyAll(env, ops, h);
      && Get(h1, host) == r[g]
      && Ok(rc1) && Represents(rc1, h1.x, h1.m.c.r, r)
      && h1 == h.(x := h1.x)
      && OnlyLoaded(rc, h.x, h1.x, scratch)
  {
    var (ops, host, rc1) := Read(rc, g, scratch);
    if g != 0 && rc.host[g] == -1 {
      Apply1(env, ops[0], h);
      MissRefines(rc, g, scratch, h.x, h.m.c.r, r);
    } else {
      assert h.(x := h.x) == h;
    }
  }

  /** `h1` follows `h` with register `d` changed and the other cached hosts kept. */
  predicate OnlyHost(rc: Cache, h: Host, h1: Host, d: HReg) {
    && h1.m.c.r == h.m.c.r
    && forall j :: 0 <= j < |rc.regs| && rc.regs[j] != d ==> h1.x[rc.regs[j]] == h.x[rc.regs[j]]
  }

  lemma CachedWrite(rc: Cache, g: Reg, scratch: HReg, h: Host, h1: Host, v: Word, r: Regs)
    requires Ok(rc) && Represents(rc, h.x, h.m.c.r, r) && scratch !in rc.regs && g != 0
    requires WriteReg(rc, g, scratch).0 != scratch
    requires OnlyHost(rc, h, h1, WriteReg(rc, g, scratch).0) && Get(h1, WriteReg(rc, g, scratch).0) == v
    ensures Represents(WriteReg(rc, g, scratch).1, h1.x, h1.m.c.r, SetReg(r, g, v))
  {
    WriteRegOk(rc, g, scratch);
    var (d, rc1) := WriteReg(rc, g, scratch);
    forall k | 1 <= k < 32 && rc1.host[k] >= 0 && k != g
      ensures h1.x[rc1.host[k]] == h.x[rc1.host[k]]
    {
      CachedReg(rc1, k);
    }
  }

  lemma UncachedWrite(rc: Cache, g: Reg, scratch: HReg, h: Host, h1: Host, v: Word, r: Regs)
    requires Ok(rc) && Represents(rc, h.x, h.m.c.r, r) && scratch !in rc.regs
    requires rc.host[g] == -1 && OnlyHost(rc, h, h1, scratch)
    ensures Represents(rc, h1.x, SetReg(h1.m.c.r, g, v), SetReg(r, g, v))
  {
    forall k | 1 <= k < 32 && rc.host[k] >= 0
      ensures h1.x[rc.host[k]] == h.x[rc.host[k]]
    {
      CachedReg(rc, k);
    }
  }

  /** Completing a write: once `d` holds the value, the guest register has it. */
  lemma WriteRefines(env: Env, rc: Cache, g: Reg, scratch: HReg, h: Host, h1: Host, v: Word, r: Regs)
    requires Ok(rc) && Represents(rc, h.x, h.m.c.r, r) && scratch !in rc.regs && scratch != 31
    requires OnlyHost(rc, h, h1, WriteReg(rc, g, scratch).0)
    requires g != 0 ==> Get(h1, WriteReg(rc, g, scratch).0) == v
    ensures
      var (d, rc1) := WriteReg(rc, g, scratch);
      var h2 := ApplyAll(env, Written(rc1, g, d), h1);
      && Ok(rc1) && rc1.regs == rc.regs
      && Represents(rc1, h2.x, h2.m.c.r, SetReg(r, g, v))
      && h2 == h1.(m := h1.m.(c := h1.m.c.(r := h2.m.c.r)))
  {
    WriteRegOk(rc, g, scratch);
    hide Ok, Represents, ApplyAll, Written, WriteReg, OnlyHost;
    var (d, rc1) := WriteReg(rc, g, scratch);
    WrittenStores(env, rc1, g, d, h1);
    if d != scratch {
      CachedWrite(rc, g, scratch, h, h1, v, r);
    } else {
      UncachedWrite(rc, g, scratch, h, h1, v, r);
    }
  }

  lemma WrittenStores(env: Env, rc: Cache, g: Reg, d: HReg, h: Host)
    requires Shape(rc)
    ensures
      ApplyAll(env, Written(rc, g, d), h) ==
      if g != 0 && d != rc.host[g] then WithCpu(h, h.m.c.(r := SetReg(h.m.c.r, g, Get(h, d)))) else h
  {
    hide ApplyAll;
    if g != 0 && d != rc.host[g] {
      Apply1(env, StGpr(d, g), h);
    } else {
      ApplyNone(env, h);
    }
  }

  lemma WritebackOne(env: Env, rc: Cache, g: nat, h: Host)
    requires Ok(rc) && 1 <= g < 32
    ensures
      var h1 := ApplyAll(env, if rc.dirty[g] then [StGpr(rc.host[g], g)] else [], h);
      if rc.dirty[g] then h1 == WithCpu(h, h.m.c.(r := h.m.c.r[g := Low(h.x[rc.host[g]])])) else h1 == h
  {
    if rc.dirty[g] {
      HostAlone(rc, g);
      Apply1(env, StGpr(rc.host[g], g), h);
    } else {
      ApplyNone(env, h);
    }
  }

  /** Registers before `g` are in memory; from `g` on the dirty ones are in their hosts. */
  predicate Due(rc: Cache, g: nat, h: Host, r: Regs)
    requires Shape(rc)
  {
    && r[0] == 0 && h.m.c.r[0] == 0
    && (forall k :: 1 <= k < 32 && rc.host[k] >= 0 ==> Low(h.x[rc.host[k]]) == r[k])
    && (forall k :: g <= k < 32 && !rc.dirty[k] ==> h.m.c.r[k] == r[k])
    && (forall k :: 1 <= k < g && k < 32 ==> h.m.c.r[k] == r[k])
  }

  lemma DueNext(rc: Cache, g: nat, h: Host, h1: Host, r: Regs)
    requires Shape(rc) && 1 <= g < 32 && Due(rc, g, h, r)
    requires
      if rc.dirty[g] then
        0 <= rc.host[g] < 32 && h1 == WithCpu(h, h.m.c.(r := h.m.c.r[g := Low(h.x[rc.host[g]])]))
      else h1 == h
    ensures Due(rc, g + 1, h1, r)
  {
  }

  lemma DueDone(rc: Cache, h: Host, r: Regs)
    requires Shape(rc) && Due(rc, 32, h, r)
    ensures h == WithCpu(h, h.m.c.(r := r))
  {
    assert h.m.c.r == r;
  }

  lemma {:induction false} WritebackDue(env: Env, rc: Cache, g: nat, h: Host, r: Regs)
    requires Ok(rc) && 1 <= g <= 32 && Due(rc, g, h, r)
    ensures ApplyAll(env, Writeback(rc, g), h) == WithCpu(h, h.m.c.(r := r))
    decreases 32 - g
  {
    assert Shape(rc);
    hide Ok, ApplyAll, Due;
    if g == 32 {
      ApplyNone(env, h);
      DueDone(rc, h, r);
    } else {
      var store: seq<HOp> := if rc.dirty[g] then [StGpr(rc.host[g], g)] else [];
      var h1 := ApplyAll(env, store, h);
      WritebackOne(env, rc, g, h);
      DueNext(rc, g, h, h1, r);
      ApplyConcat(env, store, Writeback(rc, g + 1), h);
      WritebackDue(env, rc, g + 1, h1, r);
    }
  }

  /** Writing back makes the memory image the guest's registers, from `g` on. */
  lemma WritebackRefines(env: Env, rc: Cache, g: nat, h: Host, r: Regs)
    requires Ok(rc) && 1 <= g <= 32 && r[0] == 0 && h.m.c.r[0] == 0
    requires forall k :: 1 <= k < 32 && rc.host[k] >= 0 ==> Low(h.x[rc.host[k]]) == r[k]
    requires forall k :: g <= k < 32 && !rc.dirty[k] ==> h.m.c.r[k] == r[k]
    requires forall k :: 1 <= k < g ==> h.m.c.r[k] == r[k]
    ensures ApplyAll(env, Writeback(rc, g), h) == WithCpu(h, h.m.c.(r := r))
  {
    assert Due(rc, g, h, r);
    hide ApplyAll, Writeback;
    WritebackDue(env, rc, g, h, r);
  }

  lemma HostAlone(rc: Cache, g: Reg)
    requires Ok(rc) && rc.host[g] >= 0
    ensures 0 < rc.host[g] < 31
    ensures forall k :: 0 <= k < 32 && k != g ==> rc.host[k] != rc.host[g]
  {
    assert rc.host[g] in rc.regs;
  }

  /** No register from `g` on is cached in host `j`. */
  predicate Unused(rc: Cache, g: nat, j: int)
    requires Shape(rc)
  {
    forall k :: g <= k < 32 ==> rc.host[k] != j
  }

  lemma RestoreOne(env: Env, rc: Cache, g: nat, h: Host)
    requires Ok(rc) && 1 <= g < 32
    ensures
      var h1 := ApplyAll(env, if rc.host[g] >= 0 then [LdGpr(rc.host[g], g)] else [], h);
      && h1 == h.(x := h1.x)
      && (rc.host[g] >= 0 ==> h1.x[rc.host[g]] == W(h.m.c.r[g]))
      && (forall j :: 0 <= j < 32 && j != rc.host[g] ==> h1.x[j] == h.x[j])
      && (rc.host[g] >= 0 ==> forall k :: 0 <= k < 32 && k != g ==> rc.host[k] != rc.host[g])
  {
    if rc.host[g] >= 0 {
      HostAlone(rc, g);
      hide Ok, ApplyAll;
      Apply1(env, LdGpr(rc.host[g], g), h);
    } else {
      ApplyNone(env, h);
    }
  }

  /** The first reload, then the rest of them. */
  lemma RestoreJoins(rc: Cache, g: nat, h: Host, h0: Host, h1: Host)
    requires Shape(rc) && 1 <= g < 32
    requires h0 == h.(x := h0.x) && h1 == h0.(x := h1.x)
    requires rc.host[g] >= 0 ==> h0.x[rc.host[g]] == W(h.m.c.r[g])
    requires rc.host[g] >= 0 ==> forall k :: 0 <= k < 32 && k != g ==> rc.host[k] != rc.host[g]
    requires forall j :: 0 <= j < 32 && j != rc.host[g] ==> h0.x[j] == h.x[j]
    requires forall k :: g + 1 <= k < 32 && rc.host[k] >= 0 ==> h1.x[rc.host[k]] == W(h.m.c.r[k])
    requires forall j :: 0 <= j < 32 && Unused(rc, g + 1, j) ==> h1.x[j] == h0.x[j]
    ensures h1 == h.(x := h1.x)
    ensures forall k :: g <= k < 32 && rc.host[k] >= 0 ==> h1.x[rc.host[k]] == W(h.m.c.r[k])
    ensures forall j :: 0 <= j < 32 && Unused(rc, g, j) ==> h1.x[j] == h.x[j]
  {
    assert rc.host[g] >= 0 ==> Unused(rc, g + 1, rc.host[g]);
    forall j | 0 <= j < 32 && Unused(rc, g, j)
      ensures h1.x[j] == h.x[j]
    {
      assert Unused(rc, g + 1, j) && j != rc.host[g];
    }
  }

  lemma {:induction false} RestoreRefines(env: Env, rc: Cache, g: nat, h: Host)
    requires Ok(rc) && 1 <= g <= 32
    ensures
      var h1 := ApplyAll(env, Restore(rc, g), h);
      && h1 == h.(x := h1.x)
      && (forall k :: g <= k < 32 && rc.host[k] >= 0 ==> h1.x[rc.host[k]] == W(h.m.c.r[k]))
      && (forall j :: 0 <= j < 32 && Unused(rc, g, j) ==> h1.x[j] == h.x[j])
    decreases 32 - g
  {
    if g < 32 {
      RestoreOne(env, rc, g, h);
      hide Ok, ApplyAll, Apply, Unused;
      var load: seq<HOp> := if rc.host[g] >= 0 then [LdGpr(rc.host[g], g)] else [];
      var h0 := ApplyAll(env, load, h);
      ApplyConcat(env, load, Restore(rc, g + 1), h);
      RestoreRefines(env, rc, g + 1, h0);
      RestoreJoins(rc, g, h, h0, ApplyAll(env, Restore(rc, g + 1), h0));
    }
  }
}
