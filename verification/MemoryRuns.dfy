/** Whole runs of memory instructions by any processes over one RAM: what one
    process wrote is what it reads. */
module MemoryRuns {
  import opened Wrappers
  import opened Pte
  import opened Machine
  import opened PageTable
  import opened Memory
  import opened Regions

  function WithMm(m: State, p: nat, mm: Mm): State
    requires p < |m.mms|
  {
    m.(mms := m.mms[p := mm])
  }

  /** __read and __write. */
  function Read(m: State, p: nat, vmaid: int, rgid: int, offset: nat): (State, Option<Byte>)
    requires p < |m.mms|
  {
    var (mm, t) := Target(m.mms[p], vmaid, rgid, offset);
    var m1 := WithMm(m, p, mm);
    if t.None? then (m1, None) else PgGetval(m1, p, t.value)
  }

  function Write(m: State, p: nat, vmaid: int, rgid: int, offset: nat, v: Byte): (State, bool)
    requires p < |m.mms|
  {
    var (mm, t) := Target(m.mms[p], vmaid, rgid, offset);
    var m1 := WithMm(m, p, mm);
    if t.None? then (m1, false) else PgSetval(m1, p, t.value, v)
  }

  /** A process as init_mm leaves it. */
  function NewMm(): Mm {
    Mm(seq(ENTRIES, _ => 0), PAGE, 0x10_0000, seq(SYMTBL, _ => Rg(0, 0)), [], [])
  }

  /** A memory instruction of process p, where the library calls pass area 0, or
      the loader starting process p. */
  datatype Op =
    | OpStart(p: nat)
    | OpAlloc(p: nat, rgid: int, size: nat)
    | OpFree(p: nat, rgid: int)
    | OpRead(p: nat, rgid: int, offset: nat)
    | OpWrite(p: nat, rgid: int, offset: nat, value: Byte)

  /** Each instruction is one atomic step; processes are started in pid order. */
  function Step(m: State, op: Op): State {
    if op.p > |m.mms| then m
    else if op.p == |m.mms| then if op.OpStart? then m.(mms := m.mms + [NewMm()]) else m
    else match op
      case OpStart(_) => m
      case OpAlloc(p, rgid, size) => WithMm(m, p, Alloc(m.mms[p], 0, rgid, size).0)
      case OpFree(p, rgid) => WithMm(m, p, Free(m.mms[p], rgid).0)
      case OpRead(p, rgid, offset) => Read(m, p, 0, rgid, offset).0
      case OpWrite(p, rgid, offset, v) => Write(m, p, 0, rgid, offset, v).0
  }

  function Run(m: State, ops: seq<Op>): State
    decreases |ops|
  {
    if ops == [] then m else Run(Step(m, ops[0]), ops[1..])
  }

  // ---- The invariant over every run -----------------------------------------

  lemma AllocShape(mm: Mm, vmaid: int, rgid: int, size: nat)
    ensures var mm' := Alloc(mm, vmaid, rgid, size).0; mm'.pgd == mm.pgd && mm'.fifoPgn == mm.fifoPgn
  {
    hide AlignUp;
  }

  lemma TargetShape(mm: Mm, vmaid: int, rgid: int, offset: nat)
    ensures var mm' := Target(mm, vmaid, rgid, offset).0; mm'.pgd == mm.pgd && mm'.fifoPgn == mm.fifoPgn
  {
    hide Alloc;
    AllocShape(mm, vmaid, rgid, 100);
  }

  /** Region bookkeeping is invisible to the page tables and to the contents. */
  lemma RegionStep(m: State, tab: Owners, pages: Owners, p: nat, mm: Mm)
    requires MemInv(m, tab, pages) && p < |m.mms| && mm.pgd == m.mms[p].pgd && mm.fifoPgn == m.mms[p].fifoPgn
    ensures MemInv(WithMm(m, p, mm), tab, pages)
    ensures Keeps(m, WithMm(m, p, mm)) && Keeps(WithMm(m, p, mm), m)
  {
    hide Present, Fpn, GetSlot, Indices, Content;
    var m' := WithMm(m, p, mm);
    SameButFree(m, m', tab, pages);
    forall x: nat ensures FrameAt(m', tab, pages, {}, x) { assert FrameAt(m, tab, pages, {}, x); }
    forall q: nat, g: nat ensures FifoAt(m', pages, q, g) { assert FifoAt(m, pages, q, g); }
    SamePagesKeep(m, tab, pages, m', tab, pages, (0, []));
    SamePagesKeep(m', tab, pages, m, tab, pages, (0, []));
  }

  /** Whether op is a write by q that reaches the cell q sees at address a. */
  predicate Hits(m: State, op: Op, q: nat, a: nat) {
    && op.OpWrite? && op.p == q < |m.mms|
    && var t := Target(m.mms[q], 0, op.rgid, op.offset).1;
       t.Some? && t.value % SPACE == a % SPACE
  }

  /** A new process owns nothing and disturbs nobody. */
  lemma StartOk(m: State, tab: Owners, pages: Owners)
    requires MemInv(m, tab, pages)
    ensures var m' := m.(mms := m.mms + [NewMm()]); MemInv(m', tab, pages) && Keeps(m, m')
  {
    hide Present, Fpn, Indices, Le, Content;
    var m' := m.(mms := m.mms + [NewMm()]);
    var n := |m.mms|;
    ZeroNotPresent();
    forall k: Key ensures KeyOk(m', tab, k) { assert KeyOk(m, tab, k); }
    forall k: Key ensures PageKeyOk(m', tab, pages, k) { assert PageKeyOk(m, tab, pages, k); }
    forall p: nat, path: seq<nat>, i: nat ensures LinkedAt(m', tab, p, path, i) {
      assert LinkedAt(m, tab, p, path, i) && KeyOk(m, tab, (p, path)) && KeyOk(m, tab, (p, path + [i]));
      if p == n && i < ENTRIES { assert GetSlot(m', PgdSlot(p, i)) == 0; }
    }
    forall p: nat, path: seq<nat>, i: nat ensures MappedAt(m', tab, pages, p, path, i) {
      assert MappedAt(m, tab, pages, p, path, i);
    }
    forall x: nat ensures FrameAt(m', tab, pages, {}, x) { assert FrameAt(m, tab, pages, {}, x); }
    forall q: nat, g: nat ensures FifoAt(m', pages, q, g) {
      assert FifoAt(m, pages, q, g);
      if q == n { NoPages(m, tab, pages, q, Indices(g)); }
    }
    SamePagesKeep(m, tab, pages, m', tab, pages, (0, []));
  }

  lemma NoPages(m: State, tab: Owners, pages: Owners, p: nat, ix: seq<nat>)
    requires Owned(m, tab, pages, {}) && p >= |m.mms|
    ensures (p, ix) !in pages
  {
    hide GetSlot;
    assert PageKeyOk(m, tab, pages, (p, ix));
    if |ix| == 5 { assert KeyOk(m, tab, (p, ix[..4])); }
  }

  /** Every instruction, whatever its outcome, keeps the frames partitioned, the
      page lists exact and every visible byte of every process that it is not a
      write to. */
  lemma StepOk(m: State, tab: Owners, pages: Owners, op: Op)
    returns (tab': Owners, pages': Owners)
    requires MemInv(m, tab, pages)
    ensures MemInv(Step(m, op), tab', pages') && |Step(m, op).mms| >= |m.mms| && |Step(m, op).ram| == |m.ram|
    ensures forall q: nat, a: nat :: q < |m.mms| && Content(m, q, a).Some? && !Hits(m, op, q, a)
                                     ==> Content(Step(m, op), q, a) == Content(m, q, a)
  {
    hide Content, MemInv, Alloc, Target, PgGetval, PgSetval;
    tab', pages' := tab, pages;
    if op.p < |m.mms| {
      var p, mm := op.p, m.mms[op.p];
      match op
      case OpStart(_) =>
      case OpAlloc(_, rgid, size) =>
        AllocShape(mm, 0, rgid, size);
        RegionStep(m, tab, pages, p, Alloc(mm, 0, rgid, size).0);
      case OpFree(_, rgid) =>
        RegionStep(m, tab, pages, p, Free(mm, rgid).0);
      case OpRead(_, rgid, offset) =>
        var (mm1, t) := Target(mm, 0, rgid, offset);
        TargetShape(mm, 0, rgid, offset);
        RegionStep(m, tab, pages, p, mm1);
        if t.Some? { tab', pages' := PgGetvalOk(WithMm(m, p, mm1), tab, pages, p, t.value); }
      case OpWrite(_, rgid, offset, v) =>
        var (mm1, t) := Target(mm, 0, rgid, offset);
        TargetShape(mm, 0, rgid, offset);
        RegionStep(m, tab, pages, p, mm1);
        if t.Some? { tab', pages' := PgSetvalOk(WithMm(m, p, mm1), tab, pages, p, t.value, v); }
    } else {
      StartOk(m, tab, pages);
    }
  }

  /** No instruction of the run writes the cell that p sees at address a. */
  predicate Untouched(m: State, ops: seq<Op>, p: nat, a: nat)
    decreases |ops|
  {
    ops == [] || (!Hits(m, ops[0], p, a) && Untouched(Step(m, ops[0]), ops[1..], p, a))
  }

  /** In every reachable state the frames are partitioned, whatever ran and
      whatever failed on the way; and a byte stays as it was until a write of the
      same process to the same low 22 address bits. */
  lemma {:induction false} RunOk(m: State, tab: Owners, pages: Owners, ops: seq<Op>, p: nat, a: nat)
    returns (tab': Owners, pages': Owners)
    requires MemInv(m, tab, pages)
    ensures MemInv(Run(m, ops), tab', pages') && |Run(m, ops).mms| >= |m.mms| && |Run(m, ops).ram| == |m.ram|
    ensures p < |m.mms| && Content(m, p, a).Some? && Untouched(m, ops, p, a)
            ==> Content(Run(m, ops), p, a) == Content(m, p, a)
    decreases |ops|
  {
    hide Content, MemInv, Step, Hits;
    tab', pages' := tab, pages;
    if ops != [] {
      tab', pages' := StepOk(m, tab, pages, ops[0]);
      tab', pages' := RunOk(Step(m, ops[0]), tab', pages', ops[1..], p, a);
    }
  }

  // ---- Regions over runs ----------------------------------------------------

  /** How many bytes of fresh region a request for n bytes under id rgid takes. */
  function Need(mm: Mm, rgid: int, n: nat): nat {
    if 0 <= rgid < SYMTBL && Unallocated(mm.symrgtbl[rgid]) then n else 0
  }

  /** How many bytes of fresh region op takes in process p. */
  function Demand(mm: Mm, op: Op, p: nat): nat {
    if op.p != p then 0
    else match op
      case OpStart(_) => 0
      case OpAlloc(_, rgid, size) => Need(mm, rgid, size)
      case OpFree(_, _) => 0
      case OpRead(_, rgid, _) => Need(mm, rgid, 100)
      case OpWrite(_, rgid, _, _) => Need(mm, rgid, 100)
  }

  /** Process p never takes more than the 4 MB its page numbers can tell
      apart. */
  predicate Within(m: State, ops: seq<Op>, p: nat)
    decreases |ops|
  {
    ops == [] || (
      && (p < |m.mms| ==> m.mms[p].sbrk + Demand(m.mms[p], ops[0], p) <= SPACE)
      && Within(Step(m, ops[0]), ops[1..], p))
  }

  ghost predicate Sound(mm: Mm) { RegionsOk(mm) && mm.sbrk <= SPACE }

  lemma SmallFits(mm: Mm, size: nat)
    requires Sound(mm) && mm.sbrk + size <= SPACE
    ensures Fits(mm, size)
  {
    assert (size + 4095) / 4096 * 4096 <= size + 4095;
  }

  lemma NewIsSound()
    ensures Sound(NewMm())
  {
  }

  /** A process that has taken at most 4 MB keeps its regions sound. */
  lemma StepSound(m: State, op: Op, p: nat)
    requires p < |m.mms| ==> Sound(m.mms[p]) && m.mms[p].sbrk + Demand(m.mms[p], op, p) <= SPACE
    ensures p < |Step(m, op).mms| ==> Sound(Step(m, op).mms[p])
  {
    hide Alloc, Target, RegionsOk, Read, Write, Fits;
    NewIsSound();
    if op.p < |m.mms| && p < |m.mms| {
      var mm := m.mms[p];
      match op
      case OpStart(_) =>
      case OpAlloc(_, rgid, size) =>
        if op.p == p {
          if Alloc(mm, 0, rgid, size).1.Some? {
            AllocTakesUnallocated(mm, rgid, size);
            SmallFits(mm, size);
            AllocKeepsRegionsIff(mm, 0, rgid, size);
            FitsSum(mm, size);
          } else {
            AllocFailure(mm, 0, rgid, size);
          }
        }
      case OpFree(_, rgid) =>
        if op.p == p { FreeKeepsRegions(mm, rgid); }
      case OpRead(_, rgid, offset) => AccessSound(m, op.p, rgid, offset, 0, p);
      case OpWrite(_, rgid, offset, v) => AccessSound(m, op.p, rgid, offset, v, p);
    } else if op.p < |m.mms| {
      StepCount(m, op);
    }
  }

  /** Only a start adds a process. */
  lemma StepCount(m: State, op: Op)
    requires op.p < |m.mms|
    ensures |Step(m, op).mms| == |m.mms|
  {
    hide Alloc, Target, PgGetval, PgSetval;
    match op
    case OpRead(p, rgid, offset) =>
      var (mm1, t) := Target(m.mms[p], 0, rgid, offset);
      if t.Some? { ValShape(WithMm(m, p, mm1), p, t.value, 0); }
    case OpWrite(p, rgid, offset, v) =>
      var (mm1, t) := Target(m.mms[p], 0, rgid, offset);
      if t.Some? { ValShape(WithMm(m, p, mm1), p, t.value, v); }
    case _ =>
  }

  lemma AccessSound(m: State, q: nat, rgid: int, offset: nat, v: Byte, p: nat)
    requires p < |m.mms| && q < |m.mms| && Sound(m.mms[p])
    requires q == p ==> m.mms[p].sbrk + Need(m.mms[p], rgid, 100) <= SPACE
    ensures forall m' :: m' == Read(m, q, 0, rgid, offset).0 || m' == Write(m, q, 0, rgid, offset, v).0 ==>
              p < |m'.mms| && Sound(m'.mms[p])
  {
    hide Target, Sound, PgGetval, PgSetval;
    var (mm1, t) := Target(m.mms[q], 0, rgid, offset);
    var m1 := WithMm(m, q, mm1);
    if q == p { SmallTarget(m.mms[p], rgid, offset); }
    assert Sound(m1.mms[p]);
    if t.Some? {
      ValShape(m1, q, t.value, v);
      SoundShape(m1, PgGetval(m1, q, t.value).0, p);
      SoundShape(m1, PgSetval(m1, q, t.value, v).0, p);
    }
  }

  /** Region r of p survives any instruction that is not its own free, and the
      process stays within its 4 MB. */
  lemma RegionSurvives(m: State, op: Op, p: nat, r: int)
    requires p < |m.mms| && Sound(m.mms[p]) && m.mms[p].sbrk + Demand(m.mms[p], op, p) <= SPACE
    requires 0 <= r < SYMTBL && !Unallocated(m.mms[p].symrgtbl[r]) && op != OpFree(p, r)
    ensures var m' := Step(m, op);
            p < |m'.mms| && Sound(m'.mms[p]) && m'.mms[p].symrgtbl[r] == m.mms[p].symrgtbl[r]
  {
    hide Step, Sound, Demand;
    StepSound(m, op, p);
    StepKeepsLive(m, op, p, r);
  }

  lemma SoundShape(m: State, m': State, p: nat)
    requires SameRegions(m, m') && p < |m.mms| && Sound(m.mms[p])
    ensures p < |m'.mms| && Sound(m'.mms[p]) && m'.mms[p].symrgtbl == m.mms[p].symrgtbl
  {
  }

  lemma AllocTakesUnallocated(mm: Mm, rgid: int, size: nat)
    ensures Alloc(mm, 0, rgid, size).1.Some? <==> 0 <= rgid < SYMTBL && Unallocated(mm.symrgtbl[rgid])
  {
    hide AlignUp;
  }

  lemma SmallTarget(mm: Mm, rgid: int, offset: nat)
    requires Sound(mm)
    requires mm.sbrk + Need(mm, rgid, 100) <= SPACE
    ensures var (mm', t) := Target(mm, 0, rgid, offset);
            && Sound(mm')
            && (forall r :: 0 <= r < SYMTBL && !Unallocated(mm.symrgtbl[r]) ==> mm'.symrgtbl[r] == mm.symrgtbl[r])
            && (t.Some? ==> 0 <= rgid < SYMTBL && !Unallocated(mm'.symrgtbl[rgid])
                            && t.value == mm'.symrgtbl[rgid].start + offset < mm'.symrgtbl[rgid].end <= SPACE)
  {
    hide Target, RegionsOk, Fits;
    if 0 <= rgid < SYMTBL && Unallocated(mm.symrgtbl[rgid]) { SmallFits(mm, 100); }
    TargetInRegion(mm, 0, rgid, offset);
  }

  lemma ValShape(m: State, p: nat, addr: nat, v: Byte)
    requires p < |m.mms|
    ensures SameRegions(m, PgGetval(m, p, addr).0) && SameRegions(m, PgSetval(m, p, addr, v).0)
  {
    hide PteGetEntry, Present, Fpn, Pgn, Offst, PteSetFpn;
    var m0 := GetFreefp(m).0;
    if m.free != [] && 0 <= Pgn(addr) { SetFpnShape(m0, p, Pgn(addr), m.free[0]); }
  }

  lemma SetFpnShape(m: State, p: nat, pgn: nat, f: nat)
    ensures SameRest(m, PteSetFpn(m, p, pgn, f).0)
  {
    hide EnsureFrom, PdFromPagenum, OnlinePte;
    var (ret, ix) := PdFromPagenum(pgn);
    PagenumSplit(pgn);
    EnsureShape(m, PgdSlot(p, ix[0]), ix[1..]);
    var (m1, slot) := EnsureMapping(m, p, ix);
    if slot.Some? { SlotWriteShape(m1, slot.value, OnlinePte(f)); }
  }

  lemma {:induction false} EnsureShape(m: State, s: Slot, rest: seq<nat>)
    ensures SameRest(m, EnsureFrom(m, s, rest).0)
    decreases |rest|
  {
    hide Present, Fpn, GetSlot, EnsureTable;
    if rest != [] {
      var (m1, ok) := EnsureTable(m, s);
      TableShape(m, s);
      if ok { EnsureShape(m1, RamSlot(Fpn(GetSlot(m1, s)), rest[0]), rest[1..]); }
    }
  }

  /** While r is neither freed nor written at this offset, no instruction touches
      its cell: other regions of p are apart from it, and within 4 MB distinct
      addresses are distinct cells. */
  lemma {:induction false} RegionUntouched(m: State, ops: seq<Op>, p: nat, r: int, o: nat)
    requires p < |m.mms| && Sound(m.mms[p]) && Within(m, ops, p)
    requires 0 <= r < SYMTBL && !Unallocated(m.mms[p].symrgtbl[r])
    requires o < m.mms[p].symrgtbl[r].end - m.mms[p].symrgtbl[r].start
    requires OpFree(p, r) !in ops && forall v :: OpWrite(p, r, o, v) !in ops
    ensures Untouched(m, ops, p, m.mms[p].symrgtbl[r].start + o)
    ensures var m' := Run(m, ops);
            p < |m'.mms| && Sound(m'.mms[p]) && m'.mms[p].symrgtbl[r] == m.mms[p].symrgtbl[r]
    decreases |ops|
  {
    hide Step, Sound, Hits;
    if ops != [] {
      assert ops[0] in ops;
      RegionSurvives(m, ops[0], p, r);
      NotHit(m, ops[0], p, r, o);
      RegionUntouched(Step(m, ops[0]), ops[1..], p, r, o);
    }
  }

  lemma NotHit(m: State, op: Op, p: nat, r: int, o: nat)
    requires p < |m.mms| && Sound(m.mms[p]) && m.mms[p].sbrk + Demand(m.mms[p], op, p) <= SPACE
    requires 0 <= r < SYMTBL && !Unallocated(m.mms[p].symrgtbl[r])
    requires o < m.mms[p].symrgtbl[r].end - m.mms[p].symrgtbl[r].start
    requires forall v :: op != OpWrite(p, r, o, v)
    ensures !Hits(m, op, p, m.mms[p].symrgtbl[r].start + o)
  {
    hide Target;
    var mm := m.mms[p];
    if op.OpWrite? && op.p == p {
      assert op != OpWrite(p, r, o, op.value);
      SmallTarget(mm, op.rgid, op.offset);
      var mm' := Target(mm, 0, op.rgid, op.offset).0;
      var i :| 0 <= i < |mm.handed| && mm.handed[i] == mm.symrgtbl[r];
      if op.rgid != r { assert !Unallocated(mm'.symrgtbl[r]); }
    }
  }

  /** Memory refinement and isolation.  After a successful __write(r, o, v) by p,
      __read(r, o) by p succeeds and returns v, whatever allocs, frees, reads and
      writes any processes do in between, so long as p does not free r or write
      (r, o) again and asks for no more than 4 MB of regions. */
  lemma WriteThenRead(m: State, tab: Owners, pages: Owners, p: nat, r: int, o: nat, v: Byte, ops: seq<Op>)
    requires MemInv(m, tab, pages) && p < |m.mms| && Sound(m.mms[p])
    requires Write(m, p, 0, r, o, v).1
    requires Within(m, [OpWrite(p, r, o, v)] + ops, p)
    requires OpFree(p, r) !in ops && forall w :: OpWrite(p, r, o, w) !in ops
    ensures var m' := Run(Write(m, p, 0, r, o, v).0, ops);
            p < |m'.mms| && Read(m', p, 0, r, o).1 == Some(v)
  {
    hide Content, MemInv, Sound, Write, Read, Run, Untouched, Step, Hits;
    var all := [OpWrite(p, r, o, v)] + ops;
    var m1 := Write(m, p, 0, r, o, v).0;
    assert all[0] == OpWrite(p, r, o, v) && all[1..] == ops;
    WriteIsStep(m, p, r, o, v);
    WriteLands(m, tab, pages, p, r, o, v);
    var tab1, pages1 := StepOk(m, tab, pages, all[0]);
    RegionUntouched(m1, ops, p, r, o);
    var tab2, pages2 := RunOk(m1, tab1, pages1, ops, p, m1.mms[p].symrgtbl[r].start + o);
    SoundRegion(Run(m1, ops).mms[p], r);
    ReadSees(Run(m1, ops), tab2, pages2, p, r, o);
  }

  lemma SoundRegion(mm: Mm, r: int)
    requires Sound(mm) && 0 <= r < SYMTBL && !Unallocated(mm.symrgtbl[r])
    ensures mm.symrgtbl[r].end < WORD
  {
  }

  lemma WriteIsStep(m: State, p: nat, r: int, o: nat, v: Byte)
    requires p < |m.mms|
    ensures Step(m, OpWrite(p, r, o, v)) == Write(m, p, 0, r, o, v).0
  {
    hide Write;
  }

  /** What a successful __write leaves: the region, live and sound, and the value
      in the cell. */
  lemma WriteLands(m: State, tab: Owners, pages: Owners, p: nat, r: int, o: nat, v: Byte)
    requires MemInv(m, tab, pages) && p < |m.mms| && Sound(m.mms[p]) && Write(m, p, 0, r, o, v).1
    requires m.mms[p].sbrk + Demand(m.mms[p], OpWrite(p, r, o, v), p) <= SPACE
    ensures var m' := Write(m, p, 0, r, o, v).0;
            && p < |m'.mms| && Sound(m'.mms[p])
            && 0 <= r < SYMTBL && !Unallocated(m'.mms[p].symrgtbl[r])
            && var rg := m'.mms[p].symrgtbl[r];
               o < rg.end - rg.start && Content(m', p, rg.start + o) == Some(v)
  {
    hide Content, MemInv, Target, PgSetval, Sound;
    var (mm1, t) := Target(m.mms[p], 0, r, o);
    SmallTarget(m.mms[p], r, o);
    TargetShape(m.mms[p], 0, r, o);
    RegionStep(m, tab, pages, p, mm1);
    var m1 := WithMm(m, p, mm1);
    SetvalLands(m1, tab, pages, p, t.value, v, t.value);
    SoundShape(m1, PgSetval(m1, p, t.value, v).0, p);
  }

  lemma SetvalLands(m: State, tab: Owners, pages: Owners, p: nat, addr: nat, v: Byte, b: nat)
    requires MemInv(m, tab, pages) && p < |m.mms| && PgSetval(m, p, addr, v).1 && b % SPACE == addr % SPACE
    ensures var m' := PgSetval(m, p, addr, v).0;
            SameRegions(m, m') && Content(m', p, b) == Some(v) && exists tab', pages' :: MemInv(m', tab', pages')
  {
    hide Content, MemInv, PgSetval;
    var tab', pages' := PgSetvalOk(m, tab, pages, p, addr, v);
  }

  /** Offset o lies in the live region r.  Region bounds are 64-bit numbers. */
  predicate Live(mm: Mm, r: int, o: nat) {
    && 0 <= r < SYMTBL && !Unallocated(mm.symrgtbl[r])
    && o < mm.symrgtbl[r].end - mm.symrgtbl[r].start && mm.symrgtbl[r].end < WORD
  }

  /** __read of a live region inside its bounds returns what the process sees.  It
      succeeds exactly when the page is mapped or frames suffice to map it. */
  lemma ReadSees(m: State, tab: Owners, pages: Owners, p: nat, r: int, o: nat)
    requires MemInv(m, tab, pages) && p < |m.mms| && Live(m.mms[p], r, o)
    ensures var (m', v) := Read(m, p, 0, r, o); var a := m.mms[p].symrgtbl[r].start + o;
            && v == Content(m', p, a)
            && (v.Some? <==> Content(m, p, a).Some? || |m.free| >= 1 + Missing(tab, p, Indices(Pgn(a)), 0))
            && (Content(m, p, a).Some? ==> v == Content(m, p, a))
  {
    hide Content, MemInv, PgGetval, Target, Missing, Indices, Pgn;
    var rg := m.mms[p].symrgtbl[r];
    LiveTarget(m.mms[p], r, o);
    assert WithMm(m, p, m.mms[p]) == m;
    var tab', pages' := PgGetvalOk(m, tab, pages, p, rg.start + o);
  }

  /** The 4 MB bound is needed: in a larger region, offsets 2^22 apart are one
      cell, so a successful write at one is read back at the other. */
  lemma LargeRegionAliases(m: State, tab: Owners, pages: Owners, p: nat, r: int, o: nat, v: Byte)
    requires MemInv(m, tab, pages) && p < |m.mms| && Live(m.mms[p], r, o + SPACE)
    requires Write(m, p, 0, r, o + SPACE, v).1
    ensures var m' := Write(m, p, 0, r, o + SPACE, v).0;
            p < |m'.mms| && Read(m', p, 0, r, o).1 == Some(v)
  {
    hide Content, MemInv, PgGetval, PgSetval, Target;
    var rg := m.mms[p].symrgtbl[r];
    LiveTarget(m.mms[p], r, o + SPACE);
    var a: nat, b: nat := rg.start + o, rg.start + (o + SPACE);
    assert WithMm(m, p, m.mms[p]) == m;
    assert a % SPACE == b % SPACE;
    SetvalLands(m, tab, pages, p, b, v, a);
    var m1 := PgSetval(m, p, b, v).0;
    var tab1, pages1 :| MemInv(m1, tab1, pages1);
    LiveTarget(m1.mms[p], r, o);
    assert WithMm(m1, p, m1.mms[p]) == m1;
    var tab2, pages2 := PgGetvalOk(m1, tab1, pages1, p, a);
  }

  /** A live region needs no allocation, and its address does not wrap. */
  lemma LiveTarget(mm: Mm, r: int, o: nat)
    requires Live(mm, r, o)
    ensures Target(mm, 0, r, o) == (mm, Some(mm.symrgtbl[r].start + o))
  {
    hide Alloc;
    assert mm.symrgtbl[r].start + o < WORD;
  }

  // ---- The history of regions -----------------------------------------------

  lemma AllocHistory(mm: Mm, rgid: int, size: nat)
    requires RegionsOk(mm) && size < WORD
    ensures var mm' := Alloc(mm, 0, rgid, size).0;
            (RegionsOk(mm') <==> Fits(mm, Need(mm, rgid, size))) && mm.handed <= mm'.handed
  {
    hide Alloc, RegionsOk, Fits;
    AllocTakesUnallocated(mm, rgid, size);
    NothingFits(mm);
    if Alloc(mm, 0, rgid, size).1.Some? {
      AllocKeepsRegionsIff(mm, 0, rgid, size);
    } else {
      AllocFailure(mm, 0, rgid, size);
    }
  }

  lemma NothingFits(mm: Mm)
    requires RegionsOk(mm)
    ensures Fits(mm, 0)
  {
  }

  lemma TargetHistory(mm: Mm, rgid: int, offset: nat)
    requires RegionsOk(mm)
    ensures var mm' := Target(mm, 0, rgid, offset).0;
            (RegionsOk(mm') <==> Fits(mm, Need(mm, rgid, 100))) && mm.handed <= mm'.handed
  {
    hide Alloc, RegionsOk, Fits;
    NothingFits(mm);
    AllocHistory(mm, rgid, 100);
  }

  lemma AccessHistory(m: State, q: nat, rgid: int, offset: nat, v: Byte, p: nat)
    requires p < |m.mms| && q < |m.mms| && RegionsOk(m.mms[p])
    ensures forall m' :: m' == Read(m, q, 0, rgid, offset).0 || m' == Write(m, q, 0, rgid, offset, v).0 ==>
              && p < |m'.mms| && m.mms[p].handed <= m'.mms[p].handed
              && (RegionsOk(m'.mms[p]) <==> Fits(m.mms[p], if q == p then Need(m.mms[p], rgid, 100) else 0))
  {
    hide Target, RegionsOk, PgGetval, PgSetval, Fits, Need;
    var (mm1, t) := Target(m.mms[q], 0, rgid, offset);
    var m1 := WithMm(m, q, mm1);
    NothingFits(m.mms[p]);
    if q == p { TargetHistory(m.mms[p], rgid, offset); }
    if t.Some? {
      ValShape(m1, q, t.value, v);
      ShapeHistory(m1, PgGetval(m1, q, t.value).0, p);
      ShapeHistory(m1, PgSetval(m1, q, t.value, v).0, p);
    }
  }

  lemma ShapeHistory(m: State, m': State, p: nat)
    requires SameRegions(m, m') && p < |m.mms|
    ensures p < |m'.mms| && m'.mms[p].handed == m.mms[p].handed && (RegionsOk(m'.mms[p]) <==> RegionsOk(m.mms[p]))
  {
  }

  /** Every instruction extends the history of handed-out regions, and keeps it
      disjoint and below sbrk exactly when its request fits in 64 bits. */
  lemma StepHistory(m: State, op: Op, p: nat)
    requires p < |m.mms| && RegionsOk(m.mms[p]) && (op.OpAlloc? ==> op.size < WORD)
    ensures var m' := Step(m, op);
            && p < |m'.mms| && m.mms[p].handed <= m'.mms[p].handed
            && (RegionsOk(m'.mms[p]) <==> Fits(m.mms[p], Demand(m.mms[p], op, p)))
  {
    hide Alloc, Target, RegionsOk, Read, Write, Fits, Need;
    NothingFits(m.mms[p]);
    if op.p < |m.mms| {
      match op
      case OpStart(_) =>
      case OpAlloc(q, rgid, size) => if q == p { AllocHistory(m.mms[p], rgid, size); }
      case OpFree(q, rgid) => if q == p { FreeKeepsRegions(m.mms[p], rgid); }
      case OpRead(q, rgid, offset) => AccessHistory(m, q, rgid, offset, 0, p);
      case OpWrite(q, rgid, offset, v) => AccessHistory(m, q, rgid, offset, v, p);
    }
  }

  /** Sizes are 64-bit numbers. */
  predicate Sizes(ops: seq<Op>) { forall op :: op in ops && op.OpAlloc? ==> op.size < WORD }

  /** Every request of process p in the run fits in 64 bits. */
  predicate AllFit(m: State, ops: seq<Op>, p: nat)
    decreases |ops|
  {
    ops == [] || (
      && p < |m.mms| && Fits(m.mms[p], Demand(m.mms[p], ops[0], p))
      && AllFit(Step(m, ops[0]), ops[1..], p))
  }

  /** The allocator's invariant holds for process p in every state of the run. */
  ghost predicate AlwaysOk(m: State, ops: seq<Op>, p: nat)
    decreases |ops|
  {
    && p < |m.mms| && RegionsOk(m.mms[p])
    && (ops != [] ==> AlwaysOk(Step(m, ops[0]), ops[1..], p))
  }

  /** Region history over runs.  All regions ever handed out to p, live or freed,
      stay pairwise disjoint within [4096, sbrk) and sbrk within the area, through
      any run of any processes, exactly when no request of p wraps 64 bits. */
  lemma {:induction false} RegionHistory(m: State, ops: seq<Op>, p: nat)
    requires p < |m.mms| && RegionsOk(m.mms[p]) && Sizes(ops)
    ensures AlwaysOk(m, ops, p) <==> AllFit(m, ops, p)
    decreases |ops|
  {
    hide Step, RegionsOk, Fits, Demand;
    if ops != [] {
      assert ops[0] in ops;
      var m' := Step(m, ops[0]);
      StepHistory(m, ops[0], p);
      if RegionsOk(m'.mms[p]) { RegionHistory(m', ops[1..], p); }
    }
  }

  // ---- Reads return the last write ------------------------------------------

  /** A write that reaches a mapped cell succeeds and leaves its value there. */
  lemma HitLands(m: State, tab: Owners, pages: Owners, op: Op, p: nat, a: nat)
    requires MemInv(m, tab, pages) && Hits(m, op, p, a) && Content(m, p, a).Some?
    ensures Content(Step(m, op), p, a) == Some(op.value)
  {
    hide Content, Target, PgSetval, FifoOk, Owned, Missing;
    var (mm1, t) := Target(m.mms[p], 0, op.rgid, op.offset);
    TargetShape(m.mms[p], 0, op.rgid, op.offset);
    RegionStep(m, tab, pages, p, mm1);
    var m1 := WithMm(m, p, mm1);
    SameCellContent(m1, tab, pages, p, a, t.value);
    var tab', pages' := PgSetvalOk(m1, tab, pages, p, t.value, op.value);
  }

  /** The value of the last write in the run that reaches the cell p sees at
      address a, or v when there is none. */
  function LastWrite(m: State, ops: seq<Op>, p: nat, a: nat, v: Byte): Byte
    decreases |ops|
  {
    if ops == [] then v
    else LastWrite(Step(m, ops[0]), ops[1..], p, a, if Hits(m, ops[0], p, a) then ops[0].value else v)
  }

  lemma {:induction false} RunContent(m: State, tab: Owners, pages: Owners, ops: seq<Op>, p: nat, a: nat, v: Byte)
    requires MemInv(m, tab, pages) && p < |m.mms| && Content(m, p, a) == Some(v)
    ensures Content(Run(m, ops), p, a) == Some(LastWrite(m, ops, p, a, v))
    decreases |ops|
  {
    hide Content, MemInv, Step, Hits;
    if ops != [] {
      var op := ops[0];
      var tab', pages' := StepOk(m, tab, pages, op);
      var w := v;
      if Hits(m, op, p, a) {
        HitLands(m, tab, pages, op, p, a);
        HitIsWrite(m, op, p, a);
        w := op.value;
      }
      RunContent(Step(m, op), tab', pages', ops[1..], p, a, w);
    }
  }

  lemma HitIsWrite(m: State, op: Op, p: nat, a: nat)
    requires Hits(m, op, p, a)
    ensures op.OpWrite?
  {
    hide Target;
  }

  lemma AllocKeepsLive(mm: Mm, rgid: int, size: nat, r: int)
    requires 0 <= r < SYMTBL && !Unallocated(mm.symrgtbl[r])
    ensures Alloc(mm, 0, rgid, size).0.symrgtbl[r] == mm.symrgtbl[r]
  {
    hide AlignUp;
  }

  lemma TargetKeepsLive(mm: Mm, rgid: int, offset: nat, r: int)
    requires 0 <= r < SYMTBL && !Unallocated(mm.symrgtbl[r])
    ensures Target(mm, 0, rgid, offset).0.symrgtbl[r] == mm.symrgtbl[r]
  {
    hide Alloc;
    AllocKeepsLive(mm, rgid, 100, r);
  }

  lemma AccessKeepsLive(m: State, q: nat, rgid: int, offset: nat, v: Byte, p: nat, r: int)
    requires p < |m.mms| && q < |m.mms| && 0 <= r < SYMTBL && !Unallocated(m.mms[p].symrgtbl[r])
    ensures forall m' :: m' == Read(m, q, 0, rgid, offset).0 || m' == Write(m, q, 0, rgid, offset, v).0 ==>
              p < |m'.mms| && m'.mms[p].symrgtbl[r] == m.mms[p].symrgtbl[r]
  {
    hide Target, PgGetval, PgSetval;
    var (mm1, t) := Target(m.mms[q], 0, rgid, offset);
    if q == p { TargetKeepsLive(m.mms[p], rgid, offset, r); }
    if t.Some? { ValShape(WithMm(m, q, mm1), q, t.value, v); }
  }

  /** A live region survives every instruction except its own free, whatever is
      asked for. */
  lemma StepKeepsLive(m: State, op: Op, p: nat, r: int)
    requires p < |m.mms| && 0 <= r < SYMTBL && !Unallocated(m.mms[p].symrgtbl[r]) && op != OpFree(p, r)
    ensures p < |Step(m, op).mms| && Step(m, op).mms[p].symrgtbl[r] == m.mms[p].symrgtbl[r]
  {
    hide Alloc, Target, Read, Write;
    if op.p < |m.mms| {
      match op
      case OpStart(_) =>
      case OpAlloc(q, rgid, size) => if q == p { AllocKeepsLive(m.mms[p], rgid, size, r); }
      case OpFree(q, rgid) =>
      case OpRead(q, rgid, offset) => AccessKeepsLive(m, q, rgid, offset, 0, p, r);
      case OpWrite(q, rgid, offset, v) => AccessKeepsLive(m, q, rgid, offset, v, p, r);
    }
  }

  lemma {:induction false} RunKeepsLive(m: State, ops: seq<Op>, p: nat, r: int)
    requires p < |m.mms| && 0 <= r < SYMTBL && !Unallocated(m.mms[p].symrgtbl[r]) && OpFree(p, r) !in ops
    ensures p < |Run(m, ops).mms| && Run(m, ops).mms[p].symrgtbl[r] == m.mms[p].symrgtbl[r]
    decreases |ops|
  {
    hide Step;
    if ops != [] {
      assert ops[0] in ops;
      StepKeepsLive(m, ops[0], p, r);
      RunKeepsLive(Step(m, ops[0]), ops[1..], p, r);
    }
  }

  /** A granted access lies in a live region, wrapped requests included. */
  lemma GrantedIsLive(mm: Mm, r: int, o: nat)
    requires 0 <= r < SYMTBL ==> mm.symrgtbl[r].end < WORD
    ensures var (mm', t) := Target(mm, 0, r, o);
            t.Some? ==> Live(mm', r, o) && t.value == mm'.symrgtbl[r].start + o
  {
    hide Alloc;
    AllocTakesUnallocated(mm, r, 100);
    if 0 <= r < SYMTBL && Unallocated(mm.symrgtbl[r]) { NewRegionBound(mm, r, 100); }
  }

  lemma NewRegionBound(mm: Mm, r: int, size: nat)
    requires 0 <= r < SYMTBL && Unallocated(mm.symrgtbl[r])
    ensures Alloc(mm, 0, r, size).0.symrgtbl[r].end < WORD
  {
    hide AlignUp;
  }

  /** A successful __write, in a process of any size, leaves its value in the
      cell of a live region. */
  lemma WriteStores(m: State, tab: Owners, pages: Owners, p: nat, r: int, o: nat, v: Byte)
    requires MemInv(m, tab, pages) && p < |m.mms| && Write(m, p, 0, r, o, v).1
    requires 0 <= r < SYMTBL ==> m.mms[p].symrgtbl[r].end < WORD
    ensures var m' := Write(m, p, 0, r, o, v).0;
            && p < |m'.mms| && Live(m'.mms[p], r, o)
            && Content(m', p, m'.mms[p].symrgtbl[r].start + o) == Some(v)
  {
    hide Content, MemInv, Target, PgSetval;
    var (mm1, t) := Target(m.mms[p], 0, r, o);
    GrantedIsLive(m.mms[p], r, o);
    TargetShape(m.mms[p], 0, r, o);
    RegionStep(m, tab, pages, p, mm1);
    SetvalLands(WithMm(m, p, mm1), tab, pages, p, t.value, v, t.value);
  }

  /** The exact refinement, for regions of any size and any requests, wrapped ones
      included.  After a successful __write(r, o, v) by p and any run of any
      processes in which p does not free r, __read(r, o) returns the value of the
      last write of p that reached the same low 22 address bits.  So it returns v
      exactly when that value is v. */
  lemma ReadsLastWrite(m: State, tab: Owners, pages: Owners, p: nat, r: int, o: nat, v: Byte, ops: seq<Op>)
    requires MemInv(m, tab, pages) && p < |m.mms| && Write(m, p, 0, r, o, v).1
    requires 0 <= r < SYMTBL ==> m.mms[p].symrgtbl[r].end < WORD
    requires OpFree(p, r) !in ops
    ensures var m1 := Write(m, p, 0, r, o, v).0; var m' := Run(m1, ops);
            && p < |m1.mms| && p < |m'.mms| && 0 <= r < SYMTBL
            && Read(m', p, 0, r, o).1 == Some(LastWrite(m1, ops, p, m1.mms[p].symrgtbl[r].start + o, v))
  {
    hide Content, MemInv, Write, Read, Run, Step, LastWrite, Untouched;
    var m1 := Write(m, p, 0, r, o, v).0;
    WriteIsStep(m, p, r, o, v);
    WriteStores(m, tab, pages, p, r, o, v);
    var tab1, pages1 := StepOk(m, tab, pages, OpWrite(p, r, o, v));
    RunKeepsLive(m1, ops, p, r);
    var a := m1.mms[p].symrgtbl[r].start + o;
    RunContent(m1, tab1, pages1, ops, p, a, v);
    var tab2, pages2 := RunOk(m1, tab1, pages1, ops, p, a);
    ReadSees(Run(m1, ops), tab2, pages2, p, r, o);
  }

  // ---- Start of a run -------------------------------------------------------

  /** A RAM of any size up to 8192 whole frames, all of them free and listed in
      ascending order, before any process is started. */
  predicate Boot(m: State) { Frames(m) <= 8192 && m.free == seq(Frames(m), f => f) && m.mms == [] }

  /** The machine starts in the invariant, whatever bytes the RAM holds. */
  lemma InitOk(m: State)
    requires Boot(m)
    ensures MemInv(m, map[], map[])
  {
    hide Present, Fpn, Indices, Le;
    forall f: nat ensures FrameAt(m, map[], map[], {}, f) {
      if f < Frames(m) { assert m.free[f] == f; }
    }
  }

  /** Conservation over runs.  From the start, after any instructions of any
      processes with any outcomes, the frames are partitioned into free list,
      tables and pages, and these add up to the RAM. */
  lemma ReachableConserves(m: State, ops: seq<Op>) returns (tab: Owners, pages: Owners)
    requires Boot(m)
    ensures MemInv(Run(m, ops), tab, pages)
    ensures |Run(m, ops).free| + |tab| + |pages| == Frames(m)
  {
    hide Owned, Run, FifoOk, Content, Untouched;
    InitOk(m);
    tab, pages := RunOk(m, map[], map[], ops, 0, 0);
    Conservation(Run(m, ops), tab, pages);
  }

  // ---- The refinement from the start of the machine --------------------------

  /** Every process's bounds are 64-bit numbers. */
  predicate AllWords(m: State) { forall p :: 0 <= p < |m.mms| ==> Words(m.mms[p]) }

  lemma AllocWords(mm: Mm, rgid: int, size: nat)
    requires Words(mm)
    ensures Words(Alloc(mm, 0, rgid, size).0)
  {
    hide AlignUp;
  }

  lemma TargetWords(mm: Mm, rgid: int, offset: nat)
    requires Words(mm)
    ensures Words(Target(mm, 0, rgid, offset).0)
  {
    hide Alloc, Words;
    AllocWords(mm, rgid, 100);
  }

  lemma AccessWords(m: State, q: nat, rgid: int, offset: nat, v: Byte)
    requires AllWords(m) && q < |m.mms|
    ensures AllWords(Read(m, q, 0, rgid, offset).0) && AllWords(Write(m, q, 0, rgid, offset, v).0)
  {
    hide Target, PgGetval, PgSetval;
    var (mm1, t) := Target(m.mms[q], 0, rgid, offset);
    TargetWords(m.mms[q], rgid, offset);
    if t.Some? { ValShape(WithMm(m, q, mm1), q, t.value, v); }
  }

  lemma StepWords(m: State, op: Op)
    requires AllWords(m)
    ensures AllWords(Step(m, op))
  {
    hide Alloc, Target, Read, Write;
    if op.p < |m.mms| {
      match op
      case OpStart(_) =>
      case OpAlloc(q, rgid, size) => AllocWords(m.mms[q], rgid, size);
      case OpFree(q, rgid) =>
      case OpRead(q, rgid, offset) => AccessWords(m, q, rgid, offset, 0);
      case OpWrite(q, rgid, offset, v) => AccessWords(m, q, rgid, offset, v);
    }
  }

  lemma {:induction false} RunWords(m: State, ops: seq<Op>)
    requires AllWords(m)
    ensures AllWords(Run(m, ops))
    decreases |ops|
  {
    hide Step, AllWords;
    if ops != [] {
      StepWords(m, ops[0]);
      RunWords(Step(m, ops[0]), ops[1..]);
    }
  }

  /** The refinement on every run of the machine.  From the start, after any
      instructions of any processes, a successful __write(r, o, v) by p, and any
      further instructions in which p does not free r, __read(r, o) by p returns
      the value of the last write of p to the same low 22 address bits. */
  lemma MachineReadsLastWrite(b: State, before: seq<Op>, p: nat, r: int, o: nat, v: Byte, ops: seq<Op>)
    requires Boot(b) && p < |Run(b, before).mms|
    requires Write(Run(b, before), p, 0, r, o, v).1 && OpFree(p, r) !in ops
    ensures var m1 := Write(Run(b, before), p, 0, r, o, v).0; var m' := Run(m1, ops);
            && p < |m1.mms| && p < |m'.mms| && 0 <= r < SYMTBL
            && Read(m', p, 0, r, o).1 == Some(LastWrite(m1, ops, p, m1.mms[p].symrgtbl[r].start + o, v))
  {
    hide MemInv, Run, Write, Read, LastWrite;
    var tab, pages := ReachableConserves(b, before);
    RunWords(b, before);
    assert Words(Run(b, before).mms[p]);
    ReadsLastWrite(Run(b, before), tab, pages, p, r, o, v, ops);
  }

  lemma {:induction false} WithinSplit(m: State, ops: seq<Op>, more: seq<Op>, p: nat)
    requires (p < |m.mms| ==> Sound(m.mms[p])) && Within(m, ops + more, p)
    ensures Within(Run(m, ops), more, p)
    ensures p < |Run(m, ops).mms| ==> Sound(Run(m, ops).mms[p])
    decreases |ops|
  {
    hide Step, Sound, Demand;
    if ops == [] {
      assert ops + more == more;
    } else {
      assert (ops + more)[0] == ops[0] && (ops + more)[1..] == ops[1..] + more;
      StepSound(m, ops[0], p);
      WithinSplit(Step(m, ops[0]), ops[1..], more, p);
    }
  }

  /** The plain law on every run of the machine: while p takes at most 4 MB of
      regions in the whole run, and after the write neither frees r nor writes
      (r, o) again, the value written is read back. */
  lemma MachineWriteThenRead(b: State, before: seq<Op>, p: nat, r: int, o: nat, v: Byte, ops: seq<Op>)
    requires Boot(b) && Within(b, before + ([OpWrite(p, r, o, v)] + ops), p)
    requires p < |Run(b, before).mms| && Write(Run(b, before), p, 0, r, o, v).1
    requires OpFree(p, r) !in ops && forall w :: OpWrite(p, r, o, w) !in ops
    ensures var m' := Run(Write(Run(b, before), p, 0, r, o, v).0, ops);
            p < |m'.mms| && Read(m', p, 0, r, o).1 == Some(v)
  {
    hide MemInv, Run, Write, Read, Within, Sound;
    var tab, pages := ReachableConserves(b, before);
    WithinSplit(b, before, [OpWrite(p, r, o, v)] + ops, p);
    WriteThenRead(Run(b, before), tab, pages, p, r, o, v, ops);
  }

  // ---- When an access succeeds ----------------------------------------------

  /** The page of address a is mapped, or there are frames to map it. */
  ghost predicate Mappable(m: State, tab: Owners, p: nat, a: nat) {
    Content(m, p, a).Some? || |m.free| >= 1 + Missing(tab, p, Indices(Pgn(a)), 0)
  }

  /** __write, exactly: it succeeds if and only if the offset is granted and the
      page is mapped or mappable, first accesses included; the value is then in the
      cell, and the cell is where AccessAddr says. */
  lemma WriteExact(m: State, tab: Owners, pages: Owners, p: nat, r: int, o: nat, v: Byte)
    requires MemInv(m, tab, pages) && p < |m.mms| && Words(m.mms[p])
    ensures var (m', ok) := Write(m, p, 0, r, o, v);
            && (ok <==> Grants(m.mms[p], r, o) && Mappable(m, tab, p, AccessAddr(m.mms[p], r, o)))
            && (ok ==> Content(m', p, AccessAddr(m.mms[p], r, o)) == Some(v))
  {
    hide Content, MemInv, Target, PgSetval, Missing, Indices, Pgn, Words, Grants, AccessAddr, Alloc;
    var (mm1, t) := Target(m.mms[p], 0, r, o);
    TargetGrants(m.mms[p], r, o);
    TargetShape(m.mms[p], 0, r, o);
    RegionStep(m, tab, pages, p, mm1);
    if t.Some? {
      GrantsInTable(m.mms[p], r, o);
      var tab', pages' := PgSetvalOk(WithMm(m, p, mm1), tab, pages, p, t.value, v);
    }
  }

  /** __read, exactly: the same condition, and the byte is the one the process then
      sees, which is the one it saw before if the page was mapped. */
  lemma ReadExact(m: State, tab: Owners, pages: Owners, p: nat, r: int, o: nat)
    requires MemInv(m, tab, pages) && p < |m.mms| && Words(m.mms[p])
    ensures var (m', v) := Read(m, p, 0, r, o);
            && (v.Some? <==> Grants(m.mms[p], r, o) && Mappable(m, tab, p, AccessAddr(m.mms[p], r, o)))
            && (v.Some? ==> v == Content(m', p, AccessAddr(m.mms[p], r, o)))
            && (v.Some? && Content(m, p, AccessAddr(m.mms[p], r, o)).Some? ==>
                  v == Content(m, p, AccessAddr(m.mms[p], r, o)))
  {
    hide Content, MemInv, Target, PgGetval, Missing, Indices, Pgn, Words, Grants, AccessAddr, Alloc;
    var (mm1, t) := Target(m.mms[p], 0, r, o);
    TargetGrants(m.mms[p], r, o);
    TargetShape(m.mms[p], 0, r, o);
    RegionStep(m, tab, pages, p, mm1);
    if t.Some? {
      GrantsInTable(m.mms[p], r, o);
      var tab', pages' := PgGetvalOk(WithMm(m, p, mm1), tab, pages, p, t.value);
    }
  }

  lemma GrantsInTable(mm: Mm, r: int, o: nat)
    requires Grants(mm, r, o)
    ensures InTable(r)
  {
  }

  /** On every run of the machine a first access succeeds with five free frames: to
      any region that was never allocated or was freed, at any of its 100 bytes. */
  lemma FirstAccess(b: State, ops: seq<Op>, p: nat, r: int, o: nat, v: Byte)
    requires Boot(b) && p < |Run(b, ops).mms| && |Run(b, ops).free| >= 5
    requires InTable(r) && Unallocated(Run(b, ops).mms[p].symrgtbl[r])
    requires o < 100 && NextStart(Run(b, ops).mms[p]) + 100 < WORD
    ensures var (m', ok) := Write(Run(b, ops), p, 0, r, o, v);
            ok && p < |m'.mms| && Read(m', p, 0, r, o).1 == Some(v)
    ensures Read(Run(b, ops), p, 0, r, o).1.Some?
  {
    hide Run, Write, Read, Content, MemInv, LastWrite, Missing, Indices, Pgn;
    var m := Run(b, ops);
    var tab, pages := ReachableConserves(b, ops);
    RunWords(b, ops);
    assert Words(m.mms[p]);
    var a := AccessAddr(m.mms[p], r, o);
    IndicesOk(Pgn(a));
    MissingAtMost(tab, p, Indices(Pgn(a)), 0);
    WriteExact(m, tab, pages, p, r, o, v);
    ReadExact(m, tab, pages, p, r, o);
    ReadsLastWrite(m, tab, pages, p, r, o, v, []);
    EmptyRun(Write(m, p, 0, r, o, v).0, p, r, o, v);
  }

  lemma EmptyRun(m: State, p: nat, r: int, o: nat, v: Byte)
    ensures Run(m, []) == m && forall a: nat :: LastWrite(m, [], p, a, v) == v
  {
  }

  // ---- Freeing and allocating again -----------------------------------------

  /** Operations of p that would allocate region r. */
  predicate Allocates(op: Op, p: nat, r: int) {
    op.p == p && ((op.OpAlloc? && op.rgid == r) || (op.OpRead? && op.rgid == r) || (op.OpWrite? && op.rgid == r))
  }

  lemma StepKeepsFreed(m: State, op: Op, p: nat, r: int)
    requires p < |m.mms| && InTable(r) && Unallocated(m.mms[p].symrgtbl[r]) && !Allocates(op, p, r)
    ensures p < |Step(m, op).mms| && Unallocated(Step(m, op).mms[p].symrgtbl[r])
  {
    hide Alloc, Target, Read, Write, Free;
    if op.p < |m.mms| {
      match op
      case OpStart(_) =>
      case OpAlloc(q, rgid, size) => if q == p { AllocGrants(m.mms[p], 0, rgid, size); }
      case OpFree(q, rgid) => if q == p { FreeClears(m.mms[p], rgid); }
      case OpRead(q, rgid, offset) => AccessKeepsFreed(m, q, rgid, offset, 0, p, r);
      case OpWrite(q, rgid, offset, v) => AccessKeepsFreed(m, q, rgid, offset, v, p, r);
    }
  }

  lemma AccessKeepsFreed(m: State, q: nat, rgid: int, offset: nat, v: Byte, p: nat, r: int)
    requires p < |m.mms| && q < |m.mms| && InTable(r) && (q != p || rgid != r)
    ensures forall m' :: m' == Read(m, q, 0, rgid, offset).0 || m' == Write(m, q, 0, rgid, offset, v).0 ==>
              p < |m'.mms| && m'.mms[p].symrgtbl[r] == m.mms[p].symrgtbl[r]
  {
    hide Target, PgGetval, PgSetval;
    var (mm1, t) := Target(m.mms[q], 0, rgid, offset);
    if q == p { TargetElsewhere(m.mms[p], rgid, offset, r); }
    if t.Some? { ValShape(WithMm(m, q, mm1), q, t.value, v); }
  }

  lemma TargetElsewhere(mm: Mm, rgid: int, offset: nat, r: int)
    requires InTable(r) && rgid != r
    ensures Target(mm, 0, rgid, offset).0.symrgtbl[r] == mm.symrgtbl[r]
  {
    hide Alloc;
    AllocGrants(mm, 0, rgid, 100);
  }

  lemma {:induction false} RunKeepsFreed(m: State, ops: seq<Op>, p: nat, r: int)
    requires p < |m.mms| && InTable(r) && Unallocated(m.mms[p].symrgtbl[r])
    requires forall op :: op in ops ==> !Allocates(op, p, r)
    ensures p < |Run(m, ops).mms| && Unallocated(Run(m, ops).mms[p].symrgtbl[r])
    decreases |ops|
  {
    hide Step, Allocates;
    if ops != [] {
      assert ops[0] in ops;
      StepKeepsFreed(m, ops[0], p, r);
      RunKeepsFreed(Step(m, ops[0]), ops[1..], p, r);
    }
  }

  /** After a successful __free of r, through any run in which p does not touch r,
      the next __alloc of r succeeds, for any size. */
  lemma FreeThenAlloc(m: State, p: nat, r: int, ops: seq<Op>, size: nat)
    requires p < |m.mms| && Free(m.mms[p], r).1 && forall op :: op in ops ==> !Allocates(op, p, r)
    ensures var m' := Run(Step(m, OpFree(p, r)), ops);
            p < |m'.mms| && Alloc(m'.mms[p], 0, r, size).1.Some?
  {
    hide Run, Allocates, Alloc, Free;
    FreeClears(m.mms[p], r);
    RunKeepsFreed(Step(m, OpFree(p, r)), ops, p, r);
    AllocGrants(Run(Step(m, OpFree(p, r)), ops).mms[p], 0, r, size);
  }

  /** Freed bytes are gone: in a sound process, whatever is allocated or accessed
      under a freed id afterwards lies above every region handed out before. */
  lemma FreedIsGone(mm: Mm, r: int, o: nat)
    requires RegionsOk(mm) && Free(mm, r).1
    ensures var mm' := Free(mm, r).0; var t := Target(mm', 0, r, o).1;
            t.Some? ==> mm.symrgtbl[r].end <= mm.sbrk <= t.value
  {
    hide Target, Alloc, Free;
    FreeClears(mm, r);
    SoundWords(mm);
    var mm' := Free(mm, r).0;
    assert Words(mm') by { FreedWords(mm, r); }
    TargetGrants(mm', r, o);
  }

  lemma SoundWords(mm: Mm)
    requires RegionsOk(mm)
    ensures Words(mm) && mm.sbrk > 0
    ensures forall r :: InTable(r) && !Unallocated(mm.symrgtbl[r]) ==> mm.symrgtbl[r].end <= mm.sbrk
  {
    forall r | 0 <= r < SYMTBL
      ensures mm.symrgtbl[r].end < WORD && (!Unallocated(mm.symrgtbl[r]) ==> mm.symrgtbl[r].end <= mm.sbrk)
    {
      if !Unallocated(mm.symrgtbl[r]) { LiveBounds(mm, r); }
    }
  }

  lemma FreedWords(mm: Mm, r: int)
    requires Words(mm)
    ensures Words(Free(mm, r).0)
  {
  }

  /** A new process: its first region starts at 4096, and up to 1 MB less a page of
      regions need no growth. */
  lemma FirstRegion(m: State, r: int, size: nat)
    requires InTable(r)
    ensures var p := |m.mms|; var m' := Run(m, [OpStart(p), OpAlloc(p, r, size)]);
            && p < |m'.mms|
            && m'.mms[p].symrgtbl[r] == Rg(4096, (4096 + size) % WORD) && m'.mms[p].sbrk == (4096 + size) % WORD
            && (size <= 0xF_F000 ==> m'.mms[p].vmEnd == 0x10_0000)
  {
    hide Alloc;
    var p := |m.mms|;
    TwoSteps(m, OpStart(p), OpAlloc(p, r, size));
    AllocGrants(NewMm(), 0, r, size);
  }

  // ---- An input on which bytes are confused ----------------------------------

  lemma {:induction false} MissingAtMost(tab: Owners, p: nat, ix: seq<nat>, d: nat)
    requires |ix| == 5 && d <= 4
    ensures Missing(tab, p, ix, d) <= 4 - d
    decreases 4 - d
  {
    if d < 4 { MissingAtMost(tab, p, ix, d + 1); }
  }

  lemma LargeAlloc(mm: Mm)
    requires mm == NewMm()
    ensures Live(Alloc(mm, 0, 0, SPACE + 1).0, 0, SPACE)
  {
    hide Alloc;
    NewIsSound();
    AllocTakesUnallocated(mm, 0, SPACE + 1);
    assert Fits(mm, SPACE + 1);
    FitsSum(mm, SPACE + 1);
    AllocKeepsRegionsIff(mm, 0, 0, SPACE + 1);
  }

  /** With five free frames, or a mapped cell, a write to a live region succeeds. */
  lemma LiveWriteSucceeds(m: State, tab: Owners, pages: Owners, p: nat, r: int, o: nat, v: Byte)
    requires MemInv(m, tab, pages) && p < |m.mms| && Live(m.mms[p], r, o)
    requires |m.free| >= 5 || Content(m, p, m.mms[p].symrgtbl[r].start + o).Some?
    ensures Write(m, p, 0, r, o, v).1
  {
    hide Content, MemInv, Target, PgSetval, Missing, Indices, Pgn;
    LiveTarget(m.mms[p], r, o);
    assert WithMm(m, p, m.mms[p]) == m;
    var a: nat := m.mms[p].symrgtbl[r].start + o;
    var tab', pages' := PgSetvalOk(m, tab, pages, p, a, v);
    IndicesOk(Pgn(a));
    MissingAtMost(tab, p, Indices(Pgn(a)), 0);
  }

  /** An input on which bytes of one region are confused: on any machine with five
      frames, start a process, allocate 4 MB + 1 byte, write v at offset 0 and w at
      offset 4 MB; offset 0 then reads w. */
  lemma AliasExample(m: State, v: Byte, w: Byte)
    requires Boot(m) && Frames(m) >= 5
    ensures var m1 := Run(m, [OpStart(0), OpAlloc(0, 0, SPACE + 1)]);
            && |m1.mms| > 0
            && var (m2, ok2) := Write(m1, 0, 0, 0, 0, v);
               && ok2 && |m2.mms| > 0
               && var (m3, ok3) := Write(m2, 0, 0, 0, SPACE, w);
                  ok3 && |m3.mms| > 0 && Read(m3, 0, 0, 0, 0).1 == Some(w)
  {
    hide Content, MemInv, RegionsOk, Write, Read, Alloc, Hits;
    InitOk(m);
    var m0 := Step(m, OpStart(0));
    var m1 := Step(m0, OpAlloc(0, 0, SPACE + 1));
    TwoSteps(m, OpStart(0), OpAlloc(0, 0, SPACE + 1));
    LargeAlloc(m0.mms[0]);
    StartOk(m, map[], map[]);
    var tab1, pages1 := StepOk(m0, map[], map[], OpAlloc(0, 0, SPACE + 1));
    LiveWriteSucceeds(m1, tab1, pages1, 0, 0, 0, v);
    WriteStores(m1, tab1, pages1, 0, 0, 0, v);
    AliasStep(m1, tab1, pages1, v, w);
  }

  lemma TwoSteps(m: State, a: Op, b: Op)
    ensures Run(m, [a, b]) == Step(Step(m, a), b)
  {
    hide Step;
    assert [a, b][1..] == [b] && [b][1..] == [];
    var m1 := Step(m, a);
    assert Run(m1, [b]) == Run(Step(m1, b), []);
  }

  lemma AliasStep(m1: State, tab1: Owners, pages1: Owners, v: Byte, w: Byte)
    requires MemInv(m1, tab1, pages1) && |m1.mms| > 0 && Live(m1.mms[0], 0, SPACE) && Write(m1, 0, 0, 0, 0, v).1
    requires var m2 := Write(m1, 0, 0, 0, 0, v).0;
             |m2.mms| > 0 && Content(m2, 0, m2.mms[0].symrgtbl[0].start).Some?
    ensures var m2 := Write(m1, 0, 0, 0, 0, v).0; var (m3, ok3) := Write(m2, 0, 0, 0, SPACE, w);
            ok3 && |m3.mms| > 0 && Read(m3, 0, 0, 0, 0).1 == Some(w)
  {
    hide Content, Write, Read, Step, Owned, FifoOk;
    var m2 := Write(m1, 0, 0, 0, 0, v).0;
    WriteIsStep(m1, 0, 0, 0, v);
    StepKeepsLive(m1, OpWrite(0, 0, 0, v), 0, 0);
    var tab2, pages2 := StepOk(m1, tab1, pages1, OpWrite(0, 0, 0, v));
    var a := m2.mms[0].symrgtbl[0].start;
    SameCellContent(m2, tab2, pages2, 0, a, a + SPACE);
    LiveWriteSucceeds(m2, tab2, pages2, 0, 0, SPACE, w);
    LargeRegionAliases(m2, tab2, pages2, 0, 0, 0, w);
  }
}
