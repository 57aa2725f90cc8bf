/** The memory stack as the source runs it: one storage buffer updated in place,
    a free list, and the processes' bookkeeping.  Each method does what its
    specification function says and stays inside the storage; the ghost ownership
    maps are what makes its accesses safe. */
module Kernel {
  import opened Wrappers
  import opened Bits
  import opened Pte
  import opened Machine
  import opened PageTable
  import opened Memory
  import opened Regions
  import opened MemoryRuns

  lemma {:induction false} ZeroWord(n: nat)
    ensures forall k :: 0 <= k < n ==> Bytes(0, n)[k] == 0
  {
    if n > 0 { ZeroWord(n - 1); }
  }

  class Kernel {
    const storage: array<Byte>
    var free: seq<nat>
    var mms: seq<Mm>
    ghost var tab: Owners
    ghost var pages: Owners

    ghost function View(): State
      reads this, storage
    {
      State(storage[..], free, mms)
    }

    ghost predicate Valid()
      reads this, storage
    {
      MemInv(View(), tab, pages)
    }

    /** init_memphy: all whole frames of the RAM free, in ascending order. */
    constructor (size: nat)
      requires size / PAGE <= 8192
      ensures Valid() && fresh(storage)
      ensures storage.Length == size && free == seq(size / PAGE, f => f) && mms == []
    {
      storage := new Byte[size];
      free := seq(size / PAGE, f => f);
      mms := [];
      tab, pages := map[], map[];
      new;
      assert |storage[..]| == size;
      InitOk(View());
    }

    /** init_mm for a process the loader has read. */
    method Start()
      requires Valid()
      modifies this`mms
      ensures Valid() && View() == Step(old(View()), OpStart(|old(mms)|))
    {
      StartOk(View(), tab, pages);
      mms := mms + [NewMm()];
    }

    // ---- Entries ------------------------------------------------------------

    method LoadSlot(s: Slot) returns (e: nat)
      requires SlotOk(View(), s)
      ensures e == GetSlot(View(), s)
    {
      match s
      case PgdSlot(p, i) => e := mms[p].pgd[i];
      case RamSlot(f, i) =>
        FrameFits(View(), f);
        var a := SlotAddr(f, i);
        e := Le(storage[a..a + 8]);
    }

    method StoreWordAt(a: nat, e: nat)
      requires a + 8 <= storage.Length
      modifies storage
      ensures storage[..] == StoreWord(old(storage[..]), a, e)
    {
      hide Bytes;
      var bytes := Bytes(e, 8);
      var k := 0;
      while k < 8
        invariant 0 <= k <= 8
        invariant forall j :: 0 <= j < storage.Length ==>
                    storage[j] == if a <= j < a + k then bytes[j - a] else old(storage[j])
      {
        storage[a + k] := bytes[k];
        k := k + 1;
      }
    }

    method StoreSlot(s: Slot, e: nat)
      requires SlotOk(View(), s)
      modifies this`mms, storage
      ensures View() == SetSlot(old(View()), s, e)
    {
      match s
      case PgdSlot(p, i) =>
        mms := mms[p := mms[p].(pgd := mms[p].pgd[i := e])];
      case RamSlot(f, i) =>
        FrameFits(View(), f);
        StoreWordAt(SlotAddr(f, i), e);
    }

    /** The loop that clears a fresh table, entry by entry. */
    method ClearTable(f: nat)
      requires f < Frames(View())
      modifies storage
      ensures View() == ZeroTable(old(View()), f)
    {
      FrameFits(View(), f);
      ZeroWord(8);
      var i := 0;
      while i < ENTRIES
        invariant 0 <= i <= ENTRIES
        invariant forall j :: 0 <= j < storage.Length ==>
                    storage[j] == if f * PAGE <= j < f * PAGE + 8 * i then 0 else old(storage[j])
      {
        ghost var was := storage[..];
        StoreWordAt(SlotAddr(f, i), 0);
        assert forall j :: 0 <= j < storage.Length ==> storage[j] == storage[..][j] && was[j] == was[..][j];
        i := i + 1;
      }
      assert storage[..] == ZeroTable(old(View()), f).ram;
    }

    // ---- Page tables --------------------------------------------------------

    method EnsureTableAt(s: Slot) returns (ok: bool)
      requires SlotOk(View(), s) && forall f :: f in free ==> f < Frames(View())
      modifies this`mms, this`free, storage
      ensures (View(), ok) == EnsureTable(old(View()), s)
    {
      hide Present, InitPte, Le, Bytes;
      var e := LoadSlot(s);
      if Present(e) { return true; }
      if free == [] { return false; }
      var f := free[0];
      assert f in free;
      free := free[1..];
      SetSlotShape(View(), s, InitPte(e, true, f, false, 0, 0).1);
      StoreSlot(s, InitPte(e, true, f, false, 0, 0).1);
      ClearTable(f);
      return true;
    }

    /** ensure_pte_mapping: four levels, each reading the next table's frame back
        from the entry it has just ensured. */
    method EnsurePteMapping(p: nat, ix: seq<nat>, ghost tab0: Owners, ghost held: set<nat>)
      returns (slot: Option<Slot>, ghost tab1: Owners)
      requires Owned(View(), tab0, pages, held) && 0 !in free && p < |mms| && |ix| == 5 && PathOk(ix)
      modifies this`mms, this`free, storage
      ensures (View(), slot) == EnsureMapping(old(View()), p, ix)
      ensures Owned(View(), tab1, pages, held) && 0 !in free
      ensures slot.Some? ==> SlotOk(View(), slot.value)
    {
      hide Fpn, Present, EnsureTable, GetSlot, Owned, EnsureFrom;
      ghost var m0 := View();
      tab1 := tab0;
      slot := None;
      var s := PgdSlot(p, ix[0]);
      var ok;
      assert ix[1..][1..] == ix[2..] && ix[2..][1..] == ix[3..] && ix[3..][1..] == ix[4..] && ix[4..][1..] == [];
      assert [] + [ix[0]] == [ix[0]];
      ok, s, tab1 := EnsureLevel(p, [], ix[0], ix[1], s, tab1, held);
      EnsureUnfold(m0, PgdSlot(p, ix[0]), ix[1..]);
      if !ok { return; }
      ghost var m1, s1 := View(), s;
      ok, s, tab1 := EnsureLevel(p, [ix[0]], ix[1], ix[2], s, tab1, held);
      EnsureUnfold(m1, s1, ix[2..]);
      if !ok { return; }
      ghost var m2, s2 := View(), s;
      assert [ix[0]] + [ix[1]] == [ix[0], ix[1]];
      ok, s, tab1 := EnsureLevel(p, [ix[0], ix[1]], ix[2], ix[3], s, tab1, held);
      EnsureUnfold(m2, s2, ix[3..]);
      if !ok { return; }
      ghost var m3, s3 := View(), s;
      assert [ix[0], ix[1]] + [ix[2]] == [ix[0], ix[1], ix[2]];
      ok, s, tab1 := EnsureLevel(p, [ix[0], ix[1], ix[2]], ix[3], ix[4], s, tab1, held);
      EnsureUnfold(m3, s3, ix[4..]);
      if !ok { return; }
      EnsureUnfold(View(), s, []);
      slot := Some(s);
    }

    /** One level: the entry, then the slot in the table below it. */
    method EnsureLevel(p: nat, ghost path: seq<nat>, i: nat, next: nat, s: Slot,
                       ghost tab0: Owners, ghost held: set<nat>)
      returns (ok: bool, t: Slot, ghost tab1: Owners)
      requires Owned(View(), tab0, pages, held) && 0 !in free
      requires Node(View(), tab0, p, path) && |path| <= 3 && i < ENTRIES && next < ENTRIES
      requires s == SlotOf(tab0, p, path, i)
      modifies this`mms, this`free, storage
      ensures (View(), ok) == EnsureTable(old(View()), s)
      ensures Owned(View(), tab1, pages, held) && 0 !in free
      ensures ok ==> && Node(View(), tab1, p, path + [i]) && t == SlotOf(tab1, p, path + [i], next) && SlotOk(View(), t)
                     && t == RamSlot(Fpn(GetSlot(View(), s)), next)
    {
      hide Fpn, Present, EnsureTable, GetSlot;
      SlotOfOk(View(), tab0, p, path, i);
      FreeInRange(View(), tab0, pages, held);
      tab1 := EnsureLevelOk(View(), tab0, pages, held, p, path, i);
      LinkSameRest(View(), s);
      ok := EnsureTableAt(s);
      t := s;
      if ok {
        var e := LoadSlot(s);
        t := RamSlot(Fpn(e), next);
        SlotOfOk(View(), tab1, p, path + [i], next);
      }
    }

    /** pte_set_fpn. */
    method SetFpn(p: nat, pgn: nat, fpn: nat, ghost held: set<nat>) returns (ok: bool)
      requires Owned(View(), tab, pages, held) && 0 !in free && p < |mms|
      modifies this`mms, this`free, storage
      ensures (View(), ok) == PteSetFpn(old(View()), p, pgn, fpn)
    {
      hide EnsureMapping, PdFromPagenum, OnlinePte, SetSlot, Owned, Indices;
      PagenumSplit(pgn);
      IndicesOk(pgn);
      var (ret, ix) := PdFromPagenum(pgn);
      if ret != 0 { return false; }
      ghost var tab1;
      var slot;
      slot, tab1 := EnsurePteMapping(p, ix, tab, held);
      if slot.None? { return false; }
      StoreSlot(slot.value, OnlinePte(fpn));
      return true;
    }

    /** pte_get_entry: the walk, narrowed to 32 bits. */
    method GetEntry(p: nat, pgn: nat) returns (e: nat)
      requires TablesOk(View(), tab) && p < |mms|
      ensures e == PteGetEntry(View(), p, pgn)
    {
      hide PdFromPagenum, Indices, Lookup, Trunc, TablesOk;
      var (ret, ix) := PdFromPagenum(pgn);
      if ret != 0 { return 0; }
      PagenumSplit(pgn);
      IndicesOk(pgn);
      e := Walk(p, ix);
      e := Trunc(32, e);
    }

    /** The walk, which checks every frame against the storage size. */
    method Walk(p: nat, ix: seq<nat>) returns (e: nat)
      requires TablesOk(View(), tab) && p < |mms| && |ix| == 5 && PathOk(ix)
      ensures e == Lookup(View(), p, ix)
    {
      hide LookupFrom, GetSlot, SlotOk, TablesOk;
      assert ix[1..][1..] == ix[2..] && ix[2..][1..] == ix[3..] && ix[3..][1..] == ix[4..] && ix[4..][1..] == [];
      assert [] + [ix[0]] == ix[..1] && ix[..1] + [ix[1]] == ix[..2];
      assert ix[..2] + [ix[2]] == ix[..3] && ix[..3] + [ix[3]] == ix[..4];
      var p4d := Descend(p, [], ix[0], PgdSlot(p, ix[0]), ix[1], ix[1..]);
      if p4d.None? { return 0; }
      var pud := Descend(p, ix[..1], ix[1], p4d.value, ix[2], ix[2..]);
      if pud.None? { return 0; }
      var pmd := Descend(p, ix[..2], ix[2], pud.value, ix[3], ix[3..]);
      if pmd.None? { return 0; }
      var pt := Descend(p, ix[..3], ix[3], pmd.value, ix[4], ix[4..]);
      if pt.None? { return 0; }
      SlotOfOk(View(), tab, p, ix[..4], ix[4]);
      e := LoadSlot(pt.value);
      LookupEnd(View(), pt.value);
    }

    /** One level of the walk: the slot with index next in the table that s names. */
    method Descend(p: nat, ghost path: seq<nat>, ghost i: nat, s: Slot, next: nat, ghost rest: seq<nat>)
      returns (t: Option<Slot>)
      requires TablesOk(View(), tab) && Node(View(), tab, p, path) && |path| <= 3 && i < ENTRIES
      requires s == SlotOf(tab, p, path, i) && next < ENTRIES && rest != [] && rest[0] == next
      ensures t.Some? ==> Node(View(), tab, p, path + [i]) && t.value == SlotOf(tab, p, path + [i], next)
      ensures LookupFrom(View(), s, rest) == if t.Some? then LookupFrom(View(), t.value, rest[1..]) else 0
    {
      hide Present, Fpn, GetSlot, TablesOk;
      SlotOfOk(View(), tab, p, path, i);
      var e := LoadSlot(s);
      if !Present(e) { return None; }
      if Fpn(e) * PAGE >= storage.Length { return None; }
      FollowLink(View(), tab, p, path, i);
      t := Some(RamSlot(Fpn(e), next));
    }

    // ---- Pages --------------------------------------------------------------

    /** pg_getpage, with the rollback of the frame when the tables cannot be
        completed. */
    method GetPage(p: nat, pgn: int) returns (fpn: Option<nat>)
      requires Valid() && p < |mms|
      modifies this, storage
      ensures Valid() && (View(), fpn) == PgGetpage(old(View()), p, pgn)
    {
      hide PteGetEntry, PteSetFpn, Present, Fpn, Owned, FifoOk, Missing;
      if pgn < 0 || pgn >= MAX_PGN { return None; }
      ghost var tab1, pages1 := PgGetpageOk(View(), tab, pages, p, pgn);
      OwnedTables(View(), tab, pages);
      var pte := GetEntry(p, pgn);
      if Present(pte) { return Some(Fpn(pte)); }
      if free == [] { return None; }
      var f := free[0];
      TakeFrame(View(), tab, pages);
      free := free[1..];
      var ok := SetFpn(p, pgn, f, {f});
      SetFpnShape(old(View()).(free := old(free)[1..]), p, pgn, f);
      if ok {
        mms := mms[p := mms[p].(fifoPgn := [pgn] + mms[p].fifoPgn)];
        fpn := Some(f);
      } else {
        free := [f] + free;
        fpn := None;
      }
      tab, pages := tab1, pages1;
    }

    /** pg_getval. */
    method GetVal(p: nat, addr: nat) returns (r: Option<Byte>)
      requires Valid() && p < |mms|
      modifies this, storage
      ensures Valid() && (View(), r) == PgGetval(old(View()), p, addr)
    {
      hide PgGetpage, Pgn, Offst, MemInv;
      var fpn := GetPage(p, Pgn(addr));
      if fpn.None? { return None; }
      var phyaddr := fpn.value * PAGE + Offst(addr);
      if phyaddr >= storage.Length { return None; }
      r := Some(storage[phyaddr]);
    }

    /** pg_setval. */
    method SetVal(p: nat, addr: nat, value: Byte) returns (ok: bool)
      requires Valid() && p < |mms|
      modifies this, storage
      ensures Valid() && (View(), ok) == PgSetval(old(View()), p, addr, value)
    {
      hide PgGetpage, Pgn, Offst, MemInv, Content;
      ghost var tab1, pages1 := PgSetvalOk(View(), tab, pages, p, addr, value);
      var fpn := GetPage(p, Pgn(addr));
      if fpn.Some? && fpn.value * PAGE + Offst(addr) < storage.Length {
        storage[fpn.value * PAGE + Offst(addr)] := value;
        ok := true;
      } else {
        ok := false;
      }
      tab, pages := tab1, pages1;
    }

    // ---- Instructions -------------------------------------------------------

    /** inc_vma_limit: moves vm_end and leaves sbrk alone. */
    method IncLimit(p: nat, vmaid: int, incSz: nat) returns (ok: bool)
      requires p < |mms|
      modifies this`mms
      ensures mms == old(mms)[p := IncVmaLimit(old(mms)[p], vmaid, incSz).0]
      ensures ok == IncVmaLimit(old(mms)[p], vmaid, incSz).1
    {
      hide AlignUp;
      if !HasVma(vmaid) {
        assert mms[p := mms[p]] == mms;
        return false;
      }
      mms := mms[p := mms[p].(vmEnd := (mms[p].vmEnd + AlignUp(incSz)) % WORD)];
      ok := true;
    }

    /** __alloc. */
    method Allocate(p: nat, vmaid: int, rgid: int, size: nat) returns (addr: Option<nat>)
      requires Valid() && p < |mms|
      modifies this`mms
      ensures Valid()
      ensures mms == old(mms)[p := Alloc(old(mms)[p], vmaid, rgid, size).0]
      ensures addr == Alloc(old(mms)[p], vmaid, rgid, size).1
    {
      hide AlignUp, Present, MemInv;
      ghost var was := View();
      var mm := mms[p];
      assert mms[p := mm] == mms;
      AllocShape(mm, vmaid, rgid, size);
      RegionStep(was, tab, pages, p, Alloc(mm, vmaid, rgid, size).0);
      if rgid < 0 || rgid >= SYMTBL { return None; }
      if !HasVma(vmaid) { return None; }
      if !Unallocated(mm.symrgtbl[rgid]) { return None; }
      var start := mm.sbrk;
      var end := (start + size) % WORD;
      if end > mm.vmEnd {
        var ok := IncLimit(p, vmaid, (end + WORD - mm.sbrk % WORD) % WORD);
        if !ok { return None; }
        mm := mms[p];
        start := mm.sbrk;
        end := (start + size) % WORD;
      }
      if start == 0 {
        start := PAGE;
        end := (start + size) % WORD;
      }
      var rg := Rg(start, end);
      mm := mm.(symrgtbl := mm.symrgtbl[rgid := rg], sbrk := end, handed := mm.handed + [rg]);
      mms := mms[p := mm];
      assert mms == old(mms)[p := mm];
      addr := Some(start);
    }

    /** __free. */
    method Release(p: nat, rgid: int) returns (ok: bool)
      requires Valid() && p < |mms|
      modifies this`mms
      ensures Valid()
      ensures (View(), ok) == (WithMm(old(View()), p, Free(old(mms)[p], rgid).0), Free(old(mms)[p], rgid).1)
    {
      hide MemInv;
      var mm := mms[p];
      assert mms[p := mm] == mms;
      RegionStep(View(), tab, pages, p, Free(mm, rgid).0);
      if rgid < 0 || rgid >= SYMTBL { return false; }
      if Unallocated(mm.symrgtbl[rgid]) { return false; }
      if mm.symrgtbl[rgid].start >= mm.symrgtbl[rgid].end { return false; }
      mms := mms[p := mm.(symrgtbl := mm.symrgtbl[rgid := Rg(0, 0)])];
      ok := true;
    }

    /** The common front of __read and __write. */
    method Locate(p: nat, vmaid: int, rgid: int, offset: nat) returns (addr: Option<nat>)
      requires Valid() && p < |mms|
      modifies this`mms
      ensures Valid() && mms == old(mms)[p := Target(old(mms)[p], vmaid, rgid, offset).0]
      ensures addr == Target(old(mms)[p], vmaid, rgid, offset).1
    {
      hide Alloc, MemInv;
      if rgid < 0 || rgid >= SYMTBL { return None; }
      if Unallocated(mms[p].symrgtbl[rgid]) {
        var r := Allocate(p, vmaid, rgid, 100);
        if r.None? { return None; }
      }
      var rg := mms[p].symrgtbl[rgid];
      if rg.start >= rg.end { return None; }
      if offset >= rg.end - rg.start { return None; }
      addr := Some((rg.start + offset) % WORD);
    }

    /** __read. */
    method ReadByte(p: nat, vmaid: int, rgid: int, offset: nat) returns (r: Option<Byte>)
      requires Valid() && p < |mms|
      modifies this, storage
      ensures Valid() && (View(), r) == Read(old(View()), p, vmaid, rgid, offset)
    {
      hide Target, MemInv, PgGetval;
      var addr := Locate(p, vmaid, rgid, offset);
      if addr.None? { return None; }
      r := GetVal(p, addr.value);
    }

    /** __write. */
    method WriteByte(p: nat, vmaid: int, rgid: int, offset: nat, value: Byte) returns (ok: bool)
      requires Valid() && p < |mms|
      modifies this, storage
      ensures Valid() && (View(), ok) == Write(old(View()), p, vmaid, rgid, offset, value)
    {
      hide Target, MemInv, PgSetval;
      var addr := Locate(p, vmaid, rgid, offset);
      if addr.None? { return false; }
      ok := SetVal(p, addr.value, value);
    }
  }

  lemma LookupEnd(m: State, s: Slot)
    ensures LookupFrom(m, s, []) == GetSlot(m, s)
  {
    hide GetSlot;
  }

  lemma EnsureUnfold(m: State, s: Slot, rest: seq<nat>)
    ensures rest == [] ==> EnsureFrom(m, s, rest) == (m, Some(s))
    ensures rest != [] ==> var (m1, ok) := EnsureTable(m, s);
            EnsureFrom(m, s, rest)
            == if ok then EnsureFrom(m1, RamSlot(Fpn(GetSlot(m1, s)), rest[0]), rest[1..]) else (m1, None)
  {
    hide EnsureTable, Fpn, GetSlot;
  }

  lemma FreeInRange(m: State, tab: Owners, pages: Owners, held: set<nat>)
    requires Owned(m, tab, pages, held)
    ensures forall f :: f in m.free ==> f < Frames(m)
  {
    forall f | f in m.free ensures f < Frames(m) { assert FrameAt(m, tab, pages, held, f); }
  }

  lemma OwnedTables(m: State, tab: Owners, pages: Owners)
    requires Owned(m, tab, pages, {})
    ensures TablesOk(m, tab)
  {
  }
}
