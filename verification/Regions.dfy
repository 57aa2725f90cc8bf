/** Virtual regions of one process: the bump allocator __alloc, __free,
    inc_vma_limit (src/libmem.c:49-128, src/mm-vm.c:26-135). */
module Regions {
  import opened Wrappers
  import opened Bits
  import opened Pte
  import opened Machine

  /** get_vma_by_num: init_mm gives a process one area, which every id up to 0
      names. */
  predicate HasVma(vmaid: int) { vmaid <= 0 }

  /** inc_vma_limit: the limit grows by the page-rounded size, in 64 bits;
      vm_map_ram is handed no frames and maps nothing. */
  function IncVmaLimit(mm: Mm, vmaid: int, incSz: nat): (Mm, bool) {
    if !HasVma(vmaid) then (mm, false)
    else (mm.(vmEnd := (mm.vmEnd + AlignUp(incSz)) % WORD), true)
  }

  predicate Unallocated(rg: Rg) { rg.start == 0 && rg.end == 0 }

  /** __alloc; None is the source's -1.  Sizes and addresses are 64-bit. */
  function Alloc(mm: Mm, vmaid: int, rgid: int, size: nat): (Mm, Option<nat>) {
    if rgid < 0 || rgid >= SYMTBL then (mm, None)
    else if !HasVma(vmaid) then (mm, None)
    else if !Unallocated(mm.symrgtbl[rgid]) then (mm, None)
    else
      var end := (mm.sbrk + size) % WORD;
      var (mm1, ok) := if end > mm.vmEnd
                       then IncVmaLimit(mm, vmaid, (end + WORD - mm.sbrk % WORD) % WORD)
                       else (mm, true);
      if !ok then (mm, None)
      else
        var start := if mm1.sbrk == 0 then PAGE else mm1.sbrk;
        var rg := Rg(start, (start + size) % WORD);
        (mm1.(symrgtbl := mm1.symrgtbl[rgid := rg], sbrk := rg.end, handed := mm1.handed + [rg]), Some(start))
  }

  /** __free; the bump pointer does not move and pages stay mapped. */
  function Free(mm: Mm, rgid: int): (Mm, bool) {
    if rgid < 0 || rgid >= SYMTBL then (mm, false)
    else if Unallocated(mm.symrgtbl[rgid]) then (mm, false)
    else if mm.symrgtbl[rgid].start >= mm.symrgtbl[rgid].end then (mm, false)
    else (mm.(symrgtbl := mm.symrgtbl[rgid := Rg(0, 0)]), true)
  }

  /** The common front of __read and __write: allocate an unallocated region with
      100 bytes, check the bounds, and form the address. */
  function Target(mm: Mm, vmaid: int, rgid: int, offset: nat): (Mm, Option<nat>) {
    if rgid < 0 || rgid >= SYMTBL then (mm, None)
    else
      var (mm1, ok) := if Unallocated(mm.symrgtbl[rgid])
                       then var (a, r) := Alloc(mm, vmaid, rgid, 100); (a, r.Some?)
                       else (mm, true);
      if !ok then (mm1, None)
      else
        var rg := mm1.symrgtbl[rgid];
        if rg.start >= rg.end then (mm1, None)
        else if offset >= rg.end - rg.start then (mm1, None)
        else (mm1, Some((rg.start + offset) % WORD))
  }

  // ---- What the allocator keeps ---------------------------------------------

  predicate Apart(a: Rg, b: Rg) { a.end <= b.start || b.end <= a.start }

  /** Every region ever handed out, live or freed, lies in [4096, sbrk) and apart
      from every other; live regions are among them; sbrk is within the area. */
  ghost predicate RegionsOk(mm: Mm) {
    && PAGE <= mm.sbrk <= mm.vmEnd < WORD
    && (forall i :: 0 <= i < |mm.handed| ==> PAGE <= mm.handed[i].start <= mm.handed[i].end <= mm.sbrk)
    && (forall i, j :: 0 <= i < j < |mm.handed| ==> Apart(mm.handed[i], mm.handed[j]))
    && (forall r :: 0 <= r < SYMTBL && !Unallocated(mm.symrgtbl[r]) ==> mm.symrgtbl[r] in mm.handed)
    && (forall r, s :: 0 <= r < SYMTBL && 0 <= s < SYMTBL && r != s
                       && !Unallocated(mm.symrgtbl[r]) && !Unallocated(mm.symrgtbl[s])
                       ==> Apart(mm.symrgtbl[r], mm.symrgtbl[s]))
  }

  /** Whether a request is within 64 bits: neither the new bump pointer nor the
      page-rounded area limit, if it must move, wraps. */
  predicate Fits(mm: Mm, size: nat) {
    && mm.sbrk + size < WORD
    && (mm.sbrk + size > mm.vmEnd ==> mm.vmEnd + (size + 4095) / PAGE * PAGE < WORD)
  }

  lemma GrowthCovers(sbrk: nat, vmEnd: nat, size: nat)
    requires sbrk <= vmEnd < WORD && size < WORD && sbrk + size < WORD && sbrk + size > vmEnd
    ensures var e := (vmEnd + AlignUp(size)) % WORD;
            sbrk + size <= e <==> vmEnd + (size + 4095) / PAGE * PAGE < WORD
  {
    hide AlignUp;
    AlignUpIsRounding(size);
    var aligned := (size + 4095) / 4096 * 4096;
    assert size <= aligned < size + 4096;
    if size + 4095 < WORD {
      assert AlignUp(size) == aligned;
    } else {
      assert (size + 4095) % WORD < 4096;
      assert AlignUp(size) == 0;
    }
  }

  /** __alloc keeps the allocator's invariant exactly when the request fits in 64
      bits.  (A wrapped request yields a region that ends below its start and a
      bump pointer that has moved back.) */
  lemma AllocKeepsRegionsIff(mm: Mm, vmaid: int, rgid: int, size: nat)
    requires RegionsOk(mm) && size < WORD && Alloc(mm, vmaid, rgid, size).1.Some?
    ensures RegionsOk(Alloc(mm, vmaid, rgid, size).0) <==> Fits(mm, size)
    ensures var mm' := Alloc(mm, vmaid, rgid, size).0; var rg := Rg(mm.sbrk, (mm.sbrk + size) % WORD);
            && mm'.handed == mm.handed + [rg] && mm'.symrgtbl == mm.symrgtbl[rgid := rg] && mm'.sbrk == rg.end
  {
    hide AlignUp;
    var mm' := Alloc(mm, vmaid, rgid, size).0;
    var rg := Rg(mm.sbrk, (mm.sbrk + size) % WORD);
    assert mm'.handed == mm.handed + [rg];
    assert mm'.handed[|mm.handed|] == rg;
    if mm.sbrk + size < WORD {
      assert rg.end == mm.sbrk + size;
      if rg.end > mm.vmEnd {
        assert (rg.end + WORD - mm.sbrk) % WORD == size;
        GrowthCovers(mm.sbrk, mm.vmEnd, size);
      }
      if Fits(mm, size) { NewRegionKeeps(mm, mm', rgid, rg); }
    } else {
      assert rg.end < rg.start;
    }
  }

  lemma NewRegionKeeps(mm: Mm, mm': Mm, rgid: int, rg: Rg)
    requires RegionsOk(mm) && 0 <= rgid < SYMTBL && rg.start == mm.sbrk && rg.start <= rg.end
    requires mm'.handed == mm.handed + [rg] && mm'.symrgtbl == mm.symrgtbl[rgid := rg] && mm'.sbrk == rg.end
    requires rg.end <= mm'.vmEnd < WORD
    ensures RegionsOk(mm')
  {
    assert mm'.handed[|mm.handed|] == rg;
    forall r | 0 <= r < SYMTBL && r != rgid && !Unallocated(mm.symrgtbl[r])
      ensures mm.symrgtbl[r] in mm'.handed && Apart(mm.symrgtbl[r], rg)
    {
      var i :| 0 <= i < |mm.handed| && mm.handed[i] == mm.symrgtbl[r];
      assert mm'.handed[i] == mm.symrgtbl[r];
    }
  }

  lemma FreeKeepsRegions(mm: Mm, rgid: int)
    requires RegionsOk(mm)
    ensures RegionsOk(Free(mm, rgid).0)
  {
  }

  /** A wrapped request: from a fresh process, 2^64 - 1 bytes are granted, the
      bump pointer moves back by one, and the allocator's invariant is lost. */
  lemma WrappedRequest(mm: Mm)
    requires RegionsOk(mm) && Unallocated(mm.symrgtbl[0])
    ensures var (mm', r) := Alloc(mm, 0, 0, WORD - 1);
            r.Some? && mm'.sbrk == mm.sbrk - 1 && !RegionsOk(mm')
  {
    hide AlignUp;
    assert (mm.sbrk + (WORD - 1)) % WORD == mm.sbrk - 1;
    AllocKeepsRegionsIff(mm, 0, 0, WORD - 1);
  }

  /** In a sound process a granted address is inside its region. */
  lemma TargetInRegion(mm: Mm, vmaid: int, rgid: int, offset: nat)
    requires RegionsOk(mm) && (0 <= rgid < SYMTBL && Unallocated(mm.symrgtbl[rgid]) ==> Fits(mm, 100))
    ensures var (mm', t) := Target(mm, vmaid, rgid, offset);
            && RegionsOk(mm')
            && (t.Some? ==> 0 <= rgid < SYMTBL && !Unallocated(mm'.symrgtbl[rgid])
                            && t.value == mm'.symrgtbl[rgid].start + offset < mm'.symrgtbl[rgid].end <= mm'.sbrk)
            && (forall r :: 0 <= r < SYMTBL && !Unallocated(mm.symrgtbl[r]) ==> mm'.symrgtbl[r] == mm.symrgtbl[r])
            && mm'.sbrk <= if 0 <= rgid < SYMTBL && Unallocated(mm.symrgtbl[rgid]) then mm.sbrk + 100 else mm.sbrk
  {
    hide Alloc, Fits, RegionsOk;
    if 0 <= rgid < SYMTBL && Unallocated(mm.symrgtbl[rgid]) {
      if Alloc(mm, vmaid, rgid, 100).1.Some? {
        AllocKeepsRegionsIff(mm, vmaid, rgid, 100);
        FitsSum(mm, 100);
      } else {
        AllocFailure(mm, vmaid, rgid, 100);
      }
    }
    var mm' := Target(mm, vmaid, rgid, offset).0;
    if 0 <= rgid < SYMTBL && !Unallocated(mm'.symrgtbl[rgid]) { LiveBounds(mm', rgid); }
  }

  lemma LiveBounds(mm: Mm, r: int)
    requires RegionsOk(mm) && 0 <= r < SYMTBL && !Unallocated(mm.symrgtbl[r])
    ensures PAGE <= mm.symrgtbl[r].start <= mm.symrgtbl[r].end <= mm.sbrk < WORD
  {
    var i :| 0 <= i < |mm.handed| && mm.handed[i] == mm.symrgtbl[r];
  }

  lemma FitsSum(mm: Mm, size: nat)
    requires Fits(mm, size)
    ensures (mm.sbrk + size) % WORD == mm.sbrk + size
  {
  }

  lemma AllocFailure(mm: Mm, vmaid: int, rgid: int, size: nat)
    requires Alloc(mm, vmaid, rgid, size).1.None?
    ensures Alloc(mm, vmaid, rgid, size).0 == mm
  {
    hide AlignUp;
  }

  // ---- What each operation grants -------------------------------------------

  predicate InTable(rgid: int) { 0 <= rgid < SYMTBL }

  /** inc_vma_limit moves vm_end and nothing else, by the least number of whole
      pages that covers the increment; it fails exactly for an area there is not. */
  lemma LimitMoves(mm: Mm, vmaid: int, incSz: nat)
    requires incSz < WORD
    ensures var (mm', ok) := IncVmaLimit(mm, vmaid, incSz);
            && (ok <==> vmaid <= 0) && (!ok ==> mm' == mm) && mm' == mm.(vmEnd := mm'.vmEnd)
            && (ok && mm.vmEnd + (incSz + 4095) / PAGE * PAGE < WORD ==>
                  && incSz <= mm'.vmEnd - mm.vmEnd < incSz + PAGE && (mm'.vmEnd - mm.vmEnd) % PAGE == 0)
  {
    hide AlignUp;
    AlignUpIsRounding(incSz);
    var pages := (incSz + 4095) / 4096;
    var aligned := pages * 4096;
    assert incSz <= aligned < incSz + 4096;
    if mm.vmEnd + aligned < WORD {
      assert AlignUp(incSz) == aligned;
      ModSmall(mm.vmEnd + aligned, WORD);
      DivModUnique(aligned, 4096, pages, 0);
    }
  }

  /** Where the next region starts. */
  function NextStart(mm: Mm): nat { if mm.sbrk == 0 then PAGE else mm.sbrk }

  /** __alloc, for any request: it is granted exactly for an id in the table whose
      region is unallocated, in an existing area; the address it returns is the
      start of the new region, where the bump pointer was; the other regions stay;
      a refusal changes nothing. */
  lemma AllocGrants(mm: Mm, vmaid: int, rgid: int, size: nat)
    ensures var (mm', addr) := Alloc(mm, vmaid, rgid, size);
            && (addr.Some? <==> InTable(rgid) && vmaid <= 0 && Unallocated(mm.symrgtbl[rgid]))
            && (addr.None? ==> mm' == mm)
            && (addr.Some? ==>
                  && addr.value == NextStart(mm) == mm'.symrgtbl[rgid].start
                  && mm'.symrgtbl[rgid].end == (NextStart(mm) + size) % WORD == mm'.sbrk
                  && mm'.symrgtbl == mm.symrgtbl[rgid := mm'.symrgtbl[rgid]]
                  && (mm.sbrk + size <= mm.vmEnd < WORD ==> mm'.vmEnd == mm.vmEnd))
  {
    hide AlignUp;
    if mm.sbrk + size < WORD { ModSmall(mm.sbrk + size, WORD); }
  }

  /** In a sound process a granted address is the old bump pointer, at or above the
      end of every region handed out before; and it is the address that an access at
      offset 0 of the new region reaches. */
  lemma AllocAddress(mm: Mm, rgid: int, size: nat)
    requires RegionsOk(mm) && 0 < size < WORD && Fits(mm, size)
    ensures var (mm', addr) := Alloc(mm, 0, rgid, size);
            addr.Some? ==>
              && addr == Some(mm.sbrk) && Target(mm', 0, rgid, 0) == (mm', addr)
              && forall i :: 0 <= i < |mm.handed| ==> mm.handed[i].end <= addr.value
  {
    hide Alloc, Unallocated;
    AllocGrants(mm, 0, rgid, size);
    ModSmall(mm.sbrk + size, WORD);
    ModSmall(mm.sbrk, WORD);
    assert Unallocated(Rg(mm.sbrk, mm.sbrk + size)) == false by { NotUnallocated(mm.sbrk, mm.sbrk + size); }
  }

  lemma NotUnallocated(start: nat, end: nat)
    requires start > 0
    ensures !Unallocated(Rg(start, end))
  {
  }

  /** __free.  It succeeds exactly for an allocated region that does not run
      backwards; the region is then unallocated, and the other regions, the bump
      pointer, the area and the history are as before.  A refusal changes nothing. */
  lemma FreeClears(mm: Mm, rgid: int)
    ensures var (mm', ok) := Free(mm, rgid);
            && (ok <==> InTable(rgid) && mm.symrgtbl[rgid].start < mm.symrgtbl[rgid].end)
            && (!ok ==> mm' == mm)
            && (ok ==>
                  && Unallocated(mm'.symrgtbl[rgid]) && mm' == mm.(symrgtbl := mm'.symrgtbl)
                  && forall r :: 0 <= r < SYMTBL && r != rgid ==> mm'.symrgtbl[r] == mm.symrgtbl[r])
  {
  }

  /** The bounds of a process as 64-bit numbers. */
  predicate Words(mm: Mm) { mm.sbrk < WORD && forall r :: 0 <= r < SYMTBL ==> mm.symrgtbl[r].end < WORD }

  /** Offset o of region r can be accessed: inside a live region, or inside the 100
      bytes that an unallocated one is given, if these do not wrap. */
  predicate Grants(mm: Mm, r: int, o: nat) {
    && InTable(r)
    && if Unallocated(mm.symrgtbl[r]) then o < 100 && NextStart(mm) + 100 < WORD
       else o < mm.symrgtbl[r].end - mm.symrgtbl[r].start
  }

  /** The address it is accessed at. */
  function AccessAddr(mm: Mm, r: int, o: nat): nat
    requires InTable(r)
  {
    (if Unallocated(mm.symrgtbl[r]) then NextStart(mm) else mm.symrgtbl[r].start) + o
  }

  /** The front of __read and __write, exactly: what is granted, at which address,
      and what becomes of the regions: a first access allocates its region, even
      when the offset is then refused, and any other leaves them all alone. */
  lemma TargetGrants(mm: Mm, r: int, o: nat)
    requires Words(mm)
    ensures var (mm', t) := Target(mm, 0, r, o);
            && (t.Some? <==> Grants(mm, r, o))
            && (t.Some? ==> t.value == AccessAddr(mm, r, o))
            && mm' == if InTable(r) && Unallocated(mm.symrgtbl[r]) then Alloc(mm, 0, r, 100).0 else mm
  {
    hide Alloc;
    if InTable(r) && Unallocated(mm.symrgtbl[r]) {
      AllocGrants(mm, 0, r, 100);
      WrappedEnd(NextStart(mm), 100);
    }
    if Grants(mm, r, o) { ModSmall(AccessAddr(mm, r, o), WORD); }
  }

  /** A region that wraps ends below its start. */
  lemma WrappedEnd(start: nat, size: nat)
    requires start < WORD && 0 < size < WORD
    ensures (start + size) % WORD == if start + size < WORD then start + size else start + size - WORD
  {
    if start + size < WORD {
      ModSmall(start + size, WORD);
    } else {
      DivModUnique(start + size, WORD, 1, start + size - WORD);
    }
  }
}
