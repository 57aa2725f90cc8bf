/** Demand mapping, regions and the read/write path (src/libmem.c, src/mm-vm.c),
    and the refinement: the whole stack is a map from (process, address) to
    bytes. */
module Memory {
  import opened Wrappers
  import opened Pte
  import opened Machine
  import opened PageTable

  const MAX_PGN := 1024 // PAGING_MAX_PGN

  // ---- The physical memory interface ----------------------------------------

  /** MEMPHY_get_freefp takes the head of the free list. */
  function GetFreefp(m: State): (State, Option<nat>) {
    if m.free == [] then (m, None) else (m.(free := m.free[1..]), Some(m.free[0]))
  }

  /** MEMPHY_put_freefp returns a frame to the free list. */
  function PutFreefp(m: State, f: nat): State { m.(free := [f] + m.free) }

  // ---- The code -------------------------------------------------------------

  function PushFifo(m: State, p: nat, pgn: nat): State {
    if p >= |m.mms| then m else m.(mms := m.mms[p := m.mms[p].(fifoPgn := [pgn] + m.mms[p].fifoPgn)])
  }

  /** pg_getpage: the frame of a page, mapped on first use. */
  function PgGetpage(m: State, p: nat, pgn: int): (State, Option<nat>)
    requires p < |m.mms|
  {
    if pgn < 0 || pgn >= MAX_PGN then (m, None)
    else
      var pte := PteGetEntry(m, p, pgn);
      if Present(pte) then (m, Some(Fpn(pte)))
      else
        var (m0, got) := GetFreefp(m);
        if got.None? then (m0, None)
        else
          var (m1, ok) := PteSetFpn(m0, p, pgn, got.value);
          if ok then (PushFifo(m1, p, pgn), got)
          else (PutFreefp(m1, got.value), None)
  }

  /** pg_getval; MEMPHY_read refuses an address outside the storage. */
  function PgGetval(m: State, p: nat, addr: nat): (State, Option<Byte>)
    requires p < |m.mms|
  {
    var (m1, fpn) := PgGetpage(m, p, Pgn(addr));
    if fpn.None? then (m1, None)
    else
      var phyaddr := fpn.value * PAGE + Offst(addr);
      if phyaddr >= |m1.ram| then (m1, None) else (m1, Some(m1.ram[phyaddr]))
  }

  /** pg_setval; MEMPHY_write refuses an address outside the storage. */
  function PgSetval(m: State, p: nat, addr: nat, value: Byte): (State, bool)
    requires p < |m.mms|
  {
    var (m1, fpn) := PgGetpage(m, p, Pgn(addr));
    if fpn.None? then (m1, false)
    else
      var phyaddr := fpn.value * PAGE + Offst(addr);
      if phyaddr >= |m1.ram| then (m1, false)
      else (m1.(ram := m1.ram[phyaddr := value]), true)
  }

  // ---- Ownership between instructions ---------------------------------------

  /** The page list of a process names exactly its mapped pages, each once. */
  ghost predicate FifoAt(m: State, pages: Owners, p: nat, g: nat) {
    p < |m.mms| && g < MAX_PGN45 ==> (g in m.mms[p].fifoPgn <==> (p, Indices(g)) in pages)
  }

  ghost predicate FifoOk(m: State, pages: Owners) {
    && (forall p :: 0 <= p < |m.mms| ==> NoDup(m.mms[p].fifoPgn))
    && (forall p, g :: 0 <= p < |m.mms| && g in m.mms[p].fifoPgn ==> g < MAX_PGN)
    && (forall p: nat, g: nat :: FifoAt(m, pages, p, g))
  }

  /** What holds between instructions: the frames are partitioned, the page list
      is exact, and frame 0, if free, is the next frame to be handed out. */
  ghost predicate MemInv(m: State, tab: Owners, pages: Owners) {
    && Owned(m, tab, pages, {})
    && FifoOk(m, pages)
    && (m.free != [] ==> 0 !in m.free[1..])
  }

  lemma EntryOfPage(m: State, tab: Owners, pages: Owners, held: set<nat>, p: nat, g: nat)
    requires Owned(m, tab, pages, held) && p < |m.mms|
    ensures Present(PteGetEntry(m, p, g)) <==> (p, Indices(g)) in pages
    ensures (p, Indices(g)) in pages ==> Fpn(PteGetEntry(m, p, g)) == pages[(p, Indices(g))]
  {
    hide Present, Fpn, GetSlot, Lookup, PteGetEntry, Indices;
    var ix := Indices(g);
    IndicesOk(g);
    EntryIsLookup(m, p, g);
    LookupByTab(m, tab, p, ix);
    assert ix[..4] + [ix[4]] == ix;
    assert PageKeyOk(m, tab, pages, (p, ix));
    if (p, ix[..4]) in tab {
      assert MappedAt(m, tab, pages, p, ix[..4], ix[4]);
    } else {
      ZeroNotPresent();
    }
  }

  /** The replacement list agrees with the page table: a page of a process is
      listed, once, exactly when its entry is present.  (Page numbers count modulo
      2^45, what the five indices can tell apart.) */
  lemma FifoMatchesTable(m: State, tab: Owners, pages: Owners, p: nat, g: nat)
    requires MemInv(m, tab, pages) && p < |m.mms|
    ensures g % MAX_PGN45 in m.mms[p].fifoPgn <==> Present(PteGetEntry(m, p, g))
    ensures NoDup(m.mms[p].fifoPgn)
  {
    hide Present, PteGetEntry, Indices, Owned;
    EntryOfPage(m, tab, pages, {}, p, g);
    LowIndices(g, 1);
    assert FifoAt(m, pages, p, g % MAX_PGN45);
  }

  function Elems(s: seq<nat>): set<nat> { if s == [] then {} else Elems(s[1..]) + {s[0]} }

  function Below(n: nat): set<nat> { if n == 0 then {} else Below(n - 1) + {n - 1} }

  lemma {:induction false} ElemsIn(s: seq<nat>, x: nat)
    ensures x in Elems(s) <==> x in s
  {
    if s != [] {
      ElemsIn(s[1..], x);
      assert s == [s[0]] + s[1..];
    }
  }

  lemma {:induction false} ElemsCard(s: seq<nat>)
    requires NoDup(s)
    ensures |Elems(s)| == |s|
  {
    if s != [] {
      ElemsIn(s[1..], s[0]);
      ElemsCard(s[1..]);
    }
  }

  lemma {:induction false} BelowIs(n: nat, x: nat)
    ensures x in Below(n) <==> x < n
  {
    if n > 0 { BelowIs(n - 1, x); }
  }

  lemma {:induction false} BelowCard(n: nat)
    ensures |Below(n)| == n
  {
    if n > 0 {
      BelowIs(n - 1, n - 1);
      BelowCard(n - 1);
    }
  }

  lemma {:induction false} OwnersCard(o: Owners)
    requires Injective(o)
    ensures |o.Values| == |o|
  {
    if o != map[] {
      var k :| k in o;
      Without(o, k);
      OwnersCard(o - {k});
      AddedValue(o - {k}, k, o[k]);
    }
  }

  lemma Without(o: Owners, k: Key)
    requires Injective(o) && k in o
    ensures var o' := o - {k};
            Injective(o') && k !in o' && o == o'[k := o[k]] && |o'| == |o| - 1 && o[k] !in o'.Values
  {
    var o' := o - {k};
    assert o'.Keys == o.Keys - {k};
  }

  /** A frame of the RAM is free, a table or a page; nothing else is. */
  lemma FrameIsSomewhere(m: State, tab: Owners, pages: Owners, x: nat)
    requires Owned(m, tab, pages, {})
    ensures x < Frames(m) <==> x in m.free || x in tab.Values || x in pages.Values
    ensures x in m.free ==> x !in tab.Values && x !in pages.Values
  {
    hide GetSlot, Present, Fpn;
    assert FrameAt(m, tab, pages, {}, x);
    if x in tab.Values {
      var k :| k in tab && tab[k] == x;
      assert KeyOk(m, tab, k);
    }
    if x in pages.Values {
      var k :| k in pages && pages[k] == x;
      assert PageKeyOk(m, tab, pages, k);
    }
  }

  lemma PartsAdd(f: set<nat>, t: set<nat>, p: set<nat>, all: set<nat>)
    requires forall x: nat :: x in all <==> x in f || x in t || x in p
    requires forall x: nat :: x in f ==> x !in t && x !in p
    requires t !! p
    ensures |f| + |t| + |p| == |all|
  {
    assert all == f + (t + p);
    assert |t + p| == |t| + |p|;
  }

  lemma OwnersApart(m: State, tab: Owners, pages: Owners)
    requires Owned(m, tab, pages, {})
    ensures Injective(tab) && Injective(pages) && tab.Values !! pages.Values && NoDup(m.free)
  {
    hide KeyOk, PageKeyOk, LinkedAt, MappedAt, FrameAt;
  }

  /** Conservation: free frames, table frames and data frames add up to the RAM. */
  lemma Conservation(m: State, tab: Owners, pages: Owners)
    requires Owned(m, tab, pages, {})
    ensures |m.free| + |tab| + |pages| == Frames(m)
  {
    hide Elems, Below, Owned;
    OwnersApart(m, tab, pages);
    forall x: nat
      ensures x in Below(Frames(m)) <==> x in Elems(m.free) || x in tab.Values || x in pages.Values
      ensures x in Elems(m.free) ==> x !in tab.Values && x !in pages.Values
    {
      FrameIsSomewhere(m, tab, pages, x);
      BelowIs(Frames(m), x);
      ElemsIn(m.free, x);
    }
    PartsAdd(Elems(m.free), tab.Values, pages.Values, Below(Frames(m)));
    ElemsCard(m.free);
    OwnersCard(tab);
    OwnersCard(pages);
    BelowCard(Frames(m));
  }

  // ---- Taking and returning a frame -----------------------------------------

  lemma TakeFrame(m: State, tab: Owners, pages: Owners)
    requires Owned(m, tab, pages, {}) && m.free != []
    ensures Owned(m.(free := m.free[1..]), tab, pages, {m.free[0]})
  {
    hide Present, Fpn, GetSlot, Indices;
    var f := m.free[0];
    var m0 := m.(free := m.free[1..]);
    SameButFree(m, m0, tab, pages);
    forall x: nat ensures FrameAt(m0, tab, pages, {f}, x) {
      assert FrameAt(m, tab, pages, {}, x);
      HeadOrTail(m.free, x);
    }
  }

  lemma ReturnFrame(m: State, tab: Owners, pages: Owners, f: nat)
    requires Owned(m, tab, pages, {f})
    ensures Owned(PutFreefp(m, f), tab, pages, {})
  {
    hide Present, Fpn, GetSlot, Indices;
    var m0 := PutFreefp(m, f);
    SameButFree(m, m0, tab, pages);
    assert FrameAt(m, tab, pages, {f}, f);
    forall x: nat ensures FrameAt(m0, tab, pages, {}, x) {
      assert FrameAt(m, tab, pages, {f}, x);
    }
  }

  lemma SameSlots(m: State, m0: State, s: Slot)
    requires m0.ram == m.ram && |m0.mms| == |m.mms|
    requires forall p :: 0 <= p < |m.mms| ==> m0.mms[p].pgd == m.mms[p].pgd
    ensures GetSlot(m0, s) == GetSlot(m, s)
  {
  }

  /** Tables and pages do not depend on the free list or on region state. */
  lemma SameButFree(m: State, m0: State, tab: Owners, pages: Owners)
    requires TablesOk(m, tab) && PagesOk(m, tab, pages)
    requires m0.ram == m.ram && |m0.mms| == |m.mms|
    requires forall p :: 0 <= p < |m.mms| ==> m0.mms[p].pgd == m.mms[p].pgd
    ensures TablesOk(m0, tab) && PagesOk(m0, tab, pages)
  {
    hide Present, Fpn, GetSlot;
    forall k: Key ensures KeyOk(m0, tab, k) { assert KeyOk(m, tab, k); }
    forall k: Key ensures PageKeyOk(m0, tab, pages, k) { assert PageKeyOk(m, tab, pages, k); }
    forall p: nat, path: seq<nat>, i: nat ensures LinkedAt(m0, tab, p, path, i) {
      assert LinkedAt(m, tab, p, path, i);
      if Node(m, tab, p, path) { SameSlots(m, m0, SlotOf(tab, p, path, i)); }
    }
    forall p: nat, path: seq<nat>, i: nat ensures MappedAt(m0, tab, pages, p, path, i) {
      assert MappedAt(m, tab, pages, p, path, i);
      if (p, path) in tab { SameSlots(m, m0, RamSlot(tab[(p, path)], i)); }
    }
  }

  // ---- pg_getpage -----------------------------------------------------------

  ghost predicate Extends(pages: Owners, pages': Owners, k: Key) {
    && (forall k' :: k' in pages ==> k' in pages' && pages'[k'] == pages[k'])
    && (forall k' :: k' in pages' ==> k' in pages || k' == k)
  }

  /** Only RAM, the free list, PGDs and page lists differ. */
  ghost predicate SameRegions(m: State, m': State) {
    && |m'.ram| == |m.ram| && |m'.mms| == |m.mms|
    && forall p :: 0 <= p < |m.mms| ==>
         m'.mms[p] == m.mms[p].(pgd := m'.mms[p].pgd, fifoPgn := m'.mms[p].fifoPgn)
  }

  /** pg_getpage in every case.  It succeeds exactly when the page is mapped or
      the free list covers the page and its missing tables; it then returns the
      page's own frame, the first free one for a new page, which goes to the head
      of the page list.  On failure no page is mapped and the frame it had taken
      is back.  Every page already mapped keeps its frame and its bytes. */
  lemma PgGetpageOk(m: State, tab: Owners, pages: Owners, p: nat, pgn: nat)
    returns (tab': Owners, pages': Owners)
    requires MemInv(m, tab, pages) && p < |m.mms| && pgn < MAX_PGN
    ensures var (m', fpn) := PgGetpage(m, p, pgn); var k := (p, Indices(pgn));
            && MemInv(m', tab', pages') && SameRegions(m, m')
            && Extends(pages, pages', k) && SameData(m, m', pages)
            && (fpn.Some? <==> k in pages || |m.free| >= 1 + Missing(tab, p, Indices(pgn), 0))
            && (fpn.Some? <==> k in pages')
            && (fpn.Some? ==> fpn.value == pages'[k])
            && (k in pages ==> m' == m)
            && (k !in pages && fpn.Some? ==>
                  fpn.value == m.free[0] && m'.free == m.free[1 + Missing(tab, p, Indices(pgn), 0)..])
            && (fpn.None? ==> m'.free == if m.free == [] then [] else [m.free[0]])
            && (forall q :: 0 <= q < |m.mms| ==>
                  m'.mms[q].fifoPgn == (if q == p && k !in pages && fpn.Some? then [pgn] else []) + m.mms[q].fifoPgn)
  {
    hide Present, Fpn, PteGetEntry, PteSetFpn, Owned, Missing, Indices, FifoOk;
    var k := (p, Indices(pgn));
    tab', pages' := tab, pages;
    EntryOfPage(m, tab, pages, {}, p, pgn);
    if k !in pages && m.free != [] {
      var f := m.free[0];
      var m0 := m.(free := m.free[1..]);
      TakeFrame(m, tab, pages);
      FrameBound(m, tab, pages, f);
      tab' := PteSetFpnOk(m0, tab, pages, {f}, p, pgn, f);
      var (m1, ok) := PteSetFpn(m0, p, pgn, f);
      if ok {
        pages' := pages[k := f];
        assert {f} - {f} == {};
        AfterMapping(m, m1, tab', pages, p, pgn, f);
      } else {
        ReturnFrame(m1, tab', pages, f);
        FifoSame(m, PutFreefp(m1, f), pages);
      }
    }
  }

  /** A page number outside the page table is refused, and nothing changes. */
  lemma PgGetpageRange(m: State, p: nat, pgn: int)
    requires p < |m.mms|
    ensures pgn < 0 || pgn >= 1024 ==> PgGetpage(m, p, pgn) == (m, None)
  {
    hide PteGetEntry, PteSetFpn;
  }

  lemma FrameBound(m: State, tab: Owners, pages: Owners, f: nat)
    requires Owned(m, tab, pages, {}) && f in m.free
    ensures f < 8192
  {
    assert FrameAt(m, tab, pages, {}, f);
  }

  lemma FifoSame(m: State, m': State, pages: Owners)
    requires FifoOk(m, pages) && SameRest(m, m')
    ensures FifoOk(m', pages)
  {
    hide Indices;
    forall q: nat, g: nat ensures FifoAt(m', pages, q, g) {
      assert FifoAt(m, pages, q, g);
    }
  }

  lemma AfterMapping(m: State, m1: State, tab: Owners, pages: Owners, p: nat, pgn: nat, f: nat)
    requires FifoOk(m, pages) && (m.free != [] ==> 0 !in m.free[1..])
    requires p < |m.mms| && pgn < MAX_PGN && (p, Indices(pgn)) !in pages
    requires SameRest(m, m1) && Owned(m1, tab, pages[(p, Indices(pgn)) := f], {}) && 0 !in m1.free
    ensures MemInv(PushFifo(m1, p, pgn), tab, pages[(p, Indices(pgn)) := f])
    ensures SameRegions(m, PushFifo(m1, p, pgn))
  {
    hide Indices, Present, Fpn, GetSlot;
    var m', pages' := PushFifo(m1, p, pgn), pages[(p, Indices(pgn)) := f];
    SameButFree(m1, m', tab, pages');
    forall x: nat ensures FrameAt(m', tab, pages', {}, x) {
      assert FrameAt(m1, tab, pages', {}, x);
    }
    assert FifoAt(m, pages, p, pgn);
    forall q: nat, g: nat ensures FifoAt(m', pages', q, g) {
      assert FifoAt(m, pages, q, g);
      IndicesInjective(g, pgn);
    }
  }

  // ---- Memory contents ------------------------------------------------------

  /** The byte a process sees at an address: none while the page is unmapped. */
  function Content(m: State, p: nat, a: nat): Option<Byte> {
    var e := PteGetEntry(m, p, Pgn(a));
    if Present(e) && Fpn(e) * PAGE + Offst(a) < |m.ram| then Some(m.ram[Fpn(e) * PAGE + Offst(a)]) else None
  }

  lemma ContentOfPage(m: State, tab: Owners, pages: Owners, p: nat, a: nat)
    requires Owned(m, tab, pages, {}) && p < |m.mms|
    ensures var k := (p, Indices(Pgn(a)));
            if k in pages then
              var phy := pages[k] * PAGE + Offst(a);
              Offst(a) < PAGE && phy < |m.ram| && Content(m, p, a) == Some(m.ram[phy])
            else Content(m, p, a) == None
  {
    hide Present, Fpn, PteGetEntry, Indices, Pgn, Offst;
    var k := (p, Indices(Pgn(a)));
    EntryOfPage(m, tab, pages, {}, p, Pgn(a));
    AddressParts(a);
    assert PageKeyOk(m, tab, pages, k);
    if k in pages { FrameFits(m, pages[k]); }
  }

  /** Addresses that agree in their low 22 bits are one cell. */
  lemma SameCellContent(m: State, tab: Owners, pages: Owners, p: nat, a: nat, b: nat)
    requires Owned(m, tab, pages, {}) && p < |m.mms| && a % SPACE == b % SPACE
    ensures Content(m, p, a) == Content(m, p, b)
  {
    hide Content, Owned, Indices, Pgn, Offst;
    ContentOfPage(m, tab, pages, p, a);
    ContentOfPage(m, tab, pages, p, b);
    SameCell(a, b);
  }

  /** Every byte any process can see is still there. */
  ghost predicate Keeps(m: State, m': State) {
    forall q: nat, a: nat :: q < |m.mms| && Content(m, q, a).Some? ==> Content(m', q, a) == Content(m, q, a)
  }

  lemma SamePagesKeep(m: State, tab: Owners, pages: Owners, m': State, tab': Owners, pages': Owners, k: Key)
    requires Owned(m, tab, pages, {}) && Owned(m', tab', pages', {}) && |m'.mms| >= |m.mms|
    requires Extends(pages, pages', k) && SameData(m, m', pages)
    ensures Keeps(m, m')
  {
    hide Content, Owned, Indices, Pgn, Offst;
    forall q: nat, a: nat | q < |m.mms| && Content(m, q, a).Some?
      ensures Content(m', q, a) == Content(m, q, a)
    {
      ContentOfPage(m, tab, pages, q, a);
      ContentOfPage(m', tab', pages', q, a);
      var k := (q, Indices(Pgn(a)));
      assert SameFrame(m, m', pages[k]);
    }
  }

  /** pg_getval returns what the process sees, and disturbs nobody. */
  lemma PgGetvalOk(m: State, tab: Owners, pages: Owners, p: nat, addr: nat)
    returns (tab': Owners, pages': Owners)
    requires MemInv(m, tab, pages) && p < |m.mms|
    ensures var (m', r) := PgGetval(m, p, addr);
            && MemInv(m', tab', pages') && SameRegions(m, m') && Keeps(m, m')
            && r == Content(m', p, addr)
            && (r.Some? <==> Content(m, p, addr).Some? || |m.free| >= 1 + Missing(tab, p, Indices(Pgn(addr)), 0))
            && (Content(m, p, addr).Some? ==> r == Content(m, p, addr))
  {
    hide Content, Owned, Indices, Pgn, Offst, PgGetpage, FifoOk, Missing;
    AddressParts(addr);
    tab', pages' := PgGetpageOk(m, tab, pages, p, Pgn(addr));
    var m' := PgGetpage(m, p, Pgn(addr)).0;
    SamePagesKeep(m, tab, pages, m', tab', pages', (p, Indices(Pgn(addr))));
    ContentOfPage(m, tab, pages, p, addr);
    ContentOfPage(m', tab', pages', p, addr);
  }

  /** pg_setval.  After success the process sees the value at every address that
      agrees with addr in its low 22 bits, and nothing else changes for anyone;
      after failure nothing changes at all. */
  lemma PgSetvalOk(m: State, tab: Owners, pages: Owners, p: nat, addr: nat, v: Byte)
    returns (tab': Owners, pages': Owners)
    requires MemInv(m, tab, pages) && p < |m.mms|
    ensures var (m', ok) := PgSetval(m, p, addr, v);
            && MemInv(m', tab', pages') && SameRegions(m, m')
            && (ok ==> forall b: nat :: b % SPACE == addr % SPACE ==> Content(m', p, b) == Some(v))
            && (ok ==> forall q: nat, b: nat ::
                  q < |m.mms| && (q != p || b % SPACE != addr % SPACE) && Content(m, q, b).Some?
                  ==> Content(m', q, b) == Content(m, q, b))
            && (!ok ==> Keeps(m, m'))
            && (ok <==> Content(m, p, addr).Some? || |m.free| >= 1 + Missing(tab, p, Indices(Pgn(addr)), 0))
  {
    hide Content, Owned, Indices, Pgn, Offst, PgGetpage, FifoOk, Missing;
    AddressParts(addr);
    tab', pages' := PgGetpageOk(m, tab, pages, p, Pgn(addr));
    var m1 := PgGetpage(m, p, Pgn(addr)).0;
    SamePagesKeep(m, tab, pages, m1, tab', pages', (p, Indices(Pgn(addr))));
    ContentOfPage(m, tab, pages, p, addr);
    ContentOfPage(m1, tab', pages', p, addr);
    if (p, Indices(Pgn(addr))) in pages' {
      ByteWrite(m1, tab', pages', p, addr, v);
      var m' := PgSetval(m, p, addr, v).0;
      forall b: nat | b % SPACE == addr % SPACE ensures Content(m', p, b) == Some(v) {
        assert CellEffect(m1, m', p, addr, v, p, b);
      }
      forall q: nat, b: nat | q < |m.mms| && (q != p || b % SPACE != addr % SPACE) && Content(m, q, b).Some?
        ensures Content(m', q, b) == Content(m, q, b)
      {
        assert CellEffect(m1, m', p, addr, v, q, b);
      }
    }
  }

  ghost predicate CellEffect(m: State, m': State, p: nat, addr: nat, v: Byte, q: nat, b: nat) {
    q < |m.mms| ==>
      Content(m', q, b) == if q == p && b % SPACE == addr % SPACE then Some(v) else Content(m, q, b)
  }

  /** One byte stored in a mapped page: tables are untouched because no data
      frame is a table frame, and no other page is touched because no other page
      has this frame. */
  lemma ByteWrite(m: State, tab: Owners, pages: Owners, p: nat, addr: nat, v: Byte)
    requires MemInv(m, tab, pages) && p < |m.mms| && (p, Indices(Pgn(addr))) in pages
    ensures var phy := pages[(p, Indices(Pgn(addr)))] * PAGE + Offst(addr);
            && phy < |m.ram|
            && var m' := m.(ram := m.ram[phy := v]);
               && MemInv(m', tab, pages)
               && forall q: nat, b: nat :: CellEffect(m, m', p, addr, v, q, b)
  {
    hide Content, Indices, Pgn, Offst, Present, Fpn, GetSlot;
    var k := (p, Indices(Pgn(addr)));
    ContentOfPage(m, tab, pages, p, addr);
    var phy := pages[k] * PAGE + Offst(addr);
    var m' := m.(ram := m.ram[phy := v]);
    ByteWriteOwned(m, tab, pages, k, Offst(addr), v);
    forall q: nat, g: nat ensures FifoAt(m', pages, q, g) { assert FifoAt(m, pages, q, g); }
    forall q: nat, b: nat ensures CellEffect(m, m', p, addr, v, q, b) {
      if q < |m.mms| {
        ContentOfPage(m, tab, pages, q, b);
        ContentOfPage(m', tab, pages, q, b);
        SameCell(addr, b);
        OtherCell(pages, k, Offst(addr), (q, Indices(Pgn(b))), Offst(b));
      }
    }
  }

  lemma SameCell(a: nat, b: nat)
    ensures a % SPACE == b % SPACE <==> Indices(Pgn(a)) == Indices(Pgn(b)) && Offst(a) == Offst(b)
    ensures Offst(a) < PAGE && Offst(b) < PAGE
  {
    hide Indices, Pgn, Offst;
    AddressParts(a);
    AddressParts(b);
    IndicesInjective(Pgn(a), Pgn(b));
  }

  lemma OtherCell(pages: Owners, k: Key, off: nat, k': Key, off': nat)
    requires Injective(pages) && k in pages && off < PAGE && off' < PAGE
    ensures k' in pages ==> (pages[k] * PAGE + off == pages[k'] * PAGE + off' <==> k == k' && off == off')
  {
  }

  lemma ByteWriteOwned(m: State, tab: Owners, pages: Owners, k: Key, off: nat, v: Byte)
    requires Owned(m, tab, pages, {}) && k in pages && off < PAGE && pages[k] * PAGE + off < |m.ram|
    ensures Owned(m.(ram := m.ram[pages[k] * PAGE + off := v]), tab, pages, {})
  {
    hide Present, Fpn, GetSlot;
    var m' := m.(ram := m.ram[pages[k] * PAGE + off := v]);
    forall x: nat ensures FrameAt(m', tab, pages, {}, x) { assert FrameAt(m, tab, pages, {}, x); }
    forall j: Key ensures KeyOk(m', tab, j) { assert KeyOk(m, tab, j); }
    forall j: Key ensures PageKeyOk(m', tab, pages, j) { assert PageKeyOk(m, tab, pages, j); }
    forall p: nat, path: seq<nat>, i: nat ensures LinkedAt(m', tab, p, path, i) {
      assert LinkedAt(m, tab, p, path, i);
      if Node(m, tab, p, path) { TableByte(m, tab, pages, k, off, v, SlotOf(tab, p, path, i)); }
    }
    forall p: nat, path: seq<nat>, i: nat ensures MappedAt(m', tab, pages, p, path, i) {
      assert MappedAt(m, tab, pages, p, path, i);
      if (p, path) in tab { TableByte(m, tab, pages, k, off, v, RamSlot(tab[(p, path)], i)); }
    }
  }

  lemma TableByte(m: State, tab: Owners, pages: Owners, k: Key, off: nat, v: Byte, t: Slot)
    requires Disjoint(tab, pages) && k in pages && off < PAGE && pages[k] * PAGE + off < |m.ram|
    requires t.RamSlot? ==> t.f in tab.Values
    ensures GetSlot(m.(ram := m.ram[pages[k] * PAGE + off := v]), t) == GetSlot(m, t)
  {
    hide GetSlot;
    var phy := pages[k] * PAGE + off;
    if t.RamSlot? {
      var j :| j in tab && tab[j] == t.f;
      assert t.f != pages[k];
      if t.f < pages[k] { assert t.f + 1 <= pages[k]; } else { assert pages[k] + 1 <= t.f; }
    }
    GetSlotFrame(m, m.(ram := m.ram[phy := v]), t);
  }
}
