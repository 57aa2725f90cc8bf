/** The five-level page table (src/mm64.c:201-410), and the ownership discipline
    under which its walk is a map from page numbers to entries. */
module PageTable {
  import opened Wrappers
  import opened Bits
  import opened Pte
  import opened Machine

  // ---- The code -------------------------------------------------------------

  /** One level of ensure_pte_mapping: make the entry in slot s present.  The
      result of init_pte is ignored, as in the source. */
  function EnsureTable(m: State, s: Slot): (State, bool) {
    var e := GetSlot(m, s);
    if Present(e) then (m, true)
    else if m.free == [] then (m, false)
    else
      var f := m.free[0];
      var linked := SetSlot(m.(free := m.free[1..]), s, InitPte(e, true, f, false, 0, 0).1);
      (ZeroTable(linked, f), true)
  }

  /** ensure_pte_mapping from slot s down: the frame of the next table is read
      back from the entry. */
  function EnsureFrom(m: State, s: Slot, rest: seq<nat>): (State, Option<Slot>)
    decreases |rest|
  {
    if rest == [] then (m, Some(s))
    else
      var (m1, ok) := EnsureTable(m, s);
      if !ok then (m1, None)
      else EnsureFrom(m1, RamSlot(Fpn(GetSlot(m1, s)), rest[0]), rest[1..])
  }

  function EnsureMapping(m: State, p: nat, ix: seq<nat>): (State, Option<Slot>)
    requires |ix| == 5
  {
    EnsureFrom(m, PgdSlot(p, ix[0]), ix[1..])
  }

  /** pte_set_fpn; false is the source's -1. */
  function PteSetFpn(m: State, p: nat, pgn: nat, fpn: nat): (State, bool) {
    var (ret, ix) := PdFromPagenum(pgn);
    if ret != 0 then (m, false)
    else
      var (m1, slot) := EnsureMapping(m, p, ix);
      if slot.None? then (m1, false)
      else (SetSlot(m1, slot.value, OnlinePte(fpn)), true)
  }

  /** The walk of pte_get_entry, with its bounds checks. */
  function LookupFrom(m: State, s: Slot, rest: seq<nat>): nat
    decreases |rest|
  {
    var e := GetSlot(m, s);
    if rest == [] then e
    else if !Present(e) then 0
    else if Fpn(e) * PAGE >= |m.ram| then 0
    else LookupFrom(m, RamSlot(Fpn(e), rest[0]), rest[1..])
  }

  function Lookup(m: State, p: nat, ix: seq<nat>): nat
    requires |ix| == 5
  {
    LookupFrom(m, PgdSlot(p, ix[0]), ix[1..])
  }

  /** pte_get_entry: the 64-bit entry is returned as a uint32_t. */
  function PteGetEntry(m: State, p: nat, pgn: nat): nat {
    var (ret, ix) := PdFromPagenum(pgn);
    if ret != 0 then 0 else Trunc(32, Lookup(m, p, ix))
  }

  // ---- Ownership ------------------------------------------------------------

  /** A table or a page is named by its process and the indices leading to it:
      one to four of them for a table, five for a page. */
  type Key = (nat, seq<nat>)
  type Owners = map<Key, nat>

  predicate PathOk(path: seq<nat>) { forall j :: 0 <= j < |path| ==> path[j] < ENTRIES }

  ghost predicate Wf(m: State) {
    && Frames(m) <= 8192
    && forall p :: 0 <= p < |m.mms| ==> |m.mms[p].pgd| == ENTRIES
  }

  ghost predicate Node(m: State, tab: Owners, p: nat, path: seq<nat>) {
    p < |m.mms| && PathOk(path) && (path == [] || (p, path) in tab)
  }

  ghost function SlotOf(tab: Owners, p: nat, path: seq<nat>, i: nat): Slot
    requires path == [] || (p, path) in tab
  {
    if path == [] then PgdSlot(p, i) else RamSlot(tab[(p, path)], i)
  }

  ghost predicate Injective(o: Owners) {
    forall k, k' :: k in o && k' in o && o[k] == o[k'] ==> k == k'
  }

  ghost predicate Disjoint(o: Owners, o': Owners) {
    forall k, k' :: k in o && k' in o' ==> o[k] != o'[k']
  }

  ghost predicate KeyOk(m: State, tab: Owners, k: Key) {
    k in tab ==>
      && k.0 < |m.mms| && 1 <= |k.1| <= 4 && PathOk(k.1)
      && 0 < tab[k] < Frames(m)
      && (|k.1| > 1 ==> (k.0, k.1[..|k.1| - 1]) in tab)
  }

  /** The entry with index i in table (p, path) is present exactly when that
      child table exists, and then names its frame. */
  ghost predicate LinkedAt(m: State, tab: Owners, p: nat, path: seq<nat>, i: nat) {
    Node(m, tab, p, path) && |path| <= 3 && i < ENTRIES ==>
      var e := GetSlot(m, SlotOf(tab, p, path, i));
      && (Present(e) <==> (p, path + [i]) in tab)
      && (Present(e) ==> Fpn(e) == tab[(p, path + [i])])
  }

  /** Table frames: each nonzero, each linked from exactly one parent entry. */
  ghost predicate TablesOk(m: State, tab: Owners) {
    && Wf(m)
    && Injective(tab)
    && (forall k: Key :: KeyOk(m, tab, k))
    && (forall p: nat, path: seq<nat>, i: nat :: LinkedAt(m, tab, p, path, i))
  }

  ghost predicate PageKeyOk(m: State, tab: Owners, pages: Owners, k: Key) {
    k in pages ==> |k.1| == 5 && PathOk(k.1) && (k.0, k.1[..4]) in tab && pages[k] < Frames(m)
  }

  ghost predicate MappedAt(m: State, tab: Owners, pages: Owners, p: nat, path: seq<nat>, i: nat) {
    (p, path) in tab && |path| == 4 && i < ENTRIES ==>
      var e := GetSlot(m, RamSlot(tab[(p, path)], i));
      && (Present(e) <==> (p, path + [i]) in pages)
      && (Present(e) ==> Fpn(e) == pages[(p, path + [i])])
  }

  /** Data frames: each mapped by exactly one page of one process, and no data
      frame is a table frame. */
  ghost predicate PagesOk(m: State, tab: Owners, pages: Owners) {
    && Injective(pages)
    && Disjoint(tab, pages)
    && (forall k: Key :: PageKeyOk(m, tab, pages, k))
    && (forall p: nat, path: seq<nat>, i: nat :: MappedAt(m, tab, pages, p, path, i))
  }

  /** Where frame f is: free, a table, a page, or held by the running call. */
  ghost predicate FrameAt(m: State, tab: Owners, pages: Owners, held: set<nat>, f: nat) {
    && (f in m.free ==> f < Frames(m) && f !in tab.Values && f !in pages.Values && f !in held)
    && (f in held ==> f < Frames(m) && f !in tab.Values && f !in pages.Values)
    && (f < Frames(m) ==> f in m.free || f in tab.Values || f in pages.Values || f in held)
  }

  ghost predicate NoDup(s: seq<nat>) { forall i, j :: 0 <= i < j < |s| ==> s[i] != s[j] }

  /** The frames of RAM partition into the free list, tables, pages and held. */
  ghost predicate FramesOk(m: State, tab: Owners, pages: Owners, held: set<nat>) {
    && NoDup(m.free)
    && (forall f: nat :: FrameAt(m, tab, pages, held, f))
  }

  ghost predicate Owned(m: State, tab: Owners, pages: Owners, held: set<nat>) {
    TablesOk(m, tab) && PagesOk(m, tab, pages) && FramesOk(m, tab, pages, held)
  }

  /** Only RAM, the free list and PGD arrays differ. */
  ghost predicate SameRest(m: State, m': State) {
    && |m'.ram| == |m.ram| && |m'.mms| == |m.mms|
    && forall p :: 0 <= p < |m.mms| ==> m'.mms[p] == m.mms[p].(pgd := m'.mms[p].pgd)
  }

  /** The bytes of every mapped page are the same in both states. */
  ghost predicate SameData(m: State, m': State, pages: Owners) {
    |m'.ram| == |m.ram| && forall k :: k in pages ==> SameFrame(m, m', pages[k])
  }

  // ---- The walk reads the ownership map -------------------------------------

  lemma {:induction false} PrefixIn(m: State, tab: Owners, p: nat, ix: seq<nat>, d: nat)
    requires TablesOk(m, tab) && |ix| == 5 && 1 <= d <= 4 && (p, ix[..4]) in tab
    ensures (p, ix[..d]) in tab
    decreases 4 - d
  {
    if d < 4 {
      PrefixIn(m, tab, p, ix, d + 1);
      assert KeyOk(m, tab, (p, ix[..d + 1]));
      assert ix[..d + 1][..d] == ix[..d];
    }
  }

  lemma {:induction false} LookupFromTab(m: State, tab: Owners, p: nat, ix: seq<nat>, d: nat)
    requires TablesOk(m, tab) && |ix| == 5 && PathOk(ix) && d <= 4 && Node(m, tab, p, ix[..d])
    ensures LookupFrom(m, SlotOf(tab, p, ix[..d], ix[d]), ix[d + 1..])
         == if (p, ix[..4]) in tab then GetSlot(m, RamSlot(tab[(p, ix[..4])], ix[4])) else 0
    decreases 4 - d
  {
    hide Present, Fpn, GetSlot;
    if d < 4 {
      assert LinkedAt(m, tab, p, ix[..d], ix[d]);
      assert ix[..d] + [ix[d]] == ix[..d + 1];
      assert ix[d + 1..][1..] == ix[d + 2..];
      if (p, ix[..d + 1]) in tab {
        assert KeyOk(m, tab, (p, ix[..d + 1]));
        LookupFromTab(m, tab, p, ix, d + 1);
      } else if (p, ix[..4]) in tab {
        PrefixIn(m, tab, p, ix, d + 1);
      }
    }
  }

  /** The five-level walk is one look into the ownership map and one slot. */
  lemma LookupByTab(m: State, tab: Owners, p: nat, ix: seq<nat>)
    requires TablesOk(m, tab) && |ix| == 5 && PathOk(ix) && p < |m.mms|
    ensures Lookup(m, p, ix) == if (p, ix[..4]) in tab then GetSlot(m, RamSlot(tab[(p, ix[..4])], ix[4])) else 0
  {
    hide LookupFrom, GetSlot, TablesOk;
    assert ix[..0] == [];
    LookupFromTab(m, tab, p, ix, 0);
  }

  // ---- Linking one fresh table ----------------------------------------------

  ghost predicate CanLink(m: State, tab: Owners, pages: Owners, held: set<nat>, p: nat, path: seq<nat>, i: nat) {
    && Owned(m, tab, pages, held)
    && Node(m, tab, p, path) && |path| <= 3 && i < ENTRIES
    && !Present(GetSlot(m, SlotOf(tab, p, path, i)))
    && m.free != [] && m.free[0] != 0
  }

  lemma SlotOfOk(m: State, tab: Owners, p: nat, path: seq<nat>, i: nat)
    requires TablesOk(m, tab) && Node(m, tab, p, path) && i < ENTRIES
    ensures SlotOk(m, SlotOf(tab, p, path, i))
  {
    if path != [] { assert KeyOk(m, tab, (p, path)); }
  }

  /** Every slot after linking frame f at s: s itself, the cleared table, and the
      rest as before. */
  lemma LinkedSlots(m: State, s: Slot, t: Slot)
    requires SlotOk(m, s) && !Present(GetSlot(m, s)) && m.free != []
    requires 0 < m.free[0] < Frames(m) && Frames(m) <= 8192
    requires s.RamSlot? ==> s.f != m.free[0]
    ensures var m' := EnsureTable(m, s).0; var f := m.free[0];
            && (t.RamSlot? && t.f == f ==> GetSlot(m', t) == 0)
            && (!(t.RamSlot? && t.f == f) && t != s ==> GetSlot(m', t) == GetSlot(m, t))
            && Present(GetSlot(m', s)) && Fpn(GetSlot(m', s)) == f
  {
    hide Present, Fpn, InitPte, ZeroTable, Le, GetSlot, SetSlot, SlotOk, Frames, EnsureTable;
    var f := m.free[0];
    var m0 := m.(free := m.free[1..]);
    var e := InitPte(GetSlot(m, s), true, f, false, 0, 0).1;
    InitPteLinks(GetSlot(m, s), f);
    ModSmall(f, 8192);
    var m1 := SetSlot(m0, s, e);
    EnsureTableLinks(m, s);
    SlotFreeFrame(m, t);
    SlotFreeFrame(m, s);
    SetSlotFrames(m0, s, e);
    GetSetSame(m0, s, e);
    if t != s { GetSetOther(m0, s, e, t); }
    GetZeroed(m1, f, t);
    GetZeroed(m1, f, s);
  }

  lemma EnsureTableLinks(m: State, s: Slot)
    requires !Present(GetSlot(m, s)) && m.free != []
    ensures var e := InitPte(GetSlot(m, s), true, m.free[0], false, 0, 0).1;
            EnsureTable(m, s) == (ZeroTable(SetSlot(m.(free := m.free[1..]), s, e), m.free[0]), true)
  {
    hide Present, InitPte, ZeroTable, GetSlot, SetSlot;
  }

  lemma SetSlotShape(m: State, s: Slot, e: nat)
    ensures var m' := SetSlot(m, s, e);
            && |m'.ram| == |m.ram| && m'.free == m.free && |m'.mms| == |m.mms|
            && (s.RamSlot? ==> m'.mms == m.mms)
            && (forall t: Slot :: SlotOk(m', t) == SlotOk(m, t))
  {
    hide Bytes;
  }

  lemma SlotFreeFrame(m: State, s: Slot)
    ensures m.free != [] ==>
              var m0 := m.(free := m.free[1..]);
              GetSlot(m0, s) == GetSlot(m, s) && SlotOk(m0, s) == SlotOk(m, s) && Frames(m0) == Frames(m)
  {
  }

  lemma SetSlotFrames(m: State, s: Slot, e: nat)
    ensures Frames(SetSlot(m, s, e)) == Frames(m)
  {
    hide Bytes;
  }

  lemma SlotWriteShape(m: State, s: Slot, e: nat)
    ensures SameRest(m, SetSlot(m, s, e))
    ensures forall p :: 0 <= p < |m.mms| ==> |SetSlot(m, s, e).mms[p].pgd| == |m.mms[p].pgd|
  {
    hide Bytes;
  }

  lemma TableShape(m: State, s: Slot)
    ensures SameRest(m, EnsureTable(m, s).0)
    ensures forall p :: 0 <= p < |m.mms| ==> |EnsureTable(m, s).0.mms[p].pgd| == |m.mms[p].pgd|
  {
    hide Present, GetSlot, InitPte, SetSlot;
    if m.free != [] {
      var e := InitPte(GetSlot(m, s), true, m.free[0], false, 0, 0).1;
      SlotWriteShape(m.(free := m.free[1..]), s, e);
    }
  }

  lemma LinkSameRest(m: State, s: Slot)
    requires Wf(m)
    ensures SameRest(m, EnsureTable(m, s).0) && Wf(EnsureTable(m, s).0)
  {
    hide EnsureTable;
    TableShape(m, s);
  }

  lemma LinkKeepsData(m: State, tab: Owners, pages: Owners, held: set<nat>, p: nat, path: seq<nat>, i: nat)
    requires CanLink(m, tab, pages, held, p, path, i)
    ensures SameData(m, EnsureTable(m, SlotOf(tab, p, path, i)).0, pages)
  {
    hide Present, Fpn, InitPte, ZeroTable, GetSlot, SetSlot;
    var s, f := SlotOf(tab, p, path, i), m.free[0];
    var m0 := m.(free := m.free[1..]);
    var e := InitPte(GetSlot(m, s), true, f, false, 0, 0).1;
    assert FrameAt(m, tab, pages, held, f);
    LinkSameRest(m, s);
    forall k | k in pages ensures SameFrame(m, EnsureTable(m, s).0, pages[k]) {
      SetSlotSameFrame(m0, s, e, pages[k]);
      ZeroTableSameFrame(SetSlot(m0, s, e), f, pages[k]);
    }
  }

  lemma LinkKeepsTables(m: State, tab: Owners, pages: Owners, held: set<nat>, p: nat, path: seq<nat>, i: nat)
    requires CanLink(m, tab, pages, held, p, path, i)
    ensures var m' := EnsureTable(m, SlotOf(tab, p, path, i)).0;
            TablesOk(m', tab[(p, path + [i]) := m.free[0]])
  {
    hide Present, Fpn, EnsureTable, GetSlot;
    var s, f := SlotOf(tab, p, path, i), m.free[0];
    var m' := EnsureTable(m, s).0;
    var child := (p, path + [i]);
    var tab' := tab[child := f];
    assert FrameAt(m, tab, pages, held, f);
    SlotOfOk(m, tab, p, path, i);
    LinkSameRest(m, s);
    assert LinkedAt(m, tab, p, path, i);
    forall k: Key ensures KeyOk(m', tab', k) {
      assert KeyOk(m, tab, k);
      assert child.1[..|child.1| - 1] == path;
    }
    forall q: nat, qath: seq<nat>, j: nat ensures LinkedAt(m', tab', q, qath, j) {
      if Node(m', tab', q, qath) && |qath| <= 3 && j < ENTRIES {
        assert LinkedAt(m, tab, q, qath, j);
        LinkedSlots(m, s, SlotOf(tab', q, qath, j));
        LinkStep(m, tab, p, path, i, f, q, qath, j);
        ZeroNotPresent();
      }
    }
  }

  /** A slot of another table, or another index, is another slot; and the keys
      below it are not the new key. */
  lemma LinkStep(m: State, tab: Owners, p: nat, path: seq<nat>, i: nat, f: nat, q: nat, qath: seq<nat>, j: nat)
    requires TablesOk(m, tab) && f !in tab.Values
    requires Node(m, tab, p, path) && |path| <= 3 && i < ENTRIES
    requires !Present(GetSlot(m, SlotOf(tab, p, path, i)))
    requires q < |m.mms| && PathOk(qath) && |qath| <= 3 && j < ENTRIES
    ensures (p, path + [i]) !in tab
    ensures (q, qath) == (p, path + [i]) ==> (q, qath + [j]) !in tab
    ensures (q, qath + [j]) == (p, path + [i]) <==> (q, qath, j) == (p, path, i)
    ensures (qath == [] || (q, qath) in tab) && (q, qath, j) != (p, path, i)
            ==> SlotOf(tab, q, qath, j) != SlotOf(tab, p, path, i)
    ensures qath != [] && (q, qath) in tab ==> tab[(q, qath)] != f
  {
    assert LinkedAt(m, tab, p, path, i);
    if (q, qath + [j]) in tab {
      assert KeyOk(m, tab, (q, qath + [j]));
      assert (qath + [j])[..|qath|] == qath;
    }
    if qath + [j] == path + [i] {
      assert (qath + [j])[..|qath|] == qath && (path + [i])[..|path|] == path;
    }
  }

  lemma LinkKeepsPages(m: State, tab: Owners, pages: Owners, held: set<nat>, p: nat, path: seq<nat>, i: nat)
    requires CanLink(m, tab, pages, held, p, path, i)
    ensures var m' := EnsureTable(m, SlotOf(tab, p, path, i)).0;
            PagesOk(m', tab[(p, path + [i]) := m.free[0]], pages)
  {
    hide Present, Fpn, EnsureTable, GetSlot;
    var s, f := SlotOf(tab, p, path, i), m.free[0];
    var m' := EnsureTable(m, s).0;
    var child := (p, path + [i]);
    var tab' := tab[child := f];
    assert FrameAt(m, tab, pages, held, f);
    SlotOfOk(m, tab, p, path, i);
    LinkSameRest(m, s);
    assert LinkedAt(m, tab, p, path, i);
    forall k: Key ensures PageKeyOk(m', tab', pages, k) {
      assert PageKeyOk(m, tab, pages, k);
    }
    forall q: nat, qath: seq<nat>, j: nat ensures MappedAt(m', tab', pages, q, qath, j) {
      if (q, qath) in tab' && |qath| == 4 && j < ENTRIES {
        assert MappedAt(m, tab, pages, q, qath, j);
        LinkedSlots(m, s, RamSlot(tab'[(q, qath)], j));
        ZeroNotPresent();
        assert PageKeyOk(m, tab, pages, (q, qath + [j]));
        assert (qath + [j])[..4] == qath;
      }
    }
  }

  lemma LinkKeepsFrames(m: State, tab: Owners, pages: Owners, held: set<nat>, p: nat, path: seq<nat>, i: nat)
    requires CanLink(m, tab, pages, held, p, path, i)
    ensures var m' := EnsureTable(m, SlotOf(tab, p, path, i)).0;
            && m'.free == m.free[1..]
            && FramesOk(m', tab[(p, path + [i]) := m.free[0]], pages, held)
  {
    hide Present, Fpn, GetSlot, Le, InitPte;
    var s, f := SlotOf(tab, p, path, i), m.free[0];
    var child := (p, path + [i]);
    var tab' := tab[child := f];
    var m' := EnsureTable(m, s).0;
    LinkSameRest(m, s);
    assert LinkedAt(m, tab, p, path, i);
    assert m'.free == m.free[1..];
    AddedValue(tab, child, f);
    forall x: nat ensures FrameAt(m', tab', pages, held, x) {
      assert FrameAt(m, tab, pages, held, x);
      HeadOrTail(m.free, x);
    }
  }

  lemma AddedValue(o: Owners, k: Key, f: nat)
    requires k !in o
    ensures o[k := f].Values == o.Values + {f}
  {
    var o' := o[k := f];
    forall v ensures v in o'.Values <==> v in o.Values + {f} {
      if v in o.Values {
        var k' :| k' in o && o[k'] == v;
        assert k' in o' && o'[k'] == v;
      }
      if v == f { assert o'[k] == f; }
    }
  }

  lemma HeadOrTail(s: seq<nat>, x: nat)
    requires s != [] && NoDup(s)
    ensures x in s <==> x == s[0] || x in s[1..]
    ensures s[0] !in s[1..] && NoDup(s[1..])
  {
    if x in s && x != s[0] {
      var i :| 0 <= i < |s| && s[i] == x;
      assert s[1..][i - 1] == x;
    }
  }

  /** Every page of every process translates as before. */
  ghost predicate SameLookups(m: State, m': State) {
    && |m'.mms| == |m.mms|
    && forall q: nat, jx: seq<nat> :: q < |m.mms| && |jx| == 5 && PathOk(jx) ==> Lookup(m', q, jx) == Lookup(m, q, jx)
  }

  lemma LinkKeepsLookups(m: State, tab: Owners, pages: Owners, held: set<nat>, p: nat, path: seq<nat>, i: nat)
    requires CanLink(m, tab, pages, held, p, path, i)
    ensures SameLookups(m, EnsureTable(m, SlotOf(tab, p, path, i)).0)
  {
    hide Present, Fpn, EnsureTable, GetSlot, Lookup;
    var s, f := SlotOf(tab, p, path, i), m.free[0];
    var m' := EnsureTable(m, s).0;
    var tab' := tab[(p, path + [i]) := f];
    assert FrameAt(m, tab, pages, held, f);
    SlotOfOk(m, tab, p, path, i);
    LinkSameRest(m, s);
    LinkKeepsTables(m, tab, pages, held, p, path, i);
    forall q: nat, jx: seq<nat> | q < |m.mms| && |jx| == 5 && PathOk(jx)
      ensures Lookup(m', q, jx) == Lookup(m, q, jx)
    {
      LookupByTab(m, tab, q, jx);
      LookupByTab(m', tab', q, jx);
      assert LinkedAt(m, tab, p, path, i);
      if (q, jx[..4]) in tab' {
        LinkedSlots(m, s, RamSlot(tab'[(q, jx[..4])], jx[4]));
      }
    }
  }

  // ---- ensure_pte_mapping ---------------------------------------------------

  /** How many tables the path still lacks below depth d. */
  ghost function Missing(tab: Owners, p: nat, ix: seq<nat>, d: nat): nat
    requires |ix| == 5 && d <= 4
    decreases 4 - d
  {
    if d == 4 then 0
    else (if (p, ix[..d + 1]) in tab then 0 else 1) + Missing(tab, p, ix, d + 1)
  }

  lemma {:induction false} MissingAfterLink(tab: Owners, p: nat, ix: seq<nat>, d: nat, e: nat, f: nat)
    requires |ix| == 5 && d < e <= 4
    ensures Missing(tab[(p, ix[..d + 1]) := f], p, ix, e) == Missing(tab, p, ix, e)
    decreases 4 - e
  {
    if e < 4 {
      assert |ix[..e + 1]| != |ix[..d + 1]|;
      MissingAfterLink(tab, p, ix, d, e + 1, f);
    }
  }

  /** ensure_pte_mapping from depth d, in every case: success links the missing
      tables and returns the page's slot; running out of frames partway leaves
      tables that are linked, owned and empty.  Either way no translation
      changes and no frame is lost. */
  lemma {:induction false} EnsureFromOk(m: State, tab: Owners, pages: Owners, held: set<nat>,
                                        p: nat, ix: seq<nat>, d: nat)
    returns (tab': Owners)
    requires Owned(m, tab, pages, held) && 0 !in m.free
    requires |ix| == 5 && PathOk(ix) && d <= 4 && Node(m, tab, p, ix[..d])
    ensures var (m', slot) := EnsureFrom(m, SlotOf(tab, p, ix[..d], ix[d]), ix[d + 1..]);
            && Owned(m', tab', pages, held) && 0 !in m'.free
            && SameRest(m, m') && SameLookups(m, m') && SameData(m, m', pages)
            && (slot.Some? <==> |m.free| >= Missing(tab, p, ix, d))
            && (slot.Some? ==> (p, ix[..4]) in tab' && slot.value == RamSlot(tab'[(p, ix[..4])], ix[4]))
            && (slot.Some? ==> m'.free == m.free[Missing(tab, p, ix, d)..])
            && (slot.None? ==> m'.free == [])
    decreases 4 - d
  {
    hide Present, Fpn, EnsureTable, GetSlot, Lookup, TablesOk, PagesOk, FramesOk;
    tab' := tab;
    if d < 4 {
      var path, i := ix[..d], ix[d];
      var s := SlotOf(tab, p, path, i);
      assert path + [i] == ix[..d + 1] && ix[d + 1..][1..] == ix[d + 2..];
      EnsureTableCases(m, s);
      if Present(GetSlot(m, s)) {
        FollowLink(m, tab, p, path, i);
        tab' := EnsureFromOk(m, tab, pages, held, p, ix, d + 1);
      } else if m.free != [] {
        assert m.free[0] in m.free;
        LinkKeeps(m, tab, pages, held, p, path, i);
        MissingAfterLink(tab, p, ix, d, d + 1, m.free[0]);
        var m1, tab1 := EnsureTable(m, s).0, tab[(p, ix[..d + 1]) := m.free[0]];
        FollowLink(m1, tab1, p, path, i);
        tab' := EnsureFromOk(m1, tab1, pages, held, p, ix, d + 1);
      } else {
        AbsentLink(m, tab, p, path, i);
      }
    } else {
      assert ix[5..] == [];
    }
  }

  lemma FollowLink(m: State, tab: Owners, p: nat, path: seq<nat>, i: nat)
    requires TablesOk(m, tab) && Node(m, tab, p, path) && |path| <= 3 && i < ENTRIES
    requires Present(GetSlot(m, SlotOf(tab, p, path, i)))
    ensures Node(m, tab, p, path + [i])
    ensures Fpn(GetSlot(m, SlotOf(tab, p, path, i))) == tab[(p, path + [i])]
  {
    hide Present, Fpn, GetSlot;
    assert LinkedAt(m, tab, p, path, i);
  }

  lemma AbsentLink(m: State, tab: Owners, p: nat, path: seq<nat>, i: nat)
    requires TablesOk(m, tab) && Node(m, tab, p, path) && |path| <= 3 && i < ENTRIES
    requires !Present(GetSlot(m, SlotOf(tab, p, path, i)))
    ensures (p, path + [i]) !in tab
  {
    hide Present, Fpn, GetSlot;
    assert LinkedAt(m, tab, p, path, i);
  }

  /** One level of ensure_pte_mapping that takes a frame keeps the discipline. */
  lemma LinkKeeps(m: State, tab: Owners, pages: Owners, held: set<nat>, p: nat, path: seq<nat>, i: nat)
    requires CanLink(m, tab, pages, held, p, path, i)
    ensures var s := SlotOf(tab, p, path, i);
            var m', tab' := EnsureTable(m, s).0, tab[(p, path + [i]) := m.free[0]];
            && Owned(m', tab', pages, held) && SameRest(m, m') && SameLookups(m, m')
            && SameData(m, m', pages)
            && m'.free == m.free[1..] && (p, path + [i]) !in tab
            && Node(m', tab', p, path) && SlotOf(tab', p, path, i) == s && Present(GetSlot(m', s))
  {
    hide Present, Fpn, EnsureTable, GetSlot, Lookup;
    LinkKeepsTables(m, tab, pages, held, p, path, i);
    LinkKeepsPages(m, tab, pages, held, p, path, i);
    LinkKeepsFrames(m, tab, pages, held, p, path, i);
    LinkKeepsLookups(m, tab, pages, held, p, path, i);
    LinkKeepsData(m, tab, pages, held, p, path, i);
    LinkSameRest(m, SlotOf(tab, p, path, i));
    AbsentLink(m, tab, p, path, i);
    assert FrameAt(m, tab, pages, held, m.free[0]);
    SlotOfOk(m, tab, p, path, i);
    LinkedSlots(m, SlotOf(tab, p, path, i), SlotOf(tab, p, path, i));
  }

  lemma EnsureTableCases(m: State, s: Slot)
    ensures var (m1, ok) := EnsureTable(m, s);
            && (Present(GetSlot(m, s)) ==> m1 == m && ok)
            && (!Present(GetSlot(m, s)) && m.free == [] ==> m1 == m && !ok)
            && (!Present(GetSlot(m, s)) && m.free != [] ==> ok)
  {
  }

  /** One level of ensure_pte_mapping, in every case. */
  lemma EnsureLevelOk(m: State, tab: Owners, pages: Owners, held: set<nat>, p: nat, path: seq<nat>, i: nat)
    returns (tab': Owners)
    requires Owned(m, tab, pages, held) && 0 !in m.free
    requires Node(m, tab, p, path) && |path| <= 3 && i < ENTRIES
    ensures var s := SlotOf(tab, p, path, i); var (m', ok) := EnsureTable(m, s);
            && Owned(m', tab', pages, held) && 0 !in m'.free
            && (ok ==> Node(m', tab', p, path + [i]) && Fpn(GetSlot(m', s)) == tab'[(p, path + [i])])
  {
    hide Present, Fpn, EnsureTable, GetSlot, TablesOk, PagesOk, FramesOk;
    tab' := tab;
    var s := SlotOf(tab, p, path, i);
    EnsureTableCases(m, s);
    if Present(GetSlot(m, s)) {
      FollowLink(m, tab, p, path, i);
    } else if m.free != [] {
      assert m.free[0] in m.free;
      LinkKeeps(m, tab, pages, held, p, path, i);
      tab' := tab[(p, path + [i]) := m.free[0]];
      FollowLink(EnsureTable(m, s).0, tab', p, path, i);
    }
  }

  // ---- pte_set_fpn ----------------------------------------------------------

  /** Writing an entry of a last-level table: the walk of its page reads it back,
      and every other walk is untouched. */
  lemma PtSlotWrite(m: State, tab: Owners, p: nat, ix: seq<nat>, e: nat)
    requires TablesOk(m, tab) && |ix| == 5 && PathOk(ix) && (p, ix[..4]) in tab && e < WORD
    ensures var m' := SetSlot(m, RamSlot(tab[(p, ix[..4])], ix[4]), e);
            && TablesOk(m', tab) && m'.free == m.free && m'.mms == m.mms && |m'.ram| == |m.ram|
            && Lookup(m', p, ix) == e
            && forall q: nat, jx: seq<nat> :: q < |m.mms| && |jx| == 5 && PathOk(jx) && (q, jx) != (p, ix)
                                              ==> Lookup(m', q, jx) == Lookup(m, q, jx)
  {
    hide Present, Fpn, GetSlot, Lookup, StoreWord;
    var s := RamSlot(tab[(p, ix[..4])], ix[4]);
    var m' := SetSlot(m, s, e);
    assert KeyOk(m, tab, (p, ix[..4]));
    forall k: Key ensures KeyOk(m', tab, k) {
      assert KeyOk(m, tab, k);
    }
    forall q: nat, qath: seq<nat>, j: nat ensures LinkedAt(m', tab, q, qath, j) {
      assert LinkedAt(m, tab, q, qath, j);
      if Node(m, tab, q, qath) && |qath| <= 3 {
        GetSetOther(m, s, e, SlotOf(tab, q, qath, j));
      }
    }
    LookupByTab(m', tab, p, ix);
    GetSetSame(m, s, e);
    forall q: nat, jx: seq<nat> | q < |m.mms| && |jx| == 5 && PathOk(jx) && (q, jx) != (p, ix)
      ensures Lookup(m', q, jx) == Lookup(m, q, jx)
    {
      LookupByTab(m, tab, q, jx);
      LookupByTab(m', tab, q, jx);
      if (q, jx[..4]) in tab {
        assert jx == jx[..4] + [jx[4]] && ix == ix[..4] + [ix[4]];
        GetSetOther(m, s, e, RamSlot(tab[(q, jx[..4])], jx[4]));
      }
    }
  }

  /** Mapping a held frame: it becomes the page's data frame. */
  lemma MapHeldFrame(m: State, tab: Owners, pages: Owners, held: set<nat>, p: nat, ix: seq<nat>, f: nat)
    requires Owned(m, tab, pages, held) && |ix| == 5 && PathOk(ix) && (p, ix[..4]) in tab
    requires f in held && (p, ix) !in pages
    ensures Owned(SetSlot(m, RamSlot(tab[(p, ix[..4])], ix[4]), OnlinePte(f)), tab, pages[(p, ix) := f], held - {f})
  {
    hide Present, Fpn, GetSlot, Lookup, OnlinePte, SetSlot, TablesOk, PagesOk;
    var e := OnlinePte(f);
    OnlinePteLinks(f);
    PtSlotWrite(m, tab, p, ix, e);
    var m' := SetSlot(m, RamSlot(tab[(p, ix[..4])], ix[4]), e);
    var pages', held' := pages[(p, ix) := f], held - {f};
    assert FrameAt(m, tab, pages, held, f);
    MapKeepsPages(m, tab, pages, p, ix, f);
    AddedValue(pages, (p, ix), f);
    forall x: nat ensures FrameAt(m', tab, pages', held', x) {
      assert FrameAt(m, tab, pages, held, x);
    }
  }

  lemma MapKeepsPages(m: State, tab: Owners, pages: Owners, p: nat, ix: seq<nat>, f: nat)
    requires TablesOk(m, tab) && PagesOk(m, tab, pages) && |ix| == 5 && PathOk(ix) && (p, ix[..4]) in tab
    requires f < Frames(m) && f !in tab.Values && f !in pages.Values && (p, ix) !in pages
    ensures PagesOk(SetSlot(m, RamSlot(tab[(p, ix[..4])], ix[4]), OnlinePte(f)), tab, pages[(p, ix) := f])
  {
    hide Present, Fpn, GetSlot, OnlinePte, SetSlot, Injective, Disjoint, MappedAt;
    var e := OnlinePte(f);
    var s := RamSlot(tab[(p, ix[..4])], ix[4]);
    SetSlotShape(m, s, e);
    var m' := SetSlot(m, s, e);
    var pages' := pages[(p, ix) := f];
    assert KeyOk(m, tab, (p, ix[..4]));
    AddKeepsApart(tab, pages, (p, ix), f);
    forall k: Key ensures PageKeyOk(m', tab, pages', k) {
      assert PageKeyOk(m, tab, pages, k);
    }
    forall q: nat, qath: seq<nat>, j: nat ensures MappedAt(m', tab, pages', q, qath, j) {
      assert MappedAt(m, tab, pages, q, qath, j);
      MapKeepsEntry(m, tab, pages, p, ix, f, q, qath, j);
    }
  }

  lemma MapKeepsEntry(m: State, tab: Owners, pages: Owners, p: nat, ix: seq<nat>, f: nat,
                      q: nat, qath: seq<nat>, j: nat)
    requires Injective(tab) && MappedAt(m, tab, pages, q, qath, j) && f < 8192
    requires |ix| == 5 && PathOk(ix) && (p, ix[..4]) in tab && SlotOk(m, RamSlot(tab[(p, ix[..4])], ix[4]))
    ensures var m' := SetSlot(m, RamSlot(tab[(p, ix[..4])], ix[4]), OnlinePte(f));
            MappedAt(m', tab, pages[(p, ix) := f], q, qath, j)
  {
    hide Present, Fpn, GetSlot, OnlinePte, SetSlot, Injective, SlotOk;
    OnlinePteLinks(f);
    if (q, qath) in tab && |qath| == 4 {
      MappedSlot(m, tab, RamSlot(tab[(p, ix[..4])], ix[4]), OnlinePte(f), p, ix, q, qath, j);
    }
  }

  lemma AddKeepsApart(tab: Owners, pages: Owners, k: Key, f: nat)
    requires Injective(pages) && Disjoint(tab, pages) && f !in pages.Values && f !in tab.Values
    ensures Injective(pages[k := f]) && Disjoint(tab, pages[k := f])
  {
  }

  lemma MappedSlot(m: State, tab: Owners, s: Slot, e: nat, p: nat, ix: seq<nat>, q: nat, qath: seq<nat>, j: nat)
    requires Injective(tab) && |ix| == 5 && (p, ix[..4]) in tab && s == RamSlot(tab[(p, ix[..4])], ix[4])
    requires SlotOk(m, s) && e < WORD && (q, qath) in tab && |qath| == 4
    ensures var m' := SetSlot(m, s, e); var t := RamSlot(tab[(q, qath)], j);
            if (q, qath + [j]) == (p, ix) then GetSlot(m', t) == e else GetSlot(m', t) == GetSlot(m, t)
  {
    hide GetSlot, SetSlot;
    assert ix == ix[..4] + [ix[4]];
    assert (qath + [j])[..4] == qath;
    if (q, qath + [j]) == (p, ix) {
      GetSetSame(m, s, e);
    } else {
      GetSetOther(m, s, e, RamSlot(tab[(q, qath)], j));
    }
  }

  const MAX_PGN45 := 0x2000_0000_0000

  lemma IndicesOk(pgn: nat)
    ensures |Indices(pgn)| == 5 && PathOk(Indices(pgn))
  {
  }

  /** pte_get_entry is the walk, narrowed. */
  lemma EntryIsLookup(m: State, p: nat, pgn: nat)
    ensures var e := Lookup(m, p, Indices(pgn)); var g := PteGetEntry(m, p, pgn);
            Present(g) == Present(e) && Swapped(g) == Swapped(e) && Fpn(g) == Fpn(e) && g == Trunc(32, e)
  {
    hide Lookup, Present, Swapped, Fpn, PdFromPagenum, Indices;
    PagenumSplit(pgn);
    IndicesOk(pgn);
    NarrowedEntry(Lookup(m, p, Indices(pgn)));
  }

  /** Equal walks give equal entries for every page number of every process. */
  ghost predicate SameEntriesBut(m: State, m': State, p: nat, pgn: nat) {
    forall q: nat, g: nat :: q < |m.mms| && (q != p || g % MAX_PGN45 != pgn % MAX_PGN45)
                             ==> PteGetEntry(m', q, g) == PteGetEntry(m, q, g)
  }

  ghost predicate SameEntries(m: State, m': State) {
    forall q: nat, g: nat :: q < |m.mms| ==> PteGetEntry(m', q, g) == PteGetEntry(m, q, g)
  }

  lemma SameLookupsSameEntries(m: State, m': State)
    requires SameLookups(m, m')
    ensures SameEntries(m, m')
  {
    hide Lookup, Present, Swapped, Fpn, PteGetEntry, Indices;
    forall q: nat, g: nat | q < |m.mms| ensures PteGetEntry(m', q, g) == PteGetEntry(m, q, g) {
      EntryIsLookup(m, q, g);
      EntryIsLookup(m', q, g);
      IndicesOk(g);
    }
  }

  /** Equal walks but for one page give equal entries but for that page. */
  lemma OthersRead(m: State, m': State, p: nat, pgn: nat)
    requires forall q: nat, jx: seq<nat> :: q < |m.mms| && |jx| == 5 && PathOk(jx) && (q, jx) != (p, Indices(pgn))
                                            ==> Lookup(m', q, jx) == Lookup(m, q, jx)
    ensures SameEntriesBut(m, m', p, pgn)
  {
    hide Lookup, Present, Swapped, Fpn, PteGetEntry, Indices;
    forall q: nat, g: nat | q < |m.mms| && (q != p || g % MAX_PGN45 != pgn % MAX_PGN45)
      ensures PteGetEntry(m', q, g) == PteGetEntry(m, q, g)
    {
      IndicesInjective(g, pgn);
      IndicesOk(g);
      EntryIsLookup(m', q, g);
      EntryIsLookup(m, q, g);
    }
  }

  /** What pte_set_fpn does, in both outcomes, from any state the discipline
      allows: it succeeds exactly when the free list covers the missing tables;
      then the page reads back present with the low 13 bits of that frame and
      every other page of every process reads as before; when it fails no page
      reads differently, and the frames it linked stay accounted for. */
  lemma PteSetFpnOk(m: State, tab: Owners, pages: Owners, held: set<nat>, p: nat, pgn: nat, f: nat)
    returns (tab': Owners)
    requires Owned(m, tab, pages, held) && 0 !in m.free && p < |m.mms|
    ensures var (m', ok) := PteSetFpn(m, p, pgn, f);
            && SameRest(m, m') && TablesOk(m', tab') && SameData(m, m', pages)
            && (ok <==> |m.free| >= Missing(tab, p, Indices(pgn), 0))
            && (ok ==> var e := PteGetEntry(m', p, pgn);
                       Present(e) && !Swapped(e) && Fpn(e) == f % 8192 && SameEntriesBut(m, m', p, pgn))
            && (ok ==> m'.free == m.free[Missing(tab, p, Indices(pgn), 0)..])
            && (ok && f in held && (p, Indices(pgn)) !in pages
                ==> Owned(m', tab', pages[(p, Indices(pgn)) := f], held - {f}))
            && (!ok ==> Owned(m', tab', pages, held) && SameEntries(m, m') && m'.free == [])
  {
    hide Lookup, Present, Swapped, Fpn, PteGetEntry, Indices, EnsureFrom, SetSlot, OnlinePte, GetSlot;
    hide PdFromPagenum, Missing;
    PagenumSplit(pgn);
    IndicesOk(pgn);
    var ix := Indices(pgn);
    assert ix[..0] == [];
    tab' := EnsureFromOk(m, tab, pages, held, p, ix, 0);
    var (m1, slot) := EnsureMapping(m, p, ix);
    SameLookupsSameEntries(m, m1);
    if slot.Some? {
      var m' := SetSlot(m1, slot.value, OnlinePte(f));
      OnlinePteLinks(f);
      PtSlotWrite(m1, tab', p, ix, OnlinePte(f));
      forall k | k in pages ensures SameFrame(m, m', pages[k]) {
        SetSlotSameFrame(m1, slot.value, OnlinePte(f), pages[k]);
      }
      EntryIsLookup(m', p, pgn);
      OthersRead(m1, m', p, pgn);
      if f in held && (p, ix) !in pages {
        MapHeldFrame(m1, tab', pages, held, p, ix, f);
      }
    }
  }

  /** init_pte refuses frame 0 and its result is ignored, so a table frame must
      not be frame 0: after one level of ensure_pte_mapping takes a frame, the
      entry is present exactly when that frame's number is not zero. */
  lemma FrameZeroNeverLinks(m: State, s: Slot)
    requires SlotOk(m, s) && !Present(GetSlot(m, s)) && m.free != [] && m.free[0] < Frames(m) <= 8192
    requires s.RamSlot? ==> s.f != m.free[0]
    ensures Present(GetSlot(EnsureTable(m, s).0, s)) <==> m.free[0] != 0
  {
    hide Present, Fpn, InitPte, ZeroTable, Le, GetSlot;
    if m.free[0] != 0 {
      LinkedSlots(m, s, s);
    } else {
      var m0 := m.(free := m.free[1..]);
      var e := GetSlot(m, s);
      InitPteLinks(e, 0);
      SlotFreeFrame(m, s);
      var m1 := SetSlot(m0, s, e);
      GetZeroed(m1, 0, s);
      RewriteSame(m0, s);
    }
  }

  lemma RewriteSame(m: State, s: Slot)
    requires SlotOk(m, s)
    ensures Present(GetSlot(SetSlot(m, s, GetSlot(m, s)), s)) == Present(GetSlot(m, s))
  {
    hide Present, Le;
    if s.RamSlot? {
      FrameFits(m, s.f);
      var a := SlotAddr(s.f, s.i);
      LeBound(m.ram[a..a + 8]);
      assert Pow256(8) == WORD;
      GetSetSame(m, s, GetSlot(m, s));
    }
  }

  lemma {:induction false} LeBound(bs: seq<Byte>)
    ensures Le(bs) < Pow256(|bs|)
  {
    if bs != [] { LeBound(bs[1..]); }
  }
}
