/** One RAM shared by every process, and what each process keeps outside it.
    Page tables below the first level live in frames of this same RAM, as 64-bit
    entries over its bytes, so nothing in the representation keeps a table and a
    data page apart. */
module Machine {
  import opened Pte

  type Byte = x: nat | x < 256

  /** vm_rg_struct. */
  datatype Rg = Rg(start: nat, end: nat)

  /** The fixed symbol region table, symrgtbl[PAGING_MAX_SYMTBL_SZ]. */
  const SYMTBL := 30
  type SymTbl = s: seq<Rg> | |s| == SYMTBL witness seq(SYMTBL, _ => Rg(0, 0))

  /** mm_struct with its one vm_area_struct.  `handed` is history: every region
      __alloc ever returned. */
  datatype Mm = Mm(pgd: seq<nat>, sbrk: nat, vmEnd: nat, symrgtbl: SymTbl, fifoPgn: seq<nat>, handed: seq<Rg>)

  /** memphy_struct (storage and free_fp_list) and the processes using it. */
  datatype State = State(ram: seq<Byte>, free: seq<nat>, mms: seq<Mm>)

  function Frames(m: State): nat { |m.ram| / PAGE }

  // ---- 64-bit entries over bytes (little-endian) ----------------------------

  function Le(bs: seq<Byte>): nat {
    if bs == [] then 0 else bs[0] + 256 * Le(bs[1..])
  }

  function Bytes(e: nat, n: nat): (bs: seq<Byte>)
    ensures |bs| == n
    decreases n
  {
    if n == 0 then [] else [e % 256] + Bytes(e / 256, n - 1)
  }

  function Pow256(n: nat): (r: nat)
    ensures r >= 1
  {
    if n == 0 then 1 else 256 * Pow256(n - 1)
  }

  lemma {:induction false} LeBytes(e: nat, n: nat)
    requires e < Pow256(n)
    ensures Le(Bytes(e, n)) == e
    decreases n
  {
    if n > 0 {
      LeBytes(e / 256, n - 1);
      assert Bytes(e, n)[1..] == Bytes(e / 256, n - 1);
    }
  }

  lemma {:induction false} LeZeros(bs: seq<Byte>)
    requires forall k :: 0 <= k < |bs| ==> bs[k] == 0
    ensures Le(bs) == 0
  {
    if bs != [] { LeZeros(bs[1..]); }
  }

  // ---- Entry slots ----------------------------------------------------------

  /** Where an entry lives: the process's own PGD array, or a table frame. */
  datatype Slot = PgdSlot(p: nat, i: nat) | RamSlot(f: nat, i: nat)

  predicate SlotOk(m: State, s: Slot) {
    match s
    case PgdSlot(p, i) => p < |m.mms| && i < |m.mms[p].pgd|
    case RamSlot(f, i) => f < Frames(m) && i < ENTRIES
  }

  function SlotAddr(f: nat, i: nat): nat { f * PAGE + 8 * i }

  function GetSlot(m: State, s: Slot): nat {
    if !SlotOk(m, s) then 0
    else match s
      case PgdSlot(p, i) => m.mms[p].pgd[i]
      case RamSlot(f, i) => Le(m.ram[SlotAddr(f, i)..SlotAddr(f, i) + 8])
  }

  function StoreWord(ram: seq<Byte>, a: nat, e: nat): (r: seq<Byte>)
    requires a + 8 <= |ram|
    ensures |r| == |ram|
  {
    ram[..a] + Bytes(e, 8) + ram[a + 8..]
  }

  function SetSlot(m: State, s: Slot, e: nat): State {
    if !SlotOk(m, s) then m
    else match s
      case PgdSlot(p, i) => m.(mms := m.mms[p := m.mms[p].(pgd := m.mms[p].pgd[i := e])])
      case RamSlot(f, i) => m.(ram := StoreWord(m.ram, SlotAddr(f, i), e))
  }

  function Zeros(n: nat): (r: seq<Byte>)
    ensures |r| == n && forall k :: 0 <= k < n ==> r[k] == 0
  {
    seq(n, _ => 0)
  }

  /** The loop that clears a fresh table. */
  function ZeroTable(m: State, f: nat): State {
    if f >= Frames(m) then m
    else m.(ram := m.ram[..f * PAGE] + Zeros(PAGE) + m.ram[(f + 1) * PAGE..])
  }

  // ---- Framing of slots -----------------------------------------------------

  lemma FrameFits(m: State, f: nat)
    ensures f < Frames(m) <==> (f + 1) * PAGE <= |m.ram|
  {
  }

  lemma SlotsApart(f: nat, i: nat, g: nat, j: nat)
    requires i < ENTRIES && j < ENTRIES && (f != g || i != j)
    ensures SlotAddr(f, i) + 8 <= SlotAddr(g, j) || SlotAddr(g, j) + 8 <= SlotAddr(f, i)
  {
    if f < g { assert f + 1 <= g; } else if g < f { assert g + 1 <= f; }
  }

  lemma StoredWord(ram: seq<Byte>, a: nat, e: nat)
    requires a + 8 <= |ram| && e < WORD
    ensures Le(StoreWord(ram, a, e)[a..a + 8]) == e
  {
    assert StoreWord(ram, a, e)[a..a + 8] == Bytes(e, 8);
    assert Pow256(8) == WORD;
    LeBytes(e, 8);
  }

  lemma StoredElsewhere(ram: seq<Byte>, a: nat, e: nat, b: nat)
    requires a + 8 <= |ram| && b + 8 <= |ram| && (a + 8 <= b || b + 8 <= a)
    ensures StoreWord(ram, a, e)[b..b + 8] == ram[b..b + 8]
  {
    hide Bytes;
  }

  lemma GetSetSame(m: State, s: Slot, e: nat)
    requires SlotOk(m, s) && e < WORD
    ensures GetSlot(SetSlot(m, s, e), s) == e
  {
    hide Le, StoreWord;
    if s.RamSlot? {
      FrameFits(m, s.f);
      StoredWord(m.ram, SlotAddr(s.f, s.i), e);
    }
  }

  lemma GetSetOther(m: State, s: Slot, e: nat, t: Slot)
    requires SlotOk(m, s) && s != t
    ensures GetSlot(SetSlot(m, s, e), t) == GetSlot(m, t)
  {
    hide Le, StoreWord;
    if s.RamSlot? && t.RamSlot? && SlotOk(m, t) {
      FrameFits(m, s.f);
      FrameFits(m, t.f);
      SlotsApart(s.f, s.i, t.f, t.i);
      StoredElsewhere(m.ram, SlotAddr(s.f, s.i), e, SlotAddr(t.f, t.i));
    }
  }

  lemma ZeroedBytes(m: State, f: nat)
    requires f < Frames(m)
    ensures var ram' := ZeroTable(m, f).ram;
            && |ram'| == |m.ram|
            && (forall a :: 0 <= a < |m.ram| ==> ram'[a] == if f * PAGE <= a < (f + 1) * PAGE then 0 else m.ram[a])
  {
    FrameFits(m, f);
  }

  lemma GetZeroed(m: State, f: nat, t: Slot)
    requires f < Frames(m)
    ensures GetSlot(ZeroTable(m, f), t) == if t.RamSlot? && t.f == f then 0 else GetSlot(m, t)
  {
    hide Le;
    ZeroedBytes(m, f);
    var ram' := ZeroTable(m, f).ram;
    if t.RamSlot? && SlotOk(m, t) {
      FrameFits(m, t.f);
      var b := SlotAddr(t.f, t.i);
      if t.f == f {
        LeZeros(ram'[b..b + 8]);
      } else {
        assert ram'[b..b + 8] == m.ram[b..b + 8] by {
          if t.f < f { assert t.f + 1 <= f; }
        }
      }
    }
  }

  /** Changing bytes outside a frame leaves its entries alone. */
  lemma GetSlotFrame(m: State, m': State, t: Slot)
    requires |m.ram| == |m'.ram|
    requires t.PgdSlot? ==> m.mms == m'.mms
    requires t.RamSlot? ==> forall a :: t.f * PAGE <= a < (t.f + 1) * PAGE && a < |m.ram| ==> m.ram[a] == m'.ram[a]
    ensures GetSlot(m', t) == GetSlot(m, t)
  {
    hide Le;
    if t.RamSlot? && SlotOk(m, t) {
      FrameFits(m, t.f);
      var b := SlotAddr(t.f, t.i);
      assert m'.ram[b..b + 8] == m.ram[b..b + 8];
    }
  }

  /** Frame g holds the same bytes in both states. */
  ghost predicate SameFrame(m: State, m': State, g: nat) {
    && |m'.ram| == |m.ram|
    && forall a :: g * PAGE <= a < (g + 1) * PAGE && a < |m.ram| ==> m'.ram[a] == m.ram[a]
  }

  lemma SetSlotSameFrame(m: State, s: Slot, e: nat, g: nat)
    requires s.RamSlot? ==> s.f != g
    ensures SameFrame(m, SetSlot(m, s, e), g)
  {
    hide Bytes;
    if s.RamSlot? && SlotOk(m, s) {
      FrameFits(m, s.f);
      var b := SlotAddr(s.f, s.i);
      if s.f < g { assert s.f + 1 <= g; } else { assert g + 1 <= s.f; }
      assert forall a :: 0 <= a < |m.ram| && (a < b || b + 8 <= a) ==> StoreWord(m.ram, b, e)[a] == m.ram[a];
    }
  }

  lemma ZeroTableSameFrame(m: State, f: nat, g: nat)
    requires f != g
    ensures SameFrame(m, ZeroTable(m, f), g)
  {
    if f < Frames(m) {
      ZeroedBytes(m, f);
      if f < g { assert f + 1 <= g; } else { assert g + 1 <= f; }
    }
  }
}
