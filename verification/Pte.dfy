/** The value macros, the page-table entry layout and the five-level index split
    (include/bitops.h, include/mm.h, include/mm64.h, src/mm64.c). */
module Pte {
  import opened Bits

  const WORD := 0x1_0000_0000_0000_0000 // 2^64: addr_t is uint64_t
  const PAGE := 4096
  const ENTRIES := 512

  // ---- Value macros ---------------------------------------------------------

  /** `~0U` / `~0ULL`. */
  function Ones(w: nat): nat { Not(w, 0) }

  /** `GENMASK(h, l)` (w = 32) and `GENMASK64(h, l)` (w = 64). */
  function GenMask(w: nat, h: nat, l: nat): nat
    requires l <= h < w
  {
    And(Shl(w, Ones(w), l), Shr(Ones(w), w - h - 1))
  }

  /** `BIT(nr)`, a 32-bit mask. */
  function BitMask(nr: nat): nat { Shl(32, 1, nr) }

  /** The masks are 32-bit unsigned, so `~mask` also clears the upper half of a
      64-bit left-hand side. */
  function SetBit(v: nat, mask: nat): nat { Or(v, mask) }
  function ClrBit(v: nat, mask: nat): nat { And(v, Not(32, mask)) }
  function SetVal(v: nat, value: nat, mask: nat, offst: nat): nat {
    Or(And(v, Not(32, mask)), And(Shl(64, value, offst), mask))
  }
  function GetVal(v: nat, mask: nat, offst: nat): nat { Shr(And(v, mask), offst) }

  lemma {:induction false} GenMaskBit(w: nat, h: nat, l: nat, k: nat)
    requires l <= h < w
    ensures Bit(GenMask(w, h, l), k) == (l <= k <= h)
  {
    AndBit(Shl(w, Ones(w), l), Shr(Ones(w), w - h - 1), k);
    ShlBit(w, Ones(w), l, k);
    ShrBit(Ones(w), w - h - 1, k);
    NotBit(w, 0, k + (w - h - 1));
    ZeroBits(k + (w - h - 1));
    if k >= l {
      NotBit(w, 0, k - l);
      ZeroBits(k - l);
    }
  }

  /** Masking out a field and shifting it down is division and remainder. */
  lemma GetValIsField(v: nat, w: nat, h: nat, l: nat)
    requires l <= h < w
    ensures GetVal(v, GenMask(w, h, l), l) == (v / Pow2(l)) % Pow2(h - l + 1)
  {
    var x, y := GetVal(v, GenMask(w, h, l), l), Trunc(h - l + 1, Shr(v, l));
    forall k: nat ensures Bit(x, k) == Bit(y, k) {
      ShrBit(And(v, GenMask(w, h, l)), l, k);
      AndBit(v, GenMask(w, h, l), k + l);
      GenMaskBit(w, h, l, k + l);
      TruncBit(h - l + 1, Shr(v, l), k);
      ShrBit(v, l, k);
    }
    SameBits(x, y);
  }

  /** What SETVAL leaves in bit k: the written field, the other low bits
      unchanged, and nothing above bit 31. */
  lemma SetValBit(v: nat, x: nat, h: nat, l: nat, k: nat)
    requires l <= h < 32
    ensures Bit(SetVal(v, x, GenMask(32, h, l), l), k)
         == (if l <= k <= h then Bit(x, k - l) else k < 32 && Bit(v, k))
  {
    var m := GenMask(32, h, l);
    OrBit(And(v, Not(32, m)), And(Shl(64, x, l), m), k);
    AndBit(v, Not(32, m), k);
    NotBit(32, m, k);
    AndBit(Shl(64, x, l), m, k);
    GenMaskBit(32, h, l, k);
    ShlBit(64, x, l, k);
  }

  /** GETVAL after SETVAL returns the value modulo the field width. */
  lemma GetAfterSet(v: nat, x: nat, h: nat, l: nat)
    requires l <= h < 32
    ensures GetVal(SetVal(v, x, GenMask(32, h, l), l), GenMask(32, h, l), l) == x % Pow2(h - l + 1)
  {
    hide GenMask, SetVal, And, Bit;
    var m := GenMask(32, h, l);
    var y, z := GetVal(SetVal(v, x, m, l), m, l), Trunc(h - l + 1, x);
    forall k: nat ensures Bit(y, k) == Bit(z, k) {
      ShrBit(And(SetVal(v, x, m, l), m), l, k);
      AndBit(SetVal(v, x, m, l), m, k + l);
      GenMaskBit(32, h, l, k + l);
      SetValBit(v, x, h, l, k + l);
      TruncBit(h - l + 1, x, k);
    }
    SameBits(y, z);
  }

  /** SETVAL on one field leaves every disjoint field as it was. */
  lemma GetOtherAfterSet(v: nat, x: nat, h: nat, l: nat, h': nat, l': nat)
    requires l <= h < 32 && l' <= h' < 32 && (h' < l || h < l')
    ensures GetVal(SetVal(v, x, GenMask(32, h, l), l), GenMask(32, h', l'), l')
         == GetVal(v, GenMask(32, h', l'), l')
  {
    hide GenMask, SetVal, And, Bit;
    var s, m' := SetVal(v, x, GenMask(32, h, l), l), GenMask(32, h', l');
    forall k: nat ensures Bit(GetVal(s, m', l'), k) == Bit(GetVal(v, m', l'), k) {
      ShrBit(And(s, m'), l', k);
      ShrBit(And(v, m'), l', k);
      AndBit(s, m', k + l');
      AndBit(v, m', k + l');
      GenMaskBit(32, h', l', k + l');
      SetValBit(v, x, h, l, k + l');
    }
    SameBits(GetVal(s, m', l'), GetVal(v, m', l'));
  }

  lemma BitMaskBit(nr: nat, k: nat)
    requires nr < 32
    ensures Bit(BitMask(nr), k) == (k == nr)
  {
    ShlBit(32, 1, nr, k);
    if k > nr {
      BitStep(1, k - nr);
      ZeroBits(k - nr - 1);
    } else if k == nr {
      BitZero(1);
    }
  }

  /** Testing `v & BIT(nr)` reads bit nr. */
  lemma {:induction false} TestBit(v: nat, nr: nat)
    requires nr < 32
    ensures (And(v, BitMask(nr)) != 0) == Bit(v, nr)
  {
    var a := And(v, BitMask(nr));
    if Bit(v, nr) {
      AndBit(v, BitMask(nr), nr);
      BitMaskBit(nr, nr);
      ZeroBits(nr);
    } else {
      forall k: nat ensures Bit(a, k) == Bit(0, k) {
        AndBit(v, BitMask(nr), k);
        BitMaskBit(nr, k);
        ZeroBits(k);
      }
      SameBits(a, 0);
    }
  }

  // ---- Page-table entries ---------------------------------------------------

  function PresentMask(): nat { BitMask(31) }
  function SwappedMask(): nat { BitMask(30) }
  function DirtyMask(): nat { BitMask(28) }
  function FpnMask(): nat { GenMask(32, 12, 0) }
  function SwptypMask(): nat { GenMask(32, 4, 0) }
  function SwpoffMask(): nat { GenMask(32, 25, 5) }

  /** `PAGING_PTE_PRESENT` and `PAGING_PAGE_PRESENT`. */
  predicate Present(e: nat) { And(e, PresentMask()) != 0 }
  predicate Swapped(e: nat) { And(e, SwappedMask()) != 0 }
  predicate Dirty(e: nat) { And(e, DirtyMask()) != 0 }
  /** `PAGING_PTE_FPN` and `PAGING_FPN`. */
  function Fpn(e: nat): nat { GetVal(e, FpnMask(), 0) }

  /** init_pte: a present, unswapped entry must not name frame 0. */
  function InitPte(pte: nat, pre: bool, fpn: nat, swp: bool, swptyp: nat, swpoff: nat): (r: (int, nat)) {
    if pre then
      if !swp then
        if fpn == 0 then (-1, pte)
        else
          (0, SetVal(ClrBit(ClrBit(SetBit(pte, PresentMask()), SwappedMask()), DirtyMask()), fpn, FpnMask(), 0))
      else
        var marked := ClrBit(SetBit(SetBit(pte, PresentMask()), SwappedMask()), DirtyMask());
        (0, SetVal(SetVal(marked, swptyp, SwptypMask(), 0), swpoff, SwpoffMask(), 5))
    else (0, pte)
  }

  /** The entry pte_set_fpn writes (src/mm64.c:223-226). */
  function OnlinePte(fpn: nat): nat {
    SetVal(ClrBit(SetBit(0, PresentMask()), SwappedMask()), fpn, FpnMask(), 0)
  }

  /** The entry pte_set_swap leaves (src/mm64.c:187-191). */
  function SwapPte(e: nat, swptyp: nat, swpoff: nat): nat {
    SetVal(SetVal(SetBit(SetBit(e, PresentMask()), SwappedMask()), swptyp, SwptypMask(), 0), swpoff, SwpoffMask(), 5)
  }

  lemma ZeroNotPresent()
    ensures !Present(0)
  {
  }

  lemma FpnIsLow13(e: nat)
    ensures Fpn(e) == e % 8192
  {
    hide GetVal, GenMask;
    GetValIsField(e, 32, 12, 0);
    EntryWidths();
  }

  lemma MarkedBit(v: nat, on: nat, off: nat, k: nat)
    requires on < 32 && off < 32 && on != off && k < 32
    ensures Bit(ClrBit(SetBit(v, BitMask(on)), BitMask(off)), k)
         == (k == on || (k != off && Bit(v, k)))
  {
    AndBit(SetBit(v, BitMask(on)), Not(32, BitMask(off)), k);
    NotBit(32, BitMask(off), k);
    BitMaskBit(off, k);
    OrBit(v, BitMask(on), k);
    BitMaskBit(on, k);
  }

  lemma FitsFromBits(e: nat, w: nat)
    requires forall k: nat :: k >= w ==> !Bit(e, k)
    ensures e < Pow2(w)
  {
    forall k: nat ensures Bit(e, k) == Bit(Trunc(w, e), k) {
      TruncBit(w, e, k);
    }
    SameBits(e, Trunc(w, e));
  }

  lemma SetValWidth(v: nat, x: nat, h: nat, l: nat)
    requires l <= h < 32
    ensures SetVal(v, x, GenMask(32, h, l), l) < Pow2(32)
  {
    hide SetVal, GenMask, Bit, Pow2;
    forall k: nat | k >= 32 ensures !Bit(SetVal(v, x, GenMask(32, h, l), l), k) {
      SetValBit(v, x, h, l, k);
    }
    FitsFromBits(SetVal(v, x, GenMask(32, h, l), l), 32);
  }

  /** Writing a frame number into a word: the flags stay, the frame number is the
      low 13 bits, and the word fits 32 bits. */
  lemma FrameWritten(v: nat, f: nat)
    ensures var e := SetVal(v, f, FpnMask(), 0);
            && Present(e) == Bit(v, 31) && Swapped(e) == Bit(v, 30)
            && Fpn(e) == f % Pow2(13) && e < Pow2(32)
  {
    hide SetVal, GenMask, GetVal, Bit, And, BitMask, Pow2;
    var e := SetVal(v, f, FpnMask(), 0);
    TestBit(e, 31);
    TestBit(e, 30);
    SetValBit(v, f, 12, 0, 31);
    SetValBit(v, f, 12, 0, 30);
    GetAfterSet(v, f, 12, 0);
    SetValWidth(v, f, 12, 0);
  }

  lemma EntryWidths()
    ensures Pow2(13) == 8192 && Pow2(32) == 0x1_0000_0000
  {
    PowerTable();
    assert Pow2(13) == 8192;
  }

  /** Linking a table frame with init_pte: whatever the slot held before, the
      entry is present and names the frame's low 13 bits; frame 0 is refused and
      the slot keeps its value. */
  lemma InitPteLinks(e: nat, f: nat)
    ensures InitPte(e, true, f, false, 0, 0).0 == 0 <==> f != 0
    ensures f == 0 ==> InitPte(e, true, f, false, 0, 0).1 == e
    ensures f != 0 ==> var e' := InitPte(e, true, f, false, 0, 0).1;
                       Present(e') && !Swapped(e') && Fpn(e') == f % 8192 && e' < 0x1_0000_0000
  {
    hide SetVal, SetBit, ClrBit, GenMask, GetVal, Bit, And, BitMask, Pow2, Present, Swapped, Fpn;
    if f != 0 {
      var a := ClrBit(SetBit(e, PresentMask()), SwappedMask());
      MarkedBit(e, 31, 30, 31);
      MarkedBit(e, 31, 30, 30);
      ClearedFlag(a, 28, 31);
      ClearedFlag(a, 28, 30);
      FrameWritten(ClrBit(a, DirtyMask()), f);
      EntryWidths();
    }
  }

  lemma OnlinePteLinks(f: nat)
    ensures Present(OnlinePte(f)) && !Swapped(OnlinePte(f))
    ensures Fpn(OnlinePte(f)) == f % 8192 && OnlinePte(f) < 0x1_0000_0000
  {
    hide SetVal, SetBit, ClrBit, GenMask, GetVal, Bit, And, BitMask, Pow2, Present, Swapped, Fpn;
    MarkedBit(0, 31, 30, 31);
    MarkedBit(0, 31, 30, 30);
    FrameWritten(ClrBit(SetBit(0, PresentMask()), SwappedMask()), f);
    EntryWidths();
  }

  /** Every bit of an entry that init_pte puts on-line: the frame number, the
      present flag set, the swapped and dirty flags clear, the other low bits as
      they were, and nothing above bit 31. */
  lemma InitPteBits(e: nat, f: nat, k: nat)
    requires f != 0
    ensures Bit(InitPte(e, true, f, false, 0, 0).1, k)
         == if k <= 12 then Bit(f, k)
            else k == 31 || (k < 31 && k != 30 && k != 28 && Bit(e, k))
  {
    hide SetVal, SetBit, ClrBit, GenMask, Bit, And, BitMask, Pow2;
    var a := ClrBit(SetBit(e, PresentMask()), SwappedMask());
    SetValBit(ClrBit(a, DirtyMask()), f, 12, 0, k);
    if k < 32 {
      MarkedBit(e, 31, 30, k);
      ClearedFlag(a, 28, k);
    }
  }

  lemma ClearedFlag(v: nat, off: nat, k: nat)
    requires off < 32 && k < 32
    ensures Bit(ClrBit(v, BitMask(off)), k) == (k != off && Bit(v, k))
  {
    hide Bit, And, Not, BitMask;
    AndBit(v, Not(32, BitMask(off)), k);
    NotBit(32, BitMask(off), k);
    BitMaskBit(off, k);
  }

  lemma SetFlag(v: nat, on: nat, k: nat)
    requires on < 32
    ensures Bit(SetBit(v, BitMask(on)), k) == (k == on || Bit(v, k))
  {
    hide Bit, Or, BitMask;
    OrBit(v, BitMask(on), k);
    BitMaskBit(on, k);
  }

  /** Every bit of an on-line entry: the frame number and the present flag. */
  lemma OnlinePteBits(f: nat, k: nat)
    ensures Bit(OnlinePte(f), k) == if k <= 12 then Bit(f, k) else k == 31
  {
    hide SetVal, SetBit, ClrBit, GenMask, Bit, And, BitMask, Pow2;
    SetValBit(ClrBit(SetBit(0, PresentMask()), SwappedMask()), f, 12, 0, k);
    if k < 32 {
      MarkedBit(0, 31, 30, k);
      ZeroBits(k);
    }
  }

  /** Every bit of an entry that init_pte marks swapped out. */
  lemma InitPteSwapBits(e: nat, f: nat, swptyp: nat, swpoff: nat, k: nat)
    ensures InitPte(e, true, f, true, swptyp, swpoff).0 == 0
    ensures Bit(InitPte(e, true, f, true, swptyp, swpoff).1, k)
         == if k <= 4 then Bit(swptyp, k)
            else if k <= 25 then Bit(swpoff, k - 5)
            else k == 31 || k == 30 || (k < 30 && k != 28 && Bit(e, k))
  {
    hide SetVal, SetBit, ClrBit, GenMask, Bit, And, BitMask, Pow2;
    var a := SetBit(SetBit(e, PresentMask()), SwappedMask());
    var b := ClrBit(a, DirtyMask());
    SetValBit(SetVal(b, swptyp, SwptypMask(), 0), swpoff, 25, 5, k);
    SetValBit(b, swptyp, 4, 0, k);
    if k < 32 {
      ClearedFlag(a, 28, k);
      SetFlag(SetBit(e, PresentMask()), 30, k);
      SetFlag(e, 31, k);
    }
  }

  /** An entry marked swapped out reads as such, is clean, and gives back its swap
      type and offset; with `pre` 0 nothing is written. */
  lemma InitPteSwapsOut(e: nat, f: nat, swptyp: nat, swpoff: nat)
    ensures var s := InitPte(e, true, f, true, swptyp, swpoff).1;
            && Present(s) && Swapped(s) && !Dirty(s)
            && GetVal(s, SwptypMask(), 0) == swptyp % 32 && GetVal(s, SwpoffMask(), 5) == swpoff % 0x20_0000
    ensures InitPte(e, false, f, true, swptyp, swpoff) == (0, e)
  {
    hide SetVal, SetBit, ClrBit, GenMask, Bit, And, BitMask, GetVal, Pow2;
    var s := InitPte(e, true, f, true, swptyp, swpoff).1;
    var b := ClrBit(SetBit(SetBit(e, PresentMask()), SwappedMask()), DirtyMask());
    InitPteSwapBits(e, f, swptyp, swpoff, 31);
    InitPteSwapBits(e, f, swptyp, swpoff, 30);
    InitPteSwapBits(e, f, swptyp, swpoff, 28);
    TestBit(s, 31);
    TestBit(s, 30);
    TestBit(s, 28);
    GetAfterSet(SetVal(b, swptyp, SwptypMask(), 0), swpoff, 25, 5);
    GetAfterSet(b, swptyp, 4, 0);
    GetOtherAfterSet(SetVal(b, swptyp, SwptypMask(), 0), swpoff, 25, 5, 4, 0);
    SwapWidths();
  }

  /** The swap fields lie below the flags. */
  lemma SwapPteFlag(e: nat, swptyp: nat, swpoff: nat, k: nat)
    requires k == 31 || k == 30
    ensures Bit(SwapPte(e, swptyp, swpoff), k)
  {
    hide Bit, SetVal, GenMask, Or, BitMask;
    var a := SetBit(SetBit(e, PresentMask()), SwappedMask());
    SetValBit(SetVal(a, swptyp, SwptypMask(), 0), swpoff, 25, 5, k);
    SetValBit(a, swptyp, 4, 0, k);
    OrBit(SetBit(e, PresentMask()), SwappedMask(), k);
    OrBit(e, PresentMask(), k);
    BitMaskBit(31, k);
    BitMaskBit(30, k);
  }

  lemma SwapWidths()
    ensures Pow2(5) == 32 && Pow2(21) == 0x20_0000
  {
    PowerTable();
    assert Pow2(5) == 32;
  }

  lemma SwapPteFields(e: nat, swptyp: nat, swpoff: nat)
    ensures var s := SwapPte(e, swptyp, swpoff);
            && GetVal(s, SwptypMask(), 0) == swptyp % Pow2(5)
            && GetVal(s, SwpoffMask(), 5) == swpoff % Pow2(21)
  {
    hide Bit, SetVal, GenMask, GetVal, BitMask, And, SetBit, Pow2;
    var a := SetBit(SetBit(e, PresentMask()), SwappedMask());
    var b := SetVal(a, swptyp, SwptypMask(), 0);
    GetAfterSet(b, swpoff, 25, 5);
    GetAfterSet(a, swptyp, 4, 0);
    GetOtherAfterSet(b, swpoff, 25, 5, 4, 0);
  }

  /** Swap type and swap offset both survive encoding, and the entry reads as a
      swapped-out page. */
  lemma SwapPteRoundTrip(e: nat, swptyp: nat, swpoff: nat)
    ensures var s := SwapPte(e, swptyp, swpoff);
            && Present(s) && Swapped(s)
            && GetVal(s, SwptypMask(), 0) == swptyp % 32
            && GetVal(s, SwpoffMask(), 5) == swpoff % 0x20_0000
  {
    hide Bit, GenMask, GetVal, And, SwapPte, Pow2;
    SwapPteFields(e, swptyp, swpoff);
    SwapWidths();
    SwapPteFlag(e, swptyp, swpoff, 31);
    SwapPteFlag(e, swptyp, swpoff, 30);
    TestBit(SwapPte(e, swptyp, swpoff), 31);
    TestBit(SwapPte(e, swptyp, swpoff), 30);
  }

  /** Narrowing an entry to uint32_t keeps its flags and its frame number. */
  lemma NarrowedEntry(e: nat)
    ensures Present(Trunc(32, e)) == Present(e)
    ensures Swapped(Trunc(32, e)) == Swapped(e)
    ensures Fpn(Trunc(32, e)) == Fpn(e)
  {
    hide Trunc, Bit, And, Fpn;
    var t := Trunc(32, e);
    TestBit(t, 31);
    TestBit(e, 31);
    TestBit(t, 30);
    TestBit(e, 30);
    TruncBit(32, e, 31);
    TruncBit(32, e, 30);
    FpnIsLow13(t);
    FpnIsLow13(e);
    NarrowedMod(e);
  }

  lemma NarrowedMod(e: nat)
    ensures Trunc(32, e) % 8192 == e % 8192
  {
    hide Pow2;
    EntryWidths();
    var q, r := e / 8192, e % 8192;
    var g, m := q / 0x8_0000, q % 0x8_0000;
    DivModUnique(e, 0x1_0000_0000, g, 8192 * m + r);
    DivModUnique(8192 * m + r, 8192, m, r);
  }

  // ---- Index split ----------------------------------------------------------

  /** get_pd_from_address: five masked fields, then five range checks. */
  function PdFromAddress(addr: nat): (r: (int, seq<nat>)) {
    var pgd := GetVal(addr, GenMask(64, 56, 48), 48);
    var p4d := GetVal(addr, GenMask(64, 47, 39), 39);
    var pud := GetVal(addr, GenMask(64, 38, 30), 30);
    var pmd := GetVal(addr, GenMask(64, 29, 21), 21);
    var pt := GetVal(addr, GenMask(64, 20, 12), 12);
    var out := [pgd, p4d, pud, pmd, pt];
    if pgd >= ENTRIES then (-1, out)
    else if p4d >= ENTRIES then (-1, out)
    else if pud >= ENTRIES then (-1, out)
    else if pmd >= ENTRIES then (-1, out)
    else if pt >= ENTRIES then (-1, out)
    else (0, out)
  }

  function PdFromPagenum(pgn: nat): (r: (int, seq<nat>)) { PdFromAddress(Shl(64, pgn, 12)) }

  /** The indices of a page number, most significant first. */
  function Indices(pgn: nat): seq<nat> {
    [pgn / 0x10_0000_0000 % 512, pgn / 0x800_0000 % 512, pgn / 0x4_0000 % 512, pgn / 512 % 512, pgn % 512]
  }

  lemma PowerTable()
    ensures Pow2(0) == 1 && Pow2(9) == 512 && Pow2(12) == 4096 && Pow2(21) == 0x20_0000
    ensures Pow2(30) == 0x4000_0000 && Pow2(39) == 0x80_0000_0000
    ensures Pow2(48) == 0x1_0000_0000_0000 && Pow2(64) == WORD
    ensures Pow2(10) == 1024 && Pow2(32) == 0x1_0000_0000
  {
    assert Pow2(9) == 512 && Pow2(10) == 1024 && Pow2(12) == 4096 && Pow2(21) == 0x20_0000;
    assert Pow2(30) == 0x4000_0000 && Pow2(32) == 0x1_0000_0000 && Pow2(39) == 0x80_0000_0000;
    assert Pow2(48) == 0x1_0000_0000_0000;
    assert Pow2(60) == 0x1000_0000_0000_0000;
    assert Pow2(61) == 2 * Pow2(60) && Pow2(62) == 2 * Pow2(61) && Pow2(63) == 2 * Pow2(62);
    assert Pow2(64) == 2 * Pow2(63);
  }

  lemma PdFields(addr: nat)
    ensures PdFromAddress(addr) == (0, [addr / 0x1_0000_0000_0000 % 512, addr / 0x80_0000_0000 % 512,
                                        addr / 0x4000_0000 % 512, addr / 0x20_0000 % 512, addr / 4096 % 512])
  {
    PowerTable();
    GetValIsField(addr, 64, 56, 48);
    GetValIsField(addr, 64, 47, 39);
    GetValIsField(addr, 64, 38, 30);
    GetValIsField(addr, 64, 29, 21);
    GetValIsField(addr, 64, 20, 12);
  }

  lemma DivTower(x: nat)
    ensures x / 4096 / 512 == x / 0x20_0000
    ensures x / 0x20_0000 / 512 == x / 0x4000_0000
    ensures x / 0x4000_0000 / 512 == x / 0x80_0000_0000
    ensures x / 0x80_0000_0000 / 512 == x / 0x1_0000_0000_0000
  {
  }

  lemma DivTowerPages(x: nat)
    ensures x / 512 / 512 == x / 0x4_0000
    ensures x / 0x4_0000 / 512 == x / 0x800_0000
    ensures x / 0x800_0000 / 512 == x / 0x10_0000_0000
  {
  }

  /** Every address splits without error, and the five indices with the page
      offset recombine to its low 57 bits: the split loses exactly the bits
      above 56. */
  lemma AddressSplit(addr: nat)
    ensures PdFromAddress(addr).0 == 0
    ensures var ix := PdFromAddress(addr).1;
            && |ix| == 5 && (forall j :: 0 <= j < 5 ==> ix[j] < ENTRIES)
            && ix[0] * 0x1_0000_0000_0000 + ix[1] * 0x80_0000_0000 + ix[2] * 0x4000_0000
               + ix[3] * 0x20_0000 + ix[4] * PAGE + addr % PAGE == addr % 0x200_0000_0000_0000
  {
    hide PdFromAddress;
    PdFields(addr);
    DivTower(addr);
    Digits57(addr);
  }

  lemma Digits57(addr: nat)
    ensures var q0 := addr / 4096; var q1 := q0 / 512; var q2 := q1 / 512; var q3 := q2 / 512; var q4 := q3 / 512;
            q4 % 512 * 0x1_0000_0000_0000 + q3 % 512 * 0x80_0000_0000 + q2 % 512 * 0x4000_0000
            + q1 % 512 * 0x20_0000 + q0 % 512 * PAGE + addr % PAGE == addr % 0x200_0000_0000_0000
  {
    var q0 := addr / 4096;
    var q1 := q0 / 512;
    var q2 := q1 / 512;
    var q3 := q2 / 512;
    var q4 := q3 / 512;
    var sum := q4 % 512 * 0x1_0000_0000_0000 + q3 % 512 * 0x80_0000_0000 + q2 % 512 * 0x4000_0000
               + q1 % 512 * 0x20_0000 + q0 % 512 * PAGE + addr % PAGE;
    DivModUnique(addr, 0x200_0000_0000_0000, q4 / 512, sum);
  }

  lemma ShiftedPage(pgn: nat)
    ensures Shl(64, pgn, 12) == pgn % 0x10_0000_0000_0000 * 4096
  {
    PowerTable();
    assert Shl(64, pgn, 12) == pgn * 4096 % WORD;
    ScaledMod(pgn);
  }

  lemma ScaledMod(x: nat)
    ensures x * 4096 % 0x1_0000_0000_0000_0000 == x % 0x10_0000_0000_0000 * 4096
  {
  }

  /** get_pd_from_pagenum never fails, and yields the five base-512 digits. */
  lemma PagenumSplit(pgn: nat)
    ensures PdFromPagenum(pgn) == (0, Indices(pgn))
  {
    ShiftedPage(pgn);
    var low := pgn % 0x10_0000_0000_0000;
    PdFields(low * 4096);
    ScaledIndices(low);
    LowIndices(pgn, 128);
  }

  lemma ScaledIndices(low: nat)
    ensures var a := low * 4096;
            [a / 0x1_0000_0000_0000 % 512, a / 0x80_0000_0000 % 512,
             a / 0x4000_0000 % 512, a / 0x20_0000 % 512, a / 4096 % 512] == Indices(low)
  {
    DivTower(low * 4096);
    DivTowerPages(low);
  }

  /** The indices depend only on the low 45 bits. */
  lemma LowIndices(pgn: nat, c: nat)
    requires c > 0
    ensures Indices(pgn % (0x2000_0000_0000 * c)) == Indices(pgn)
  {
    var q, r := pgn / (0x2000_0000_0000 * c), pgn % (0x2000_0000_0000 * c);
    var n := q * c;
    assert pgn == r + 0x2000_0000_0000 * n by {
      assert pgn == (0x2000_0000_0000 * c) * q + r;
      assert (0x2000_0000_0000 * c) * q == 0x2000_0000_0000 * (c * q);
    }
    ShiftedIndices(r, n);
  }

  lemma ShiftedIndices(r: nat, n: nat)
    ensures Indices(r + 0x2000_0000_0000 * n) == Indices(r)
  {
    var x := r + 0x2000_0000_0000 * n;
    assert x / 0x10_0000_0000 == r / 0x10_0000_0000 + 512 * n;
    assert x / 0x800_0000 == r / 0x800_0000 + 512 * (512 * n);
    assert x / 0x4_0000 == r / 0x4_0000 + 512 * (0x4_0000 * n);
    assert x / 512 == r / 512 + 512 * (0x800_0000 * n);
    assert x == r + 512 * (0x10_0000_0000 * n);
    AddMultiple(r / 0x10_0000_0000, n);
    AddMultiple(r / 0x800_0000, 512 * n);
    AddMultiple(r / 0x4_0000, 0x4_0000 * n);
    AddMultiple(r / 512, 0x800_0000 * n);
    AddMultiple(r, 0x10_0000_0000 * n);
  }

  lemma AddMultiple(x: nat, n: nat)
    ensures (x + 512 * n) % 512 == x % 512
  {
  }

  lemma Recombine(pgn: nat)
    ensures var ix := Indices(pgn);
            ix[0] * 0x10_0000_0000 + ix[1] * 0x800_0000 + ix[2] * 0x4_0000 + ix[3] * 512 + ix[4]
            == pgn % 0x2000_0000_0000
  {
    DivTowerPages(pgn);
    var q1 := pgn / 512;
    var q2 := q1 / 512;
    var q3 := q2 / 512;
    var q4 := q3 / 512;
    DivModUnique(pgn, 0x2000_0000_0000, q4 / 512,
                 q4 % 512 * 0x10_0000_0000 + q3 % 512 * 0x800_0000 + q2 % 512 * 0x4_0000 + q1 % 512 * 512 + pgn % 512);
  }

  /** Two page numbers share all five indices exactly when they agree in their
      low 45 bits. */
  lemma IndicesInjective(a: nat, b: nat)
    ensures Indices(a) == Indices(b) <==> a % 0x2000_0000_0000 == b % 0x2000_0000_0000
  {
    Recombine(a);
    Recombine(b);
    LowIndices(a, 1);
    LowIndices(b, 1);
  }

  // ---- Virtual addresses ----------------------------------------------------

  /** PAGING_PGN: bits 12 to 21 of an `int` (the address is narrowed by the call). */
  function Pgn(addr: nat): nat { GetVal(Trunc(32, addr), GenMask(32, 21, 12), 12) }
  /** PAGING_OFFST: bits 0 to 11. */
  function Offst(addr: nat): nat { GetVal(Trunc(32, addr), GenMask(32, 11, 0), 0) }

  const SPACE := 0x40_0000 // 2^22: what a page number and an offset can tell apart

  lemma AddressParts(addr: nat)
    ensures Pgn(addr) == addr / PAGE % 1024
    ensures Offst(addr) == addr % PAGE
    ensures Pgn(addr) < 1024 && Offst(addr) < PAGE
    ensures Pgn(addr) * PAGE + Offst(addr) == addr % SPACE
  {
    PowerTable();
    var low := Trunc(32, addr);
    GetValIsField(low, 32, 21, 12);
    GetValIsField(low, 32, 11, 0);
    NarrowedParts(addr);
    assert low / 1 == low;
  }

  lemma NarrowedParts(addr: nat)
    ensures addr % 0x1_0000_0000 / 4096 % 1024 == addr / 4096 % 1024
    ensures addr % 0x1_0000_0000 % 4096 == addr % 4096
    ensures addr / 4096 % 1024 * 4096 + addr % 4096 == addr % 0x40_0000
  {
    var q, r := addr / 4096, addr % 4096;
    var h, l := q / 1024, q % 1024;
    var g, m := h / 1024, h % 1024;
    DivModUnique(addr, 0x1_0000_0000, g, 4096 * (1024 * m + l) + r);
    DivModUnique(4096 * (1024 * m + l) + r, 4096, 1024 * m + l, r);
    DivModUnique(1024 * m + l, 1024, m, l);
    DivModUnique(addr, 0x40_0000, h, 4096 * l + r);
  }

  /** `(sz + PAGING_PAGESZ - 1) & ~(PAGING_PAGESZ - 1)` in 64-bit arithmetic; the
      complement of the `int` 4095 is sign-extended to 64 bits. */
  function AlignUp(sz: nat): nat { And((sz + 4095) % WORD, Not(64, 4095)) }

  lemma AlignUpIsRounding(sz: nat)
    ensures AlignUp(sz) == (sz + 4095) % WORD / PAGE * PAGE
  {
    PowerTable();
    var s := (sz + 4095) % WORD;
    ClearLowBits(s, 12, 64);
  }

  lemma ClearLowBits(s: nat, n: nat, w: nat)
    requires s < Pow2(w) && n < w
    ensures And(s, Not(w, Pow2(n) - 1)) == Shr(s, n) * Pow2(n)
  {
    hide And, Not, Shr, Bit;
    var x, y := And(s, Not(w, Pow2(n) - 1)), Shr(s, n) * Pow2(n);
    forall k: nat ensures Bit(x, k) == Bit(y, k) {
      ClearedBit(s, n, w, k);
      ScaleBit(Shr(s, n), n, k);
      if k >= n { ShrBit(s, n, k - n); }
    }
    SameBits(x, y);
  }

  lemma LowMaskBit(n: nat, k: nat)
    ensures Bit(Pow2(n) - 1, k) == (k < n)
  {
    assert Not(n, 0) == Pow2(n) - 1;
    NotBit(n, 0, k);
    ZeroBits(k);
  }

  lemma HighBitClear(s: nat, w: nat, k: nat)
    requires s < Pow2(w) && k >= w
    ensures !Bit(s, k)
  {
    TruncBit(w, s, k);
    ModSmall(s, Pow2(w));
  }

  lemma ClearedBit(s: nat, n: nat, w: nat, k: nat)
    requires s < Pow2(w) && n < w
    ensures Bit(And(s, Not(w, Pow2(n) - 1)), k) == (k >= n && Bit(s, k))
  {
    AndBit(s, Not(w, Pow2(n) - 1), k);
    NotBit(w, Pow2(n) - 1, k);
    LowMaskBit(n, k);
    if k >= w { HighBitClear(s, w, k); }
  }
}
