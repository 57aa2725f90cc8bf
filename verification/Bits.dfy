/** Machine words as natural numbers, with the C bit operators on them.  A word
    is read from its least significant bit upwards, so the laws below are
    inductions over bit positions; two numbers with the same bits are the same
    number (`SameBits`). */
module Bits {

  function Pow2(k: nat): (r: nat)
    ensures r >= 1
  {
    if k == 0 then 1 else 2 * Pow2(k - 1)
  }

  /** Bit k of x. */
  predicate Bit(x: nat, k: nat) { x / Pow2(k) % 2 == 1 }

  function Digit(b: bool): nat { if b then 1 else 0 }

  /** C's `x & y` on unsigned words. */
  function And(x: nat, y: nat): nat {
    if x == 0 then 0 else Digit(x % 2 == 1 && y % 2 == 1) + 2 * And(x / 2, y / 2)
  }

  /** C's `x | y` on unsigned words. */
  function Or(x: nat, y: nat): nat
    decreases x + y
  {
    if x == 0 && y == 0 then 0 else Digit(x % 2 == 1 || y % 2 == 1) + 2 * Or(x / 2, y / 2)
  }

  /** C's `~x` on an unsigned word of w bits. */
  function Not(w: nat, x: nat): nat { Pow2(w) - 1 - x % Pow2(w) }

  /** Conversion to an unsigned word of w bits. */
  function Trunc(w: nat, x: nat): nat { x % Pow2(w) }

  /** C's `x >> k` on unsigned words. */
  function Shr(x: nat, k: nat): nat {
    DivNonNegative(x, Pow2(k));
    x / Pow2(k)
  }

  /** C's `x << k` on unsigned words of w bits. */
  function Shl(w: nat, x: nat, k: nat): nat { Trunc(w, x * Pow2(k)) }

  // ---- Arithmetic of halves -------------------------------------------------

  lemma DivNonNegative(x: nat, d: nat)
    requires d > 0
    ensures x / d >= 0
  {
  }

  lemma ModSmall(x: nat, d: nat)
    requires x < d
    ensures x % d == x
  {
    DivModUnique(x, d, 0, x);
  }

  lemma {:induction false} MulMono(d: nat, a: nat, b: nat)
    requires a <= b
    ensures d * a <= d * b
    decreases b
  {
    if a < b {
      MulMono(d, a, b - 1);
      assert d * b == d * (b - 1) + d;
    }
  }

  lemma DivModUnique(x: nat, d: nat, q: nat, r: nat)
    requires d > 0 && r < d && x == d * q + r
    ensures x / d == q && x % d == r
  {
    var q', r' := x / d, x % d;
    assert x == d * q' + r';
    if q' < q {
      MulMono(d, q' + 1, q);
    } else if q < q' {
      MulMono(d, q + 1, q');
    }
  }

  lemma HalfTwice(x: nat, m: nat)
    requires m > 0
    ensures x / (2 * m) == (x / 2) / m
    ensures x % (2 * m) == x % 2 + 2 * ((x / 2) % m)
  {
    var h := x / 2;
    var q, r := h / m, h % m;
    assert h == m * q + r;
    assert x == (2 * m) * q + (2 * r + x % 2) by {
      assert 2 * (m * q) == (2 * m) * q;
    }
    DivModUnique(x, 2 * m, q, 2 * r + x % 2);
  }

  lemma BitZero(x: nat)
    ensures Bit(x, 0) == (x % 2 == 1)
  {
    assert x / 1 == x;
  }

  lemma BitStep(x: nat, k: nat)
    requires k > 0
    ensures Bit(x, k) == Bit(x / 2, k - 1)
  {
    HalfTwice(x, Pow2(k - 1));
  }

  // ---- Each operator, bit by bit -------------------------------------------

  lemma {:induction false} ZeroBits(k: nat)
    ensures !Bit(0, k)
  {
    if k == 0 { BitZero(0); } else { BitStep(0, k); ZeroBits(k - 1); }
  }

  lemma {:induction false} AndHalf(x: nat, y: nat)
    ensures And(x, y) % 2 == Digit(x % 2 == 1 && y % 2 == 1)
    ensures And(x, y) / 2 == And(x / 2, y / 2)
  {
    var h, d := And(x / 2, y / 2), Digit(x % 2 == 1 && y % 2 == 1);
    assert And(x, y) == d + 2 * h;
  }

  lemma {:induction false} OrHalf(x: nat, y: nat)
    ensures Or(x, y) % 2 == Digit(x % 2 == 1 || y % 2 == 1)
    ensures Or(x, y) / 2 == Or(x / 2, y / 2)
  {
    var h, d := Or(x / 2, y / 2), Digit(x % 2 == 1 || y % 2 == 1);
    assert Or(x, y) == d + 2 * h;
  }

  lemma {:induction false} AndBit(x: nat, y: nat, k: nat)
    ensures Bit(And(x, y), k) == (Bit(x, k) && Bit(y, k))
    decreases k
  {
    AndHalf(x, y);
    if k == 0 {
      BitZero(x); BitZero(y); BitZero(And(x, y));
    } else {
      BitStep(x, k); BitStep(y, k); BitStep(And(x, y), k);
      AndBit(x / 2, y / 2, k - 1);
    }
  }

  lemma {:induction false} OrBit(x: nat, y: nat, k: nat)
    ensures Bit(Or(x, y), k) == (Bit(x, k) || Bit(y, k))
    decreases k
  {
    OrHalf(x, y);
    if k == 0 {
      BitZero(x); BitZero(y); BitZero(Or(x, y));
    } else {
      BitStep(x, k); BitStep(y, k); BitStep(Or(x, y), k);
      OrBit(x / 2, y / 2, k - 1);
    }
  }

  lemma {:induction false} TruncBit(w: nat, x: nat, k: nat)
    ensures Bit(Trunc(w, x), k) == (k < w && Bit(x, k))
  {
    if w == 0 {
      ZeroBits(k);
    } else {
      HalfTwice(x, Pow2(w - 1));
      var t := Trunc(w, x);
      assert t % 2 == x % 2 && t / 2 == Trunc(w - 1, x / 2);
      if k == 0 {
        BitZero(t); BitZero(x);
      } else {
        BitStep(t, k); BitStep(x, k);
        TruncBit(w - 1, x / 2, k - 1);
      }
    }
  }

  lemma {:induction false} NotBit(w: nat, x: nat, k: nat)
    ensures Bit(Not(w, x), k) == (k < w && !Bit(x, k))
  {
    if w == 0 {
      ZeroBits(k);
    } else {
      HalfTwice(x, Pow2(w - 1));
      var n := Not(w, x);
      assert n % 2 == 1 - x % 2 && n / 2 == Not(w - 1, x / 2);
      if k == 0 {
        BitZero(n); BitZero(x);
      } else {
        BitStep(n, k); BitStep(x, k);
        NotBit(w - 1, x / 2, k - 1);
      }
    }
  }

  lemma {:induction false} ShrBit(x: nat, j: nat, k: nat)
    ensures Bit(Shr(x, j), k) == Bit(x, k + j)
    decreases j
  {
    if j == 0 {
      assert x / 1 == x;
    } else {
      HalfTwice(x, Pow2(j - 1));
      ShrBit(x / 2, j - 1, k);
      BitStep(x, k + j);
    }
  }

  lemma {:induction false} ScaleBit(x: nat, j: nat, k: nat)
    ensures Bit(x * Pow2(j), k) == (k >= j && Bit(x, k - j))
    decreases j
  {
    if j > 0 {
      var y := x * Pow2(j - 1);
      assert x * Pow2(j) == 2 * y;
      if k == 0 {
        BitZero(2 * y);
      } else {
        BitStep(2 * y, k);
        ScaleBit(x, j - 1, k - 1);
      }
    }
  }

  lemma ShlBit(w: nat, x: nat, j: nat, k: nat)
    ensures Bit(Shl(w, x, j), k) == (j <= k < w && Bit(x, k - j))
  {
    TruncBit(w, x * Pow2(j), k);
    ScaleBit(x, j, k);
  }

  /** Numbers are determined by their bits. */
  lemma {:induction false} SameBits(x: nat, y: nat)
    requires forall k: nat :: Bit(x, k) == Bit(y, k)
    ensures x == y
    decreases x + y
  {
    if x != 0 || y != 0 {
      assert Bit(x, 0) == Bit(y, 0);
      BitZero(x); BitZero(y);
      forall k: nat ensures Bit(x / 2, k) == Bit(y / 2, k) {
        assert Bit(x, k + 1) == Bit(y, k + 1);
        BitStep(x, k + 1); BitStep(y, k + 1);
      }
      SameBits(x / 2, y / 2);
    }
  }
}
