/** Products and powers of two, and the bitwise operators of unsigned machine words on natural numbers. */
module Bits {
  import opened Common

  // ---- Products and quotients

  lemma MulAtLeast(d: nat, k: nat)
    requires k >= 1
    ensures d * k >= d
  {
  }

  lemma MulMono(p: nat, q: nat, d: nat)
    requires p <= q
    ensures p * d <= q * d
  {
    assert q * d == p * d + (q - p) * d;
  }

  lemma MulLess(d: nat, q: nat, q': nat, r: nat, r': nat)
    requires q < q' && r < d
    ensures d * q + r < d * q' + r'
  {
    MulAtLeast(d, q' - q);
    assert d * q' == d * q + d * (q' - q);
  }

  /** Quotient and remainder are determined by the division equation. */
  lemma DivModUnique(x: nat, d: nat, q: nat, r: nat)
    requires r < d && x == d * q + r
    ensures x / d == q && x % d == r
  {
    assert x == d * (x / d) + x % d;
    if q < x / d { MulLess(d, q, x / d, r, x % d); }
    if x / d < q { MulLess(d, x / d, q, x % d, r); }
  }

  lemma {:induction false} Pow2Add(m: nat, n: nat)
    ensures Pow2(m + n) == Pow2(m) * Pow2(n)
  {
    if m > 0 {
      Pow2Add(m - 1, n);
      MulAssoc(2, Pow2(m - 1), Pow2(n));
    }
  }

  lemma MulAssoc(a: nat, b: nat, c: nat)
    ensures a * b * c == a * (b * c)
  {
  }

  lemma Pow2Double(n: nat, p: nat)
    requires Pow2(n) == p
    ensures Pow2(2 * n) == p * p
  {
    Pow2Add(n, n);
  }

  lemma WordSizes()
    ensures Pow2(32) == B32 && Pow2(64) == B64 && Pow2(128) == B128
  {
    Pow2Double(4, 0x10);
    Pow2Double(8, 0x100);
    Pow2Double(16, 0x1_0000);
    Pow2Double(32, B32);
    Pow2Double(64, B64);
  }

  // ---- Bitwise operators

  function BitAnd(x: nat, y: nat): nat {
    if x == 0 || y == 0 then 0 else 2 * BitAnd(x / 2, y / 2) + if x % 2 == 1 && y % 2 == 1 then 1 else 0
  }

  function BitOr(x: nat, y: nat): nat {
    if x == 0 then y else if y == 0 then x
    else 2 * BitOr(x / 2, y / 2) + if x % 2 == 1 || y % 2 == 1 then 1 else 0
  }

  lemma AndHalve(x: nat, y: nat)
    ensures BitAnd(x, y) == 2 * BitAnd(x / 2, y / 2) + if x % 2 == 1 && y % 2 == 1 then 1 else 0
  {
  }

  lemma OrHalve(x: nat, y: nat)
    ensures BitOr(x, y) == 2 * BitOr(x / 2, y / 2) + if x % 2 == 1 || y % 2 == 1 then 1 else 0
  {
  }

  /** a with n zeros appended. */
  function Up(a: nat, n: nat): nat {
    if n == 0 then a else 2 * Up(a, n - 1)
  }

  lemma {:induction false} UpIsMul(a: nat, n: nat)
    ensures Up(a, n) == a * Pow2(n)
  {
    if n > 0 {
      UpIsMul(a, n - 1);
      assert a * (2 * Pow2(n - 1)) == 2 * (a * Pow2(n - 1));
    }
  }

  lemma {:induction false} OrBound(l: nat, l': nat, n: nat)
    requires l < Pow2(n) && l' < Pow2(n)
    ensures BitOr(l, l') < Pow2(n)
  {
    if n > 0 {
      OrBound(l / 2, l' / 2, n - 1);
      OrHalve(l, l');
    }
  }

  /** Or works on the high and low parts of a word separately. */
  lemma {:induction false} OrSplits(h: nat, l: nat, h': nat, l': nat, n: nat)
    requires l < Pow2(n) && l' < Pow2(n)
    ensures BitOr(Up(h, n) + l, Up(h', n) + l') == Up(BitOr(h, h'), n) + BitOr(l, l')
  {
    if n > 0 {
      OrSplits(h, l / 2, h', l' / 2, n - 1);
      OrHalve(Up(h, n) + l, Up(h', n) + l');
      OrHalve(l, l');
    }
  }

  lemma OrSplitsMul(h: nat, l: nat, h': nat, l': nat, n: nat, p: nat)
    requires p == Pow2(n) && l < p && l' < p
    ensures BitOr(h * p + l, h' * p + l') == BitOr(h, h') * p + BitOr(l, l')
  {
    UpIsMul(h, n);
    UpIsMul(h', n);
    UpIsMul(BitOr(h, h'), n);
    OrSplits(h, l, h', l', n);
  }

  /** A multiple of a power of two or-ed with a number below it is their sum. */
  lemma OrDisjoint(a: nat, y: nat, n: nat)
    requires y < Pow2(n)
    ensures BitOr(a * Pow2(n), y) == a * Pow2(n) + y == BitOr(y, a * Pow2(n))
  {
    OrSplitsMul(a, 0, 0, y, n, Pow2(n));
    OrSplitsMul(0, y, a, 0, n, Pow2(n));
  }

  lemma {:induction false} LowMask(a: nat, r: nat, n: nat)
    requires r < Pow2(n)
    ensures BitAnd(Up(a, n) + r, Pow2(n) - 1) == r
  {
    if n > 0 {
      LowMask(a, r / 2, n - 1);
      AndHalve(Up(a, n) + r, Pow2(n) - 1);
    }
  }

  lemma {:induction false} HighMask(a: nat, r: nat, n: nat, ones: nat)
    requires r < Pow2(n) && a < Pow2(ones)
    ensures BitAnd(Up(a, n) + r, Up(Pow2(ones) - 1, n)) == Up(a, n)
  {
    if n > 0 {
      HighMask(a, r / 2, n - 1, ones);
      AndHalve(Up(a, n) + r, Up(Pow2(ones) - 1, n));
    } else {
      UpIsMul(0, ones);
      LowMask(0, a, ones);
    }
  }

  /** A mask of n ones keeps the low n bits. */
  lemma AndLowMask(q: nat, r: nat, n: nat)
    requires r < Pow2(n)
    ensures BitAnd(q * Pow2(n) + r, Pow2(n) - 1) == r
  {
    UpIsMul(q, n);
    LowMask(q, r, n);
  }

  /** A mask of ones above n zeros clears the low n bits. */
  lemma AndHighMask(q: nat, r: nat, n: nat, ones: nat)
    requires r < Pow2(n) && q < Pow2(ones)
    ensures BitAnd(q * Pow2(n) + r, Up(Pow2(ones) - 1, n)) == q * Pow2(n)
  {
    UpIsMul(q, n);
    HighMask(q, r, n, ones);
  }
}
