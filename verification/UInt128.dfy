/** 128-bit unsigned arithmetic on two 64-bit halves (uint128.cpp, uint128.hpp). */
module UInt128s {
  import opened Common
  import opened Bits

  type Word64 = x: nat | x < B64

  // ---- Arithmetic behind the operators

  /** x == q * Q + r scaled by P, when P * Q is a whole word. */
  lemma Scale(x: nat, p: nat, d: nat, q: nat, r: nat)
    requires p * d == B64 && x == q * d + r && r < d
    ensures x * p == q * B64 + r * p && r * p + p <= B64
  {
    assert x * p == q * (p * d) + r * p;
    assert (r + 1) * p == r * p + p;
    if r + 1 < d { assert (d - (r + 1)) * p >= 0; }
    assert d * p == (r + 1) * p + (d - (r + 1)) * p;
  }

  function Quotient(x: nat, d: nat): nat
    requires d > 0
  {
    x / d
  }

  lemma DivMod(x: nat, d: nat) returns (q: nat, r: nat)
    requires d > 0
    ensures x == q * d + r && r < d && q == Quotient(x, d)
  {
    q, r := x / d, x % d;
  }

  lemma QuotientBound(x: nat, p: nat, d: nat, q: nat, r: nat)
    requires p * d == B64 && x == q * d + r && x < B64
    ensures q < p
  {
    if q >= p { MulMono(p, q, d); }
  }

  lemma PowSplit(n: nat)
    requires n <= 64
    ensures Pow2(n) * Pow2(64 - n) == B64
  {
    Pow2Add(n, 64 - n);
    WordSizes();
  }

  // The operators of a 64-bit word.
  function Shl(x: Word64, n: nat): Word64 { x * Pow2(n) % B64 }
  function Shr(x: nat, n: nat): nat { Quotient(x, Pow2(n)) }
  function Not(x: Word64): Word64 { B64 - 1 - x }

  lemma ShlParts(x: Word64, n: nat, q: nat, r: nat)
    requires 0 < n < 64 && x == q * Pow2(64 - n) + r && r < Pow2(64 - n)
    ensures Shl(x, n) == r * Pow2(n) && x * Pow2(n) == q * B64 + r * Pow2(n)
    ensures r * Pow2(n) + Pow2(n) <= B64 && q < Pow2(n)
  {
    PowSplit(n);
    var p, d := Pow2(n), Pow2(64 - n);
    Scale(x, p, d, q, r);
    QuotientBound(x, p, d, q, r);
    DivModUnique(x * p, B64, q, r * p);
  }

  /** The mask of the n high bits. */
  lemma HighMaskWord(n: nat)
    requires 0 < n < 64
    ensures Shr(B64 - 1, n) < B64 && Not(Shr(B64 - 1, n)) == Up(Pow2(n) - 1, 64 - n)
  {
    var p, d := Pow2(n), Pow2(64 - n);
    PowSplit(n);
    assert p * (d - 1) == p * d - p && (p - 1) * d == p * d - d;
    MulAtLeast(d, p);
    UpIsMul(p - 1, 64 - n);
    DivModUnique(B64 - 1, p, d - 1, p - 1);
  }

  /** The bits that cross from the low half to the high half. */
  lemma HighBits(lo: Word64, n: nat, q: nat, r: nat)
    requires 0 < n < 64 && q < Pow2(n)
    requires lo == q * Pow2(64 - n) + r && r < Pow2(64 - n)
    ensures Shr(BitAnd(lo, Up(Pow2(n) - 1, 64 - n)), 64 - n) == q
  {
    AndHighMask(q, r, 64 - n, n);
    MulDiv(q, Pow2(64 - n));
  }

  lemma MulDiv(q: nat, d: nat)
    requires d > 0
    ensures Quotient(q * d, d) == q
  {
    DivModUnique(q * d, d, q, 0);
  }

  lemma JoinLeft(hi: nat, lo: nat, p: nat, s: nat, t: nat, q: nat, r: nat)
    requires hi * p == s * B64 + t * p && lo * p == q * B64 + r * p
    requires t * p + q < B64 && r * p < B64
    ensures (t * p + q) * B64 + r * p == (hi * B64 + lo) * p % B128
  {
    assert (hi * B64 + lo) * p == hi * p * B64 + lo * p;
    DivModUnique((hi * B64 + lo) * p, B128, s, (t * p + q) * B64 + r * p);
  }

  /** What <<= by 0 < n < 64 does to the halves. */
  lemma ShiftLeftHalves(hi: Word64, lo: Word64, n: nat)
    requires 0 < n < 64
    ensures Shr(B64 - 1, n) < B64
    ensures var hi1 := BitOr(Shl(hi, n), Shr(BitAnd(lo, Not(Shr(B64 - 1, n))), 64 - n));
            hi1 < B64 && hi1 * B64 + Shl(lo, n) == (hi * B64 + lo) * Pow2(n) % B128
  {
    var s, t := DivMod(hi, Pow2(64 - n));
    var q, r := DivMod(lo, Pow2(64 - n));
    HighMaskWord(n);
    ShlParts(hi, n, s, t);
    ShlParts(lo, n, q, r);
    HighBits(lo, n, q, r);
    OrDisjoint(t, q, n);
    JoinLeft(hi, lo, Pow2(n), s, t, q, r);
  }

  /** What >>= by 0 < n < 64 does to the halves. */
  lemma ShiftRightHalves(hi: Word64, lo: Word64, n: nat)
    requires 0 < n < 64
    ensures BitAnd(hi, Not(Shl(B64 - 1, n))) < B64
    ensures var lo1 := BitOr(Shr(lo, n), Shl(BitAnd(hi, Not(Shl(B64 - 1, n))), 64 - n));
            lo1 < B64 && Shr(hi, n) < B64 && Shr(hi, n) * B64 + lo1 == Quotient(hi * B64 + lo, Pow2(n))
  {
    var p, d := Pow2(n), Pow2(64 - n);
    PowSplit(n);
    var s, t := DivMod(hi, p);
    var q, r := DivMod(lo, p);
    LowMaskWord(n);
    AndLowMask(s, t, n);
    assert d * p == B64;
    QuotientBound(lo, d, p, q, r);
    QuotientBound(hi, d, p, s, t);
    MulAtLeast(p, d);
    ShlParts(t, 64 - n, 0, t);
    OrDisjoint(t, q, 64 - n);
    JoinRight(hi, lo, p, d, s, t, q, r);
  }

  lemma JoinRight(hi: nat, lo: nat, p: nat, d: nat, s: nat, t: nat, q: nat, r: nat)
    requires p * d == B64 && hi == s * p + t && lo == q * p + r && r < p
    ensures s * B64 + t * d + q == Quotient(hi * B64 + lo, p)
  {
    assert p * (s * B64 + t * d + q) == s * p * B64 + t * (p * d) + q * p;
    DivModUnique(hi * B64 + lo, p, s * B64 + t * d + q, r);
  }

  lemma LowMaskWord(n: nat)
    requires 0 < n < 64
    ensures Not(Shl(B64 - 1, n)) == Pow2(n) - 1
  {
    var p, d := Pow2(n), Pow2(64 - n);
    PowSplit(n);
    MulAtLeast(p, d);
    assert (B64 - 1) * p == B64 * p - p;
    DivModUnique((B64 - 1) * p, B64, p - 1, B64 - p);
  }

  // ---- The class

  lemma ModAdd(e: nat, x: nat)
    ensures (e % B128 + x) % B128 == (e + x) % B128
  {
  }

  lemma ModMul(e: nat, x: nat)
    ensures e % B128 * x % B128 == e * x % B128
  {
    var q, r := e / B128, e % B128;
    assert e * x == r * x + q * x * B128;
    ModAddMultiple(r * x, q * x);
  }

  lemma ModAddMultiple(e: nat, k: nat)
    ensures (e + k * B128) % B128 == e % B128
  {
    DivModUnique(e + k * B128, B128, e / B128 + k, e % B128);
  }

  lemma SubMod(a: nat, b: nat)
    requires a < B128 && b < B128
    ensures (a + (B128 - b) % B128) % B128 == (a - b) % B128
  {
    if b > 0 { assert (B128 - b) % B128 == B128 - b; }
    if a >= b { assert (a - b + B128) % B128 == a - b; }
  }

  lemma AddHalves(h: Word64, l: Word64, h': Word64, l': Word64)
    ensures var lo := (l + l') % B64;
            var hi := (h + (h' + if lo < l then 1 else 0) % B64) % B64;
            hi * B64 + lo == (h * B64 + l + (h' * B64 + l')) % B128
  {
    var c := if l + l' < B64 then 0 else 1;
    DivModUnique(l + l', B64, c, l + l' - c * B64);
    var s := h + h' + c;
    var k := if s < B64 then 0 else 1;
    AddHighHalf(h, h', c);
    DivModUnique(h * B64 + l + (h' * B64 + l'), B128, k, (s - k * B64) * B64 + (l + l' - c * B64));
  }

  lemma AddHighHalf(h: Word64, h': Word64, c: nat)
    requires c <= 1
    ensures (h + (h' + c) % B64) % B64 == if h + h' + c < B64 then h + h' + c else h + h' + c - B64
  {
  }

  lemma OrHalves(h: Word64, l: Word64, h': Word64, l': Word64)
    ensures BitOr(h, h') < B64 && BitOr(l, l') < B64
    ensures BitOr(h, h') * B64 + BitOr(l, l') == BitOr(h * B64 + l, h' * B64 + l')
  {
    WordSizes();
    OrSplitsMul(h, l, h', l', 64, B64);
    OrBound(h, h', 64);
    OrBound(l, l', 64);
  }

  /** One pass of <<=: by a whole word first, then by what is left. */
  lemma ShiftLeftSteps(hi: Word64, lo: Word64, n: nat)
    requires n < 64
    ensures (hi * B64 + lo) * Pow2(n + 64) % B128 == (lo * B64) * Pow2(n) % B128
    ensures (hi * B64 + lo) * Pow2(0) % B128 == hi * B64 + lo
  {
    ShiftByWord(hi * B64 + lo, hi, lo, n + 64);
  }

  class UInt128 {
    var hi: Word64
    var lo: Word64

    function Value(): (v: nat)
      reads this
      ensures v < B128
    {
      hi * B64 + lo
    }

    constructor (h: Word64, l: Word64)
      ensures hi == h && lo == l
    {
      hi, lo := h, l;
    }

    predicate Less(o: UInt128)
      reads this, o
      ensures Less(o) <==> Value() < o.Value()
    {
      if hi == o.hi then lo < o.lo else hi < o.hi
    }

    predicate AtLeast(o: UInt128)
      reads this, o
      ensures AtLeast(o) <==> Value() >= o.Value()
    {
      (hi == o.hi && lo == o.lo) || o.Less(this)
    }

    method Increment()
      modifies this
      ensures Value() == (old(Value()) + 1) % B128
    {
      lo := (lo + 1) % B64;
      hi := (hi + if lo == 0 then 1 else 0) % B64;
    }

    /** The operand may be this object itself. */
    method AddAssign(u: UInt128)
      modifies this
      ensures Value() == (old(Value()) + old(u.Value())) % B128
    {
      AddHalves(hi, lo, u.hi, u.lo);
      var was := lo;
      lo := (lo + u.lo) % B64;
      hi := (hi + (u.hi + if lo < was then 1 else 0) % B64) % B64;
    }

    method Negated() returns (r: UInt128)
      ensures fresh(r) && r.Value() == (B128 - Value()) % B128
    {
      r := new UInt128(B64 - 1 - hi, B64 - 1 - lo);
      r.Increment();
    }

    method SubAssign(u: UInt128)
      modifies this
      ensures Value() == (old(Value()) - old(u.Value())) % B128
    {
      SubMod(Value(), u.Value());
      var n := u.Negated();
      AddAssign(n);
    }

    method OrAssign(u: UInt128)
      modifies this
      ensures Value() == BitOr(old(Value()), old(u.Value()))
    {
      OrHalves(hi, lo, u.hi, u.lo);
      hi, lo := BitOr(hi, u.hi), BitOr(lo, u.lo);
    }

    method AddWord(w: Word64)
      modifies this
      ensures Value() == (old(Value()) + w) % B128
    {
      var u := new UInt128(0, w);
      AddAssign(u);
    }

    method ShiftLeft(rhs: nat)
      modifies this
      ensures Value() == old(Value()) * Pow2(rhs) % B128
    {
      if rhs >= 128 {
        ShiftedOut(Value(), rhs);
        hi, lo := 0, 0;
      } else {
        var n := rhs;
        if n >= 64 {
          n := n - 64;
          ShiftLeftSteps(hi, lo, n);
          hi, lo := lo, 0;
        }
        assert Value() * Pow2(n) % B128 == old(Value()) * Pow2(rhs) % B128;
        ShiftLeftSteps(hi, lo, n);
        if n != 0 {
          ShiftLeftHalves(hi, lo, n);
          hi, lo := BitOr(Shl(hi, n), Shr(BitAnd(lo, Not(Shr(B64 - 1, n))), 64 - n)), Shl(lo, n);
        }
      }
    }

    method ShiftRight(rhs: nat)
      modifies this
      ensures Value() == Quotient(old(Value()), Pow2(rhs))
    {
      if rhs >= 128 {
        ShiftedOutRight(Value(), rhs);
        hi, lo := 0, 0;
      } else {
        var n := rhs;
        if n >= 64 {
          n := n - 64;
          ShiftRightByWord(hi, lo, rhs);
          hi, lo := 0, hi;
        }
        if n != 0 {
          ShiftRightHalves(hi, lo, n);
          hi, lo := Shr(hi, n), BitOr(Shr(lo, n), Shl(BitAnd(hi, Not(Shl(B64 - 1, n))), 64 - n));
        }
      }
    }
  }

  // ---- Multiplication

  /** One partial product added to a sum kept modulo 2^128. */
  method AddTerm(t: UInt128, w: Word64, ghost e: nat)
    requires t.Value() == e % B128
    modifies t
    ensures t.Value() == (e + w) % B128
  {
    t.AddWord(w);
    ModAdd(e, w);
  }

  method AddTerms(t: UInt128, x: Word64, y: Word64, z: Word64, ghost e: nat)
    requires t.Value() == e % B128
    modifies t
    ensures t.Value() == (e + x + y + z) % B128
  {
    AddTerm(t, x, e);
    AddTerm(t, y, e + x);
    AddTerm(t, z, e + x + y);
  }

  method ShiftLimb(t: UInt128, ghost e: nat)
    requires t.Value() == e % B128
    modifies t
    ensures t.Value() == e * B32 % B128
  {
    WordSizes();
    t.ShiftLeft(32);
    ModMul(e, B32);
  }

  /** The ten partial products that matter modulo 2^128, as *= sums them. */
  ghost function LowSum(p30: nat, p21: nat, p12: nat, p03: nat, p20: nat, p11: nat, p02: nat, p10: nat, p01: nat,
                        p00: nat): nat {
    (((p30 + p21 + p12 + p03) * B32 + p20 + p11 + p02) * B32 + p10 + p01) * B32 + p00
  }

  lemma Distribute(a0: nat, a1: nat, a2: nat, a3: nat, b: nat)
    ensures ((a3 * B32 + a2) * B64 + (a1 * B32 + a0)) * b == a3 * b * (B32 * B64) + a2 * b * B64 + a1 * b * B32 + a0 * b
  {
  }

  /** The other partial products only contribute multiples of 2^128. */
  lemma LimbProduct(a0: nat, a1: nat, a2: nat, a3: nat, b0: nat, b1: nat, b2: nat, b3: nat)
    ensures var a, b := (a3 * B32 + a2) * B64 + (a1 * B32 + a0), (b3 * B32 + b2) * B64 + (b1 * B32 + b0);
            LowSum(a3 * b0, a2 * b1, a1 * b2, a0 * b3, a2 * b0, a1 * b1, a0 * b2, a1 * b0, a0 * b1, a0 * b0) % B128 ==
            a * b % B128
  {
    var a := (a3 * B32 + a2) * B64 + (a1 * B32 + a0);
    Distribute(b0, b1, b2, b3, a);
    Distribute(a0, a1, a2, a3, b0);
    Distribute(a0, a1, a2, a3, b1);
    Distribute(a0, a1, a2, a3, b2);
    Distribute(a0, a1, a2, a3, b3);
    Combine(a * b0, a * b1, a * b2, a * b3, a0 * b0, a1 * b0, a2 * b0, a3 * b0, a0 * b1, a1 * b1, a2 * b1, a3 * b1,
            a0 * b2, a1 * b2, a2 * b2, a3 * b2, a0 * b3, a1 * b3, a2 * b3, a3 * b3);
  }

  lemma Combine(c0: nat, c1: nat, c2: nat, c3: nat,
                p00: nat, p10: nat, p20: nat, p30: nat, p01: nat, p11: nat, p21: nat, p31: nat,
                p02: nat, p12: nat, p22: nat, p32: nat, p03: nat, p13: nat, p23: nat, p33: nat)
    requires c0 == p30 * (B32 * B64) + p20 * B64 + p10 * B32 + p00
    requires c1 == p31 * (B32 * B64) + p21 * B64 + p11 * B32 + p01
    requires c2 == p32 * (B32 * B64) + p22 * B64 + p12 * B32 + p02
    requires c3 == p33 * (B32 * B64) + p23 * B64 + p13 * B32 + p03
    ensures LowSum(p30, p21, p12, p03, p20, p11, p02, p10, p01, p00) % B128 ==
            (c3 * (B32 * B64) + c2 * B64 + c1 * B32 + c0) % B128
  {
    var high := p31 + p22 + p13 + (p32 + p23) * B32 + p33 * B64;
    var low := LowSum(p30, p21, p12, p03, p20, p11, p02, p10, p01, p00);
    assert c3 * (B32 * B64) + c2 * B64 + c1 * B32 + c0 == low + high * B128;
    ModAddMultiple(low, high);
  }

  lemma LimbBound(x: nat, y: nat)
    requires x < B32 && y < B32
    ensures x * y < B64
  {
    MulMono(x, B32, y);
    assert B32 * y < B64;
  }

  method SumProducts(t: UInt128, p30: Word64, p21: Word64, p12: Word64, p03: Word64, p20: Word64, p11: Word64,
                     p02: Word64,
                     p10: Word64, p01: Word64, p00: Word64)
    modifies t
    ensures t.Value() == LowSum(p30, p21, p12, p03, p20, p11, p02, p10, p01, p00) % B128
  {
    t.hi, t.lo := 0, p30;
    ghost var e3 := p30 + p21 + p12 + p03;
    AddTerms(t, p21, p12, p03, p30);
    ShiftLimb(t, e3);
    AddTerms(t, p20, p11, p02, e3 * B32);
    SumLowProducts(t, p10, p01, p00, e3 * B32 + p20 + p11 + p02);
  }

  method SumLowProducts(t: UInt128, p10: Word64, p01: Word64, p00: Word64, ghost e: nat)
    requires t.Value() == e % B128
    modifies t
    ensures t.Value() == ((e * B32 + p10 + p01) * B32 + p00) % B128
  {
    ShiftLimb(t, e);
    AddTerm(t, p10, e * B32);
    AddTerm(t, p01, e * B32 + p10);
    ShiftLimb(t, e * B32 + p10 + p01);
    AddTerm(t, p00, (e * B32 + p10 + p01) * B32);
  }

  method Product(x: nat, y: nat) returns (p: Word64)
    requires x < B32 && y < B32
    ensures p == x * y
  {
    LimbBound(x, y);
    p := x * y;
  }

  /** *=: the product modulo 2^128; the operand may be the object itself. */
  method MulAssign(t: UInt128, b: UInt128)
    modifies t
    ensures t.Value() == old(t.Value()) * old(b.Value()) % B128
  {
    var p30, p21, p12, p03, p20, p11, p02, p10, p01, p00 := PartialProducts(t.hi, t.lo, b.hi, b.lo);
    SumProducts(t, p30, p21, p12, p03, p20, p11, p02, p10, p01, p00);
  }

  method PartialProducts(ah: Word64, al: Word64, bh: Word64, bl: Word64)
    returns (p30: Word64, p21: Word64, p12: Word64, p03: Word64, p20: Word64, p11: Word64, p02: Word64,
             p10: Word64, p01: Word64, p00: Word64)
    ensures LowSum(p30, p21, p12, p03, p20, p11, p02, p10, p01, p00) % B128 == (ah * B64 + al) * (bh * B64 + bl) % B128
  {
    var a0, a1, a2, a3 := al % B32, al / B32, ah % B32, ah / B32;
    var b0, b1, b2, b3 := bl % B32, bl / B32, bh % B32, bh / B32;
    assert a3 * B32 + a2 == ah && a1 * B32 + a0 == al && b3 * B32 + b2 == bh && b1 * B32 + b0 == bl;
    p30, p21, p12, p03 := Products(a3, b0, a2, b1, a1, b2, a0, b3);
    p20, p11, p02, p10 := Products(a2, b0, a1, b1, a0, b2, a1, b0);
    p01 := Product(a0, b1);
    p00 := Product(a0, b0);
    LimbProduct(a0, a1, a2, a3, b0, b1, b2, b3);
  }

  method Products(x0: nat, y0: nat, x1: nat, y1: nat, x2: nat, y2: nat, x3: nat, y3: nat)
    returns (p0: Word64, p1: Word64, p2: Word64, p3: Word64)
    requires x0 < B32 && y0 < B32 && x1 < B32 && y1 < B32 && x2 < B32 && y2 < B32 && x3 < B32 && y3 < B32
    ensures p0 == x0 * y0 && p1 == x1 * y1 && p2 == x2 * y2 && p3 == x3 * y3
  {
    p0 := Product(x0, y0);
    p1 := Product(x1, y1);
    p2 := Product(x2, y2);
    p3 := Product(x3, y3);
  }

  // ---- The 256-bit product

  lemma WordProduct(x: Word64, y: Word64)
    ensures x * y <= (B64 - 1) * (B64 - 1)
  {
    MulMono(x, B64 - 1, y);
    assert x * y <= (B64 - 1) * y;
  }

  method WideProduct(x: Word64, y: Word64) returns (p: UInt128)
    ensures fresh(p) && p.Value() == x * y
  {
    WordProduct(x, y);
    p := new UInt128(0, x);
    var q := new UInt128(0, y);
    MulAssign(p, q);
  }

  /** Schoolbook multiplication in base 2^64. */
  lemma Schoolbook(ah: Word64, al: Word64, bh: Word64, bl: Word64)
    ensures (ah * B64 + al) * (bh * B64 + bl) == ah * bh * B128 + (al * bh + ah * bl) * B64 + al * bl
    ensures (ah * B64 + al) * (bh * B64 + bl) < B128 * B128
  {
    var a, b := ah * B64 + al, bh * B64 + bl;
    assert a * b == a * bh * B64 + a * bl;
    assert a * bh == ah * bh * B64 + al * bh;
    assert a * bl == ah * bl * B64 + al * bl;
    MulMono(a, B128, b);
    assert B128 * b < B128 * B128;
  }

  /** The exact 256-bit product: no carry is lost, whatever the inputs, and whichever inputs the results overwrite. */
  method FullProduct(a: UInt128, b: UInt128, resultHi: UInt128, resultLo: UInt128)
    modifies resultHi, resultLo
    ensures resultHi != resultLo ==> resultHi.Value() * B128 + resultLo.Value() == old(a.Value()) * old(b.Value())
  {
    var ah, al, bh, bl := a.hi, a.lo, b.hi, b.lo;
    Schoolbook(ah, al, bh, bl);
    var s := WideProduct(al, bl);
    var r := WideProduct(ah, bl);
    var q := WideProduct(al, bh);
    var p := WideProduct(ah, bh);
    WordProduct(al, bl);
    WordProduct(ah, bl);
    WordProduct(al, bh);
    WordProduct(ah, bh);
    var y0, y1, y2, y3 := Columns(s.lo, s.hi, r.lo, r.hi, q.lo, q.hi, p.lo, p.hi);
    resultHi.hi, resultHi.lo := y3, y2;
    resultLo.hi, resultLo.lo := y1, y0;
  }

  /** Adding the four products column by column. */
  method Columns(sl: Word64, sh: Word64, rl: Word64, rh: Word64, ql: Word64, qh: Word64, pl: Word64, ph: Word64)
    returns (y0: Word64, y1: Word64, y2: Word64, y3: Word64)
    requires (ph * B64 + pl) * B128 + (qh * B64 + ql + rh * B64 + rl) * B64 + sh * B64 + sl < B128 * B128
    ensures (y3 * B64 + y2) * B128 + y1 * B64 + y0 ==
            (ph * B64 + pl) * B128 + (qh * B64 + ql + rh * B64 + rl) * B64 + sh * B64 + sl
  {
    y0 := sl;
    var acc := SumWords(sh, ql, rl);
    y1 := acc.lo;
    ghost var carry := acc.hi;
    acc := SumWords(acc.hi, qh, rh);
    AddSmall(acc, pl);
    y2 := acc.lo;
    ColumnSum(sl, sh, rl, rh, ql, qh, pl, ph, y1, carry, y2, acc.hi);
    y3 := (acc.hi + ph) % B64;
  }

  /** The 128-bit accumulator of one column. */
  method SumWords(w0: Word64, w1: Word64, w2: Word64) returns (acc: UInt128)
    ensures fresh(acc) && acc.Value() == w0 + w1 + w2
  {
    acc := new UInt128(0, w0);
    AddSmall(acc, w1);
    AddSmall(acc, w2);
  }

  /** += of a word to a sum of a few words, where nothing wraps. */
  method AddSmall(acc: UInt128, w: Word64)
    requires acc.Value() < 4 * B64
    modifies acc
    ensures acc.Value() == old(acc.Value()) + w
  {
    acc.AddWord(w);
  }

  lemma ColumnSum(sl: Word64, sh: Word64, rl: Word64, rh: Word64, ql: Word64, qh: Word64, pl: Word64, ph: Word64,
                  y1: Word64, c1: Word64, y2: Word64, c2: Word64)
    requires (ph * B64 + pl) * B128 + (qh * B64 + ql + rh * B64 + rl) * B64 + sh * B64 + sl < B128 * B128
    requires y1 + c1 * B64 == sh + ql + rl && y2 + c2 * B64 == c1 + qh + rh + pl
    ensures c2 + ph < B64
    ensures ((c2 + ph) * B64 + y2) * B128 + y1 * B64 + sl ==
            (ph * B64 + pl) * B128 + (qh * B64 + ql + rh * B64 + rl) * B64 + sh * B64 + sl
  {
  }

  lemma ShiftedOut(v: nat, n: nat)
    requires n >= 128
    ensures v * Pow2(n) % B128 == 0
  {
    WordSizes();
    Pow2Add(n - 128, 128);
    MulAssoc(v, Pow2(n - 128), B128);
    ModAddMultiple(0, v * Pow2(n - 128));
  }

  lemma ShiftByWordTimes(v: nat, hi: nat, lo: nat, p: nat)
    requires v == hi * B64 + lo
    ensures v * (B64 * p) % B128 == lo * B64 * p % B128
  {
    assert v * (B64 * p) == lo * B64 * p + hi * p * B128;
    ModAddMultiple(lo * B64 * p, hi * p);
  }

  lemma ShiftByWord(v: nat, hi: nat, lo: nat, n: nat)
    requires n >= 64 && v == hi * B64 + lo
    ensures v * Pow2(n) % B128 == lo * B64 * Pow2(n - 64) % B128
  {
    WordSizes();
    Pow2Add(64, n - 64);
    ShiftByWordTimes(v, hi, lo, Pow2(n - 64));
  }

  lemma ShiftedOutRight(v: nat, n: nat)
    requires n >= 128 && v < B128
    ensures Quotient(v, Pow2(n)) == 0
  {
    WordSizes();
    Pow2Add(128, n - 128);
    MulAtLeast(B128, Pow2(n - 128));
    DivModUnique(v, Pow2(n), 0, v);
  }

  lemma DropWord(hi: nat, lo: Word64, p: nat)
    requires p > 0
    ensures B64 * p > 0 && Quotient(hi * B64 + lo, B64 * p) == Quotient(hi, p)
  {
    var q, r := DivMod(hi, p);
    assert (B64 * p) * q == B64 * (q * p);
    DivModUnique(hi * B64 + lo, B64 * p, q, r * B64 + lo);
  }

  lemma ShiftRightByWord(hi: Word64, lo: Word64, n: nat)
    requires n >= 64
    ensures Quotient(hi * B64 + lo, Pow2(n)) == Quotient(hi, Pow2(n - 64))
  {
    WordSizes();
    Pow2Add(64, n - 64);
    DropWord(hi, lo, Pow2(n - 64));
  }
}
