/** Price ordering and conversion (asset.cpp). */
module Prices {
  import opened Common
  import opened Bits

  type Int64 = x: int | -(B63 as int) <= x < B63

  datatype Asset = Asset(amount: Int64, symbol: nat)
  datatype Price = Price(base: Asset, quote: Asset)

  /** A signed amount converted to 128 bits is sign-extended. */
  function Extend(x: int): nat { x % B128 }

  function Times128(x: nat, y: nat): nat { x * y % B128 }

  /** A 64-bit pattern read back as a signed amount. */
  function Signed(w: nat): Int64
    requires w < B64
  {
    if w < B63 then w else w - B64
  }

  // ---- Comparison: six operators from one macro

  predicate SameSymbols(a: Price, b: Price) {
    a.base.symbol == b.base.symbol && a.quote.symbol == b.quote.symbol
  }

  predicate SymbolsBefore(a: Price, b: Price) {
    a.base.symbol < b.base.symbol || (a.base.symbol == b.base.symbol && a.quote.symbol < b.quote.symbol)
  }

  /** The cross product of one price's base with the other's quote. */
  function Cross(a: Price, b: Price): nat {
    Times128(Extend(b.quote.amount), Extend(a.base.amount))
  }

  predicate Eq(a: Price, b: Price) { SameSymbols(a, b) && Cross(a, b) == Cross(b, a) }
  predicate Ne(a: Price, b: Price) { !SameSymbols(a, b) || Cross(a, b) != Cross(b, a) }
  predicate Lt(a: Price, b: Price) { if !SameSymbols(a, b) then SymbolsBefore(a, b) else Cross(a, b) < Cross(b, a) }
  predicate Le(a: Price, b: Price) { if !SameSymbols(a, b) then SymbolsBefore(a, b) else Cross(a, b) <= Cross(b, a) }
  predicate Gt(a: Price, b: Price) { if !SameSymbols(a, b) then SymbolsBefore(b, a) else Cross(a, b) > Cross(b, a) }
  predicate Ge(a: Price, b: Price) { if !SameSymbols(a, b) then SymbolsBefore(b, a) else Cross(a, b) >= Cross(b, a) }

  predicate Positive(p: Price) { p.base.amount > 0 && p.quote.amount > 0 }

  /** The rational number a positive price stands for. */
  ghost function Ratio(p: Price): real
    requires Positive(p)
  {
    p.base.amount as real / p.quote.amount as real
  }

  lemma ProductFits(x: int, y: int)
    requires 0 <= x < B63 && 0 <= y < B63
    ensures 0 <= x * y < B63 * B63 && Times128(Extend(x), Extend(y)) == x * y
  {
    MulMono(x, B63, y);
    assert B63 * y < B63 * B63;
  }

  lemma RatioOrder(a: int, b: int, c: int, d: int)
    requires b > 0 && d > 0
    ensures a as real / b as real < c as real / d as real <==> a * d < c * b
  {
    var r, s, bd := a as real / b as real, c as real / d as real, (b * d) as real;
    assert bd == b as real * d as real && bd > 0.0;
    assert (a * d) as real == r * bd;
    assert (c * b) as real == s * bd;
    if r < s { assert (s - r) * bd > 0.0; } else { assert (r - s) * bd >= 0.0; }
  }

  /** Between positive prices of the same two symbols every operator is the order of the rationals. */
  lemma OrderOfRationals(a: Price, b: Price)
    requires Positive(a) && Positive(b) && SameSymbols(a, b)
    ensures Lt(a, b) <==> Ratio(a) < Ratio(b)
    ensures Gt(a, b) <==> Ratio(a) > Ratio(b)
    ensures Eq(a, b) <==> Ratio(a) == Ratio(b)
    ensures Le(a, b) <==> Ratio(a) <= Ratio(b)
    ensures Ge(a, b) <==> Ratio(a) >= Ratio(b)
    ensures Ne(a, b) <==> Ratio(a) != Ratio(b)
  {
    ProductFits(b.quote.amount, a.base.amount);
    ProductFits(a.quote.amount, b.base.amount);
    RatioOrder(a.base.amount, a.quote.amount, b.base.amount, b.quote.amount);
    RatioOrder(b.base.amount, b.quote.amount, a.base.amount, a.quote.amount);
  }

  /** Over positive prices of any symbols the operators agree with each other and form a strict weak order. */
  lemma StrictWeakOrder(a: Price, b: Price, c: Price)
    requires Positive(a) && Positive(b) && Positive(c)
    ensures Ne(a, b) == !Eq(a, b) && Le(a, b) == (Lt(a, b) || Eq(a, b)) && Gt(a, b) == Lt(b, a) && Ge(a, b) == !Lt(a, b)
    ensures (Lt(a, b) || Eq(a, b) || Lt(b, a)) && !(Lt(a, b) && Lt(b, a)) && !(Lt(a, b) && Eq(a, b))
    ensures Lt(a, b) && Lt(b, c) ==> Lt(a, c)
    ensures Eq(a, b) && Eq(b, c) ==> Eq(a, c)
    ensures Eq(a, b) && Lt(b, c) ==> Lt(a, c)
    ensures Lt(a, b) && Eq(b, c) ==> Lt(a, c)
  {
    if SameSymbols(a, b) { OrderOfRationals(a, b); OrderOfRationals(b, a); }
    if SameSymbols(b, c) { OrderOfRationals(b, c); }
    if SameSymbols(a, c) { OrderOfRationals(a, c); }
  }

  /** Prices of different symbols are ordered by the base symbol, and by the quote symbol between equal ones. */
  lemma OrderOfSymbols(a: Price, b: Price)
    requires a.base.symbol != b.base.symbol || a.quote.symbol != b.quote.symbol
    ensures a.base.symbol < b.base.symbol ==> Lt(a, b) && Le(a, b) && Gt(b, a) && Ge(b, a) && !Lt(b, a) && !Le(b, a)
    ensures a.base.symbol == b.base.symbol && a.quote.symbol < b.quote.symbol ==>
            Lt(a, b) && Le(a, b) && Gt(b, a) && Ge(b, a) && !Lt(b, a) && !Le(b, a)
    ensures !Eq(a, b) && Ne(a, b)
  {
  }

  // ---- Conversion

  function Floor(n: nat, d: nat): (y: nat)
    requires d > 0
    ensures y * d <= n < y * d + d
  {
    n / d
  }

  function Convert(amount: Int64, to: Asset, from: Asset): Option<Asset> {
    if from.amount <= 0 then None
    else
      var result := Floor(Times128(Extend(amount), Extend(to.amount)), from.amount);
      if result >= B64 then None else Some(Asset(Signed(result), to.symbol))
  }

  /** asset * price: base becomes quote, quote becomes base, anything else is refused. */
  function Multiply(a: Asset, p: Price): Option<Asset> {
    if a.symbol == p.base.symbol then Convert(a.amount, p.quote, p.base)
    else if a.symbol == p.quote.symbol then Convert(a.amount, p.base, p.quote)
    else None
  }

  /** A product has a value only in the other symbol of the price: an amount of a third symbol is refused, one of the
      base symbol becomes quote whatever the quote symbol is, and one of the quote symbol becomes base. */
  lemma MultiplySymbols(a: Asset, p: Price)
    ensures a.symbol !in {p.base.symbol, p.quote.symbol} ==> Multiply(a, p).None?
    ensures a.symbol == p.base.symbol ==> Multiply(a, p) == Convert(a.amount, p.quote, p.base)
    ensures a.symbol == p.quote.symbol != p.base.symbol ==> Multiply(a, p) == Convert(a.amount, p.base, p.quote)
    ensures Multiply(a, p).Some? ==>
            Multiply(a, p).value.symbol == if a.symbol == p.base.symbol then p.quote.symbol else p.base.symbol
  {
  }

  /** What the caller gets: nothing unless the divisor is positive; nothing for a negative product, whose sign-extended
      quotient never fits 64 bits; otherwise the exact quotient rounded down when it fits 63 bits, one of 64 bits as a
      negative amount, and nothing for a larger one. */
  lemma ConvertExact(x: Int64, to: Asset, from: Asset)
    ensures from.amount <= 0 || (x as int) * (to.amount as int) < 0 ==> Convert(x, to, from).None?
    ensures from.amount > 0 && (x as int) * (to.amount as int) >= 0 ==>
            var y := Floor((x as int) * (to.amount as int), from.amount);
            Convert(x, to, from) ==
            if y < B63 then Some(Asset(y, to.symbol)) else if y < B64 then Some(Asset(y - B64, to.symbol)) else None
  {
    ExtendedProduct(x, to.amount);
    var p := (x as int) * (to.amount as int);
    if from.amount > 0 && p < 0 { QuotientIsLarge(B128 + p, from.amount); }
  }

  /** The magnitude of an amount, and of a product of two. */
  function Magnitude(x: int): nat { if x < 0 then -x else x }

  lemma ProductMagnitude(x: int, y: int)
    ensures x * y == if (x < 0) == (y < 0) then Magnitude(x) * Magnitude(y) else -(Magnitude(x) * Magnitude(y))
  {
  }

  lemma MagnitudeBound(a: nat, b: nat)
    requires a <= B63 && b <= B63
    ensures a * b <= B63 * B63
  {
    MulMono(a, B63, b);
    MulMono(b, B63, B63);
  }

  /** The product modulo 2^128 of sign-extended amounts is the sign-extended product. */
  lemma ExtendedProduct(x: int, y: int)
    requires -(B63 as int) <= x < B63 && -(B63 as int) <= y < B63
    ensures -(B63 * B63 as int) <= x * y <= B63 * B63
    ensures Times128(Extend(x), Extend(y)) == if x * y < 0 then B128 + x * y else x * y
  {
    var a, b := Magnitude(x), Magnitude(y);
    ProductMagnitude(x, y);
    MagnitudeBound(a, b);
    ExtendValue(x);
    ExtendValue(y);
    if x < 0 && y < 0 {
      BothNegative(a, b);
    } else if x < 0 {
      OneNegative(a, b);
    } else if y < 0 {
      Commute(a, b);
      OneNegative(b, a);
    } else {
      DivModUnique(a * b, B128, 0, a * b);
    }
  }

  lemma Commute(a: nat, b: nat)
    requires b <= B128
    ensures a * b == b * a && Times128(a, B128 - b) == Times128(B128 - b, a)
  {
    assert a * (B128 - b) == (B128 - b) * a;
  }

  lemma ExtendValue(x: int)
    requires -(B63 as int) <= x < B63
    ensures Extend(x) == if x < 0 then B128 + x else x
  {
  }

  lemma OneNegative(a: nat, b: nat)
    requires 0 < a <= B63 && a * b <= B63 * B63
    ensures Times128(B128 - a, b) == if a * b > 0 then B128 - a * b else 0
  {
    if b == 0 {
      assert (B128 - a) * b == 0 && a * b == 0;
    } else {
      MulMono(1, a, b);
      assert (B128 - a) * b == B128 * (b - 1) + (B128 - a * b);
      DivModUnique((B128 - a) * b, B128, b - 1, B128 - a * b);
    }
  }

  lemma BothNegative(a: nat, b: nat)
    requires 0 < a <= B63 && 0 < b <= B63 && a * b <= B63 * B63
    ensures Times128(B128 - a, B128 - b) == a * b
  {
    assert (B128 - a) * (B128 - b) == B128 * (B128 - a - b) + a * b;
    DivModUnique((B128 - a) * (B128 - b), B128, B128 - a - b, a * b);
  }

  lemma QuotientIsLarge(n: nat, d: nat)
    requires n >= B128 - B63 * B63 && 0 < d < B63
    ensures Floor(n, d) >= B64
  {
    var q := Floor(n, d);
    assert n < d * (q + 1);
    if q < B64 { MulMono(d, B63, q + 1); MulMono(q + 1, B64, B63); }
  }

  lemma FloorMonotone(x: nat, b: nat, q: nat, b': nat, q': nat)
    requires q > 0 && q' > 0 && b * q' <= b' * q
    ensures Floor(x * b, q) <= Floor(x * b', q')
  {
    NoSmaller(x, b, q, b', q', Floor(x * b, q), Floor(x * b', q'));
  }

  lemma NoSmaller(x: nat, b: nat, q: nat, b': nat, q': nat, y: nat, z: nat)
    requires q > 0 && q' > 0 && b * q' <= b' * q && y * q <= x * b && x * b' < z * q' + q'
    ensures y <= z
  {
    if y > z {
      MulMono(z + 1, y, q');
      MulMono(y * q, x * b, q');
      MulMono(b * q', b' * q, x);
      Shuffle(x, b, q', b', q);
      StrictScale(x * b', y * q', q);
      Swap(y, q, q');
    }
  }

  lemma Swap(y: nat, q: nat, r: nat)
    ensures y * q * r == y * r * q
  {
    assert y * q * r == y * (q * r) == y * r * q;
  }

  lemma Shuffle(x: nat, b: nat, q': nat, b': nat, q: nat)
    ensures x * b * q' == b * q' * x && x * b' * q == b' * q * x
  {
    assert x * b * q' == (b * q') * x;
    assert x * b' * q == (b' * q) * x;
  }

  lemma StrictScale(m: nat, n: nat, q: nat)
    requires m < n && q > 0
    ensures m * q < n * q
  {
    assert n * q == m * q + (n - m) * q;
    MulAtLeast(q, n - m);
  }

  /** A larger price never converts the same quote amount to less base. */
  lemma LargerPriceConvertsToMore(x: Asset, a: Price, b: Price)
    requires Positive(a) && Positive(b) && SameSymbols(a, b) && Le(a, b)
    requires x.amount >= 0 && x.symbol == a.quote.symbol != a.base.symbol
    requires Floor(x.amount * b.base.amount, b.quote.amount) < B63
    ensures Multiply(x, a).Some? && Multiply(x, b).Some?
    ensures 0 <= Multiply(x, a).value.amount <= Multiply(x, b).value.amount
  {
    ProductFits(b.quote.amount, a.base.amount);
    ProductFits(a.quote.amount, b.base.amount);
    FloorMonotone(x.amount, a.base.amount, a.quote.amount, b.base.amount, b.quote.amount);
    ConvertExact(x.amount, a.base, a.quote);
    ConvertExact(x.amount, b.base, b.quote);
  }

  lemma ThereAndBack(x: nat, b: nat, q: nat)
    requires b > 0 && q > 0
    ensures var z := Floor(Floor(x * q, b) * b, q); z <= x && (x - z) * q < b + q
  {
    var z := Floor(Floor(x * q, b) * b, q);
    if z > x { StrictScale(x, z, q); }
    assert (x - z) * q == x * q - z * q;
  }

  /** Converting base to quote and back never creates value, and loses less than base/quote + 1. */
  lemma ConversionNeverGains(x: Asset, p: Price)
    requires Positive(p) && x.amount >= 0 && x.symbol == p.base.symbol != p.quote.symbol
    requires Floor(x.amount * p.quote.amount, p.base.amount) < B63
    ensures var there := Multiply(x, p);
            && there.Some?
            && var back := Multiply(there.value, p);
            && back.Some? && back.value.symbol == x.symbol && 0 <= back.value.amount <= x.amount
            && (x.amount - back.value.amount) * p.quote.amount < p.base.amount + p.quote.amount
  {
    ConvertExact(x.amount, p.quote, p.base);
    var y := Floor(x.amount * p.quote.amount, p.base.amount);
    ThereAndBack(x.amount, p.base.amount, p.quote.amount);
    ConvertExact(y, p.base, p.quote);
  }
}
