/** Shift-subtract division and the decimal text form of 128-bit numbers (uint128.cpp). */
module Decimals {
  import opened Common
  import opened Bits
  import opened UInt128s

  // ---- Division

  lemma TopBit(d: nat)
    requires d < B128
    ensures Quotient(d, Pow2(127)) == if d < B127 then 0 else 1
  {
    WordSizes();
    assert Pow2(128) == 2 * Pow2(127);
    if d < B127 { DivModUnique(d, B127, 0, d); } else { DivModUnique(d, B127, 1, d - B127); }
  }

  method TopBitClear(d: UInt128) returns (clear: bool)
    ensures clear <==> d.Value() < B127
  {
    TopBit(d.Value());
    var t := new UInt128(d.hi, d.lo);
    t.ShiftRight(127);
    clear := BitAnd(t.lo, 1) == 0;
  }

  method Double(v: UInt128)
    requires v.Value() < B127
    modifies v
    ensures v.Value() == 2 * old(v.Value())
  {
    assert Pow2(1) == 2;
    v.ShiftLeft(1);
  }

  method Halve(v: UInt128)
    modifies v
    ensures v.Value() == old(v.Value()) / 2
  {
    assert Pow2(1) == 2;
    v.ShiftRight(1);
  }

  lemma {:induction false} UpOrder(a: nat, b: nat, k: nat)
    requires a <= b
    ensures Up(a, k) <= Up(b, k) && a <= Up(a, k)
  {
    if k > 0 { UpOrder(a, b, k - 1); }
  }

  /** The first loop: the divisor and a one are shifted up together until the divisor passes the dividend or
      reaches the top bit. */
  method Align(n: UInt128, d: UInt128, x: UInt128) returns (ghost k: nat)
    requires n != d && n != x && d != x && x.Value() == 1 && d.Value() > 0
    modifies d, x
    ensures x.Value() == Up(1, k) && d.Value() == Up(old(d.Value()), k)
    ensures n.Value() < 2 * d.Value()
  {
    k := 0;
    ghost var den := d.Value();
    var clear := TopBitClear(d);
    while n.AtLeast(d) && clear
      invariant x.Value() == Up(1, k) && d.Value() == Up(den, k) && 0 < x.Value() <= d.Value()
      invariant clear <==> d.Value() < B127
      decreases B128 - d.Value()
    {
      Double(x);
      Double(d);
      k := k + 1;
      clear := TopBitClear(d);
    }
  }

  lemma {:induction false} UpAdd(a: nat, b: nat, k: nat)
    ensures Up(a + b, k) == Up(a, k) + Up(b, k)
  {
    if k > 0 { UpAdd(a, b, k - 1); }
  }

  lemma {:induction false} UpShift(a: nat, k: nat)
    ensures Up(a, k + 1) == Up(2 * a, k)
  {
    if k > 0 { UpShift(a, k - 1); }
  }

  /** Setting bit k of a number whose low k + 1 bits are clear. */
  lemma {:induction false} SetBit(a: nat, k: nat)
    ensures BitOr(Up(a, k + 1), Up(1, k)) == Up(2 * a + 1, k)
  {
    OrHalve(Up(a, k + 1), Up(1, k));
    if k > 0 { SetBit(a, k - 1); }
  }

  /** What the second loop has achieved: the answer so far is a, with k + 1 places still to come, and
      m == a * den has been taken out of the dividend at that place. */
  ghost predicate Taken(num: nat, den: nat, n: nat, answer: nat, k: nat, a: nat, m: nat) {
    m == a * den && answer == Up(a, k) && num == Up(m, k) + n
  }

  lemma TakenStep(num: nat, den: nat, n: nat, answer: nat, k: nat, a: nat, m: nat)
    requires Taken(num, den, n, answer, k + 1, a, m)
    ensures Taken(num, den, n, answer, k, 2 * a, 2 * m)
    ensures n >= Up(den, k) ==> Taken(num, den, n - Up(den, k), BitOr(answer, Up(1, k)), k, 2 * a + 1, 2 * m + den)
  {
    UpShift(a, k);
    UpShift(m, k);
    SetBit(a, k);
    UpAdd(2 * m, den, k);
    DoubleProduct(a, den);
  }

  lemma DoubleProduct(a: nat, den: nat)
    ensures (2 * a) * den == 2 * (a * den) && (2 * a + 1) * den == 2 * (a * den) + den
  {
  }

  method Subtract(n: UInt128, d: UInt128)
    requires n != d && n.Value() >= d.Value()
    modifies n
    ensures n.Value() == old(n.Value()) - d.Value()
  {
    n.SubAssign(d);
  }

  /** One round of the second loop: the shifted divisor is taken out of the dividend when it fits, and its place
      in the answer is set. */
  method TakeOut(n: UInt128, d: UInt128, x: UInt128, answer: UInt128, ghost num: nat, ghost den: nat, ghost k: nat,
                 ghost a: nat, ghost m: nat)
    returns (ghost a': nat, ghost m': nat)
    requires n != d && n != x && n != answer && answer != d && answer != x
    requires x.Value() == Up(1, k) && d.Value() == Up(den, k) && n.Value() < 2 * d.Value()
    requires Taken(num, den, n.Value(), answer.Value(), k + 1, a, m)
    modifies n, answer
    ensures n.Value() < d.Value() && Taken(num, den, n.Value(), answer.Value(), k, a', m')
  {
    TakenStep(num, den, n.Value(), answer.Value(), k, a, m);
    a', m' := 2 * a, 2 * m;
    if n.AtLeast(d) {
      Subtract(n, d);
      answer.OrAssign(x);
      a', m' := 2 * a + 1, 2 * m + den;
    }
  }

  function Remainder(x: nat, d: nat): nat
    requires d > 0
  {
    x % d
  }

  lemma TakenEnds(num: nat, den: nat, n: nat, answer: nat, a: nat, m: nat)
    requires n < den && Taken(num, den, n, answer, 0, a, m)
    ensures answer == Quotient(num, den) && n == Remainder(num, den)
  {
    DivModUnique(num, den, a, n);
  }

  /** The second loop: the shifted divisor comes down one place at a time. */
  method Peel(n: UInt128, d: UInt128, x: UInt128, answer: UInt128, ghost num: nat, ghost den: nat, ghost k0: nat)
    requires n != d && n != x && n != answer && answer != d && answer != x && d != x
    requires x.Value() == Up(1, k0) && d.Value() == Up(den, k0) && n.Value() < 2 * d.Value()
    requires n.Value() == num && answer.Value() == 0 && den > 0
    modifies n, d, x, answer
    ensures answer.Value() == Quotient(num, den) && n.Value() == Remainder(num, den)
  {
    ghost var k: int, a, m := k0, 0, 0;
    UpAdd(0, 0, k + 1);
    UpOrder(1, 1, k0);
    while x.hi != 0 || x.lo != 0
      invariant -1 <= k && x.Value() == if k < 0 then 0 else Up(1, k)
      invariant k >= 0 ==> d.Value() == Up(den, k) && x.Value() > 0
      invariant n.Value() < Up(den, k + 1) && Taken(num, den, n.Value(), answer.Value(), k + 1, a, m)
      decreases k
    {
      a, m := TakeOut(n, d, x, answer, num, den, k, a, m);
      Halve(x);
      Halve(d);
      k := k - 1;
      UpOrder(1, 1, if k < 0 then 0 else k);
    }
    TakenEnds(num, den, n.Value(), answer.Value(), a, m);
  }

  /** Quotient and remainder; the results may overwrite the operands. */
  method Divide(numerator: UInt128, denominator: UInt128, quotient: UInt128, remainder: UInt128) returns (ok: bool)
    modifies quotient, remainder
    ensures ok <==> old(denominator.Value()) != 0
    ensures !ok ==> unchanged(quotient) && unchanged(remainder)
    ensures ok ==> remainder.Value() == Remainder(old(numerator.Value()), old(denominator.Value()))
    ensures ok && quotient != remainder ==>
            quotient.Value() == Quotient(old(numerator.Value()), old(denominator.Value()))
  {
    if denominator.hi == 0 && denominator.lo == 0 { return false; }
    ghost var num, den := numerator.Value(), denominator.Value();
    var n := new UInt128(numerator.hi, numerator.lo);
    var d := new UInt128(denominator.hi, denominator.lo);
    var x := new UInt128(0, 1);
    var answer := new UInt128(0, 0);
    ghost var k := Align(n, d, x);
    UpOrder(1, 1, k);
    Peel(n, d, x, answer, num, den, k);
    quotient.hi, quotient.lo := answer.hi, answer.lo;
    remainder.hi, remainder.lo := n.hi, n.lo;
    return true;
  }

  // ---- Printing

  function Digit(d: nat): char
    requires d < 10
  {
    "0123456789abcdefghijklmnopqrstuvwxyz"[d]
  }

  function Digits(v: nat): string {
    if v == 0 then "" else Digits(v / 10) + [Digit(v % 10)]
  }

  function Decimal(v: nat): string {
    if v == 0 then "0" else Digits(v)
  }

  function Pow10(n: nat): nat {
    if n == 0 then 1 else 10 * Pow10(n - 1)
  }

  /** 39 decimal digits are enough. */
  lemma DigitsFit()
    ensures B128 < Pow10(39)
  {
    assert Pow10(3) == 1000;
    assert Pow10(6) == 1000 * Pow10(3) && Pow10(9) == 1000 * Pow10(6) && Pow10(12) == 1000 * Pow10(9);
    assert Pow10(15) == 1000 * Pow10(12) && Pow10(18) == 1000 * Pow10(15) && Pow10(21) == 1000 * Pow10(18);
    assert Pow10(24) == 1000 * Pow10(21) && Pow10(27) == 1000 * Pow10(24) && Pow10(30) == 1000 * Pow10(27);
    assert Pow10(33) == 1000 * Pow10(30) && Pow10(36) == 1000 * Pow10(33) && Pow10(39) == 1000 * Pow10(36);
  }

  /** The C string that starts at position i of a buffer. */
  function CString(sz: seq<char>, i: nat): string
    decreases |sz| - i
  {
    if i >= |sz| || sz[i] == '\0' then "" else [sz[i]] + CString(sz, i + 1)
  }

  lemma {:induction false} CStringUpTo(sz: seq<char>, i: nat, end: nat)
    requires i <= end < |sz| && sz[end] == '\0' && forall j :: i <= j < end ==> sz[j] != '\0'
    ensures CString(sz, i) == sz[i..end]
    decreases end - i
  {
    if i < end { CStringUpTo(sz, i + 1, end); }
  }

  /** The number is divided in place: divide's first argument is also its third. */
  method DivideByTen(ii: UInt128) returns (r: nat)
    modifies ii
    ensures ii.Value() == old(ii.Value()) / 10 && r == old(ii.Value()) % 10
  {
    var ten := new UInt128(0, 10);
    var remainder := new UInt128(0, 0);
    var _ := Divide(ii, ten, ii, remainder);
    r := remainder.Value();
  }

  method PutDigit(ii: UInt128, sz: array<char>, i: nat)
    requires i < sz.Length
    modifies ii, sz
    ensures ii.Value() == old(ii.Value()) / 10
    ensures sz[..] == old(sz[..])[i := Digit(old(ii.Value()) % 10)]
  {
    var r := DivideByTen(ii);
    sz[i] := Digit(r);
  }

  /** The printing loop so far: the digits still to come, followed by those from position i up to the zero. */
  ghost predicate Printed(v: nat, ii: nat, sz: seq<char>, i: nat) {
    && |sz| == 129 && 88 <= i <= 127 && ii < Pow10(i - 88)
    && sz[127] == '\0' && (forall j :: i <= j < 127 ==> sz[j] != '\0')
    && Digits(v) == Digits(ii) + sz[i..127]
  }

  lemma PrintStart(v: nat, sz: seq<char>)
    requires v < B128 && |sz| == 129 && sz[127] == '\0'
    ensures Printed(v, v, sz, 127)
  {
    DigitsFit();
  }

  lemma PrintEnd(v: nat, sz: seq<char>, i: nat)
    requires Printed(v, 0, sz, i)
    ensures CString(sz, i) == Digits(v)
  {
    CStringUpTo(sz, i, 127);
  }

  lemma PrintStep(v: nat, ii: nat, sz: seq<char>, i: nat)
    requires Printed(v, ii, sz, i) && ii != 0
    ensures i > 88 && Printed(v, ii / 10, sz[i - 1 := Digit(ii % 10)], i - 1)
  {
    var sz' := sz[i - 1 := Digit(ii % 10)];
    assert sz'[i - 1..127] == [Digit(ii % 10)] + sz[i..127];
  }

  /** The digits are written backwards from position 126; position 127 holds the terminating zero. */
  method PrintDigits(ii: UInt128, sz: array<char>, ghost v: nat) returns (s: string)
    requires v == ii.Value() && sz.Length == 129 && sz[127] == '\0'
    modifies ii, sz
    ensures s == Digits(v) && sz[127] == '\0'
  {
    var i := 127;
    PrintStart(v, sz[..]);
    while (ii.hi != 0 || ii.lo != 0) && i != 0
      invariant Printed(v, ii.Value(), sz[..], i)
      decreases i
    {
      PrintStep(v, ii.Value(), sz[..], i);
      i := i - 1;
      PutDigit(ii, sz, i);
    }
    PrintEnd(v, sz[..], i);
    return CString(sz[..], i);
  }

  /** The decimal form, through a static buffer whose position 127 is zero and stays zero. */
  method ToString(v: UInt128, sz: array<char>) returns (s: string)
    requires sz.Length == 129 && sz[127] == '\0'
    modifies sz
    ensures s == Decimal(v.Value()) && sz[127] == '\0'
  {
    if v.hi == 0 && v.lo == 0 { return "0"; }
    sz[128] := '\0';
    var ii := new UInt128(v.hi, v.lo);
    s := PrintDigits(ii, sz, v.Value());
  }

  // ---- Parsing

  /** The value of a character in a radix; anything else ends the number. */
  function DigitOf(ch: char, radix: nat): (d: Option<nat>)
    ensures d.Some? ==> d.value < radix
  {
    var n := if 'A' <= ch <= 'Z' then (ch - 'A') as nat + 10
             else if 'a' <= ch <= 'z' then (ch - 'a') as nat + 10
             else if '0' <= ch <= '9' then (ch - '0') as nat
             else radix;
    if n < radix then Some(n) else None
  }

  function Accumulate(s: string, radix: nat, acc: nat): nat {
    if s == "" || DigitOf(s[0], radix).None? then acc
    else Accumulate(s[1..], radix, (acc * radix % B128 + DigitOf(s[0], radix).value) % B128)
  }

  /** Radix and start of the digits: 0x for hexadecimal, another leading 0 for octal. */
  function Prefix(s: string): (r: (nat, nat))
    ensures r.1 <= |s| && r.0 <= 16
  {
    if |s| == 0 || s[0] != '0' then (10, 0)
    else if |s| > 1 && s[1] == 'x' then (16, 2)
    else (8, 1)
  }

  function ParseUnsigned(s: string): nat {
    var (radix, start) := Prefix(s);
    Accumulate(s[start..], radix, 0)
  }

  function Parse(s: string): nat {
    if s != "" && s[0] == '-' then (B128 - ParseUnsigned(s[1..])) % B128 else ParseUnsigned(s)
  }

  method AddDigit(r: UInt128, radix: Word64, n: Word64)
    modifies r
    ensures r.Value() == (old(r.Value()) * radix % B128 + n) % B128
  {
    var u := new UInt128(0, radix);
    MulAssign(r, u);
    r.AddWord(n);
  }

  /** The digit loop: up to the first character that is no digit of the radix. */
  method ReadDigits(r: UInt128, sz: string, start: nat, radix: nat)
    requires start <= |sz| && 2 <= radix <= 16
    modifies r
    ensures r.Value() == Accumulate(sz[start..], radix, old(r.Value()))
  {
    var i := start;
    while i != |sz|
      invariant i <= |sz| && Accumulate(sz[i..], radix, r.Value()) == Accumulate(sz[start..], radix, old(r.Value()))
      decreases |sz| - i
    {
      var n := DigitOf(sz[i], radix);
      if n.None? { break; }
      AddDigit(r, radix, n.value);
      assert sz[i..][1..] == sz[i + 1..];
      i := i + 1;
    }
  }

  /** The radix prefix and the digits behind it, from a position on. */
  method ReadUnsigned(r: UInt128, sz: string, start: nat)
    requires start <= |sz| && r.Value() == 0
    modifies r
    ensures r.Value() == ParseUnsigned(sz[start..])
  {
    var radix, i := 10, start;
    ghost var body := sz[start..];
    if i != |sz| && sz[i] == '0' {
      radix := 8;
      i := i + 1;
      if i != |sz| && sz[i] == 'x' {
        radix := 16;
        i := i + 1;
      }
    }
    assert Prefix(body) == (radix, i - start) && body[i - start..] == sz[i..];
    ReadDigits(r, sz, i, radix);
  }

  /** The string constructor. */
  method FromString(sz: string) returns (r: UInt128)
    ensures fresh(r) && r.Value() == Parse(sz)
  {
    r := new UInt128(0, 0);
    if |sz| == 0 { return; }
    var minus := sz[0] == '-';
    ReadUnsigned(r, sz, if minus then 1 else 0);
    assert sz[0..] == sz;
    if minus { r := r.Negated(); }
  }

  // ---- Round trip

  predicate IsDecimal(s: string) {
    forall i :: 0 <= i < |s| ==> '0' <= s[i] <= '9'
  }

  lemma DigitIsDecimal(d: nat)
    requires d < 10
    ensures '0' <= Digit(d) <= '9' && DigitOf(Digit(d), 10) == Some(d) && (d != 0 ==> Digit(d) != '0')
  {
  }

  lemma {:induction false} AccumulateAppend(s: string, d: nat, acc: nat)
    requires IsDecimal(s) && d < 10
    ensures Accumulate(s + [Digit(d)], 10, acc) == (Accumulate(s, 10, acc) * 10 % B128 + d) % B128
  {
    DigitIsDecimal(d);
    if s == "" {
      assert (s + [Digit(d)])[1..] == "";
    } else {
      var n := DigitOf(s[0], 10);
      assert (s + [Digit(d)])[1..] == s[1..] + [Digit(d)];
      AccumulateAppend(s[1..], d, (acc * 10 % B128 + n.value) % B128);
    }
  }

  lemma {:induction false} DigitsShape(v: nat)
    ensures IsDecimal(Digits(v)) && (v > 0 ==> Digits(v) != "" && Digits(v)[0] != '0' && Digits(v)[0] != '-')
  {
    if v > 0 {
      DigitsShape(v / 10);
      DigitIsDecimal(v % 10);
    }
  }

  lemma {:induction false} AccumulateDigits(v: nat)
    requires v < B128
    ensures Accumulate(Digits(v), 10, 0) == v
  {
    if v > 0 {
      AccumulateDigits(v / 10);
      AppendDigit(v / 10, v % 10);
      assert Digits(v) == Digits(v / 10) + [Digit(v % 10)];
    }
  }

  lemma AppendDigit(q: nat, d: nat)
    requires d < 10 && 10 * q + d < B128 && Accumulate(Digits(q), 10, 0) == q
    ensures Accumulate(Digits(q) + [Digit(d)], 10, 0) == 10 * q + d
  {
    DigitsShape(q);
    AccumulateAppend(Digits(q), d, 0);
    NoWrap(q, d);
  }

  lemma NoWrap(q: nat, d: nat)
    requires 10 * q + d < B128
    ensures (q * 10 % B128 + d) % B128 == 10 * q + d
  {
  }

  /** Parsing the printed form gives the number back, zero included, which goes through the octal prefix. */
  lemma RoundTrip(v: nat)
    requires v < B128
    ensures Parse(Decimal(v)) == v
  {
    if v == 0 {
      assert "0"[1..] == "";
    } else {
      DigitsShape(v);
      AccumulateDigits(v);
      assert Digits(v)[0..] == Digits(v);
    }
  }

  /** The same through the two operations of the class, whatever the static buffer held before. */
  method PrintAndParse(v: UInt128, sz: array<char>) returns (r: UInt128)
    requires sz.Length == 129 && sz[127] == '\0'
    modifies sz
    ensures r.Value() == v.Value()
  {
    var s := ToString(v, sz);
    RoundTrip(v.Value());
    r := FromString(s);
  }
}
