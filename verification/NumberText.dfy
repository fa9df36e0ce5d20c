/** What texts the string constructor of 128-bit numbers reads, and as which numbers (uint128.cpp). */
module NumberTexts {
  import opened Common
  import opened UInt128s
  import opened Decimals

  /** A character stands for a digit, a letter in either case. */
  predicate IsDigit(ch: char, d: nat, radix: nat) {
    d < radix && d < 16 && (ch == "0123456789abcdef"[d] || ch == "0123456789ABCDEF"[d])
  }

  ghost predicate Spells(s: string, digits: seq<nat>, radix: nat) {
    |s| == |digits| && forall i :: 0 <= i < |s| ==> IsDigit(s[i], digits[i], radix)
  }

  /** Nothing follows, or something that is no digit. */
  ghost predicate Stops(rest: string, radix: nat) {
    rest != "" ==> forall d :: !IsDigit(rest[0], d, radix)
  }

  /** The number that digits stand for, most significant first. */
  function PlaceValue(digits: seq<nat>, radix: nat): nat {
    if digits == [] then 0
    else PlaceValue(digits[..|digits| - 1], radix) * radix + digits[|digits| - 1]
  }

  lemma DigitMeans(ch: char, d: nat, radix: nat)
    requires radix <= 16
    ensures IsDigit(ch, d, radix) <==> DigitOf(ch, radix) == Some(d)
  {
  }

  /** The digits read on from a number. */
  function Horner(digits: seq<nat>, radix: nat, acc: nat): nat {
    if digits == [] then acc else Horner(digits[1..], radix, acc * radix + digits[0])
  }

  lemma {:induction false} HornerAppend(digits: seq<nat>, d: nat, radix: nat, acc: nat)
    ensures Horner(digits + [d], radix, acc) == Horner(digits, radix, acc) * radix + d
  {
    if digits == [] {
      assert ([] + [d])[1..] == [];
    } else {
      assert (digits + [d])[1..] == digits[1..] + [d];
      HornerAppend(digits[1..], d, radix, acc * radix + digits[0]);
    }
  }

  lemma {:induction false} HornerIsPlaceValue(digits: seq<nat>, radix: nat)
    ensures Horner(digits, radix, 0) == PlaceValue(digits, radix)
  {
    if digits != [] {
      var n := |digits| - 1;
      HornerIsPlaceValue(digits[..n], radix);
      HornerAppend(digits[..n], digits[n], radix, 0);
      assert digits == digits[..n] + [digits[n]];
    }
  }

  lemma StepWraps(e: nat, radix: nat, d: nat)
    ensures (e % B128 * radix % B128 + d) % B128 == (e * radix + d) % B128
  {
    ModMul(e, radix);
    ModAdd(e * radix, d);
  }

  lemma StopsAtOnce(rest: string, radix: nat, acc: nat)
    requires Stops(rest, radix) && radix <= 16
    ensures Accumulate(rest, radix, acc) == acc
  {
    if rest != "" && DigitOf(rest[0], radix).Some? { DigitMeans(rest[0], DigitOf(rest[0], radix).value, radix); }
  }

  /** The digit loop reads all digits, and no further. */
  lemma {:induction false} AccumulateReads(s: string, digits: seq<nat>, rest: string, radix: nat, e: nat)
    requires radix <= 16 && Spells(s, digits, radix) && Stops(rest, radix)
    ensures Accumulate(s + rest, radix, e % B128) == Horner(digits, radix, e) % B128
  {
    if s == "" {
      assert s + rest == rest;
      StopsAtOnce(rest, radix, e % B128);
    } else {
      DigitMeans(s[0], digits[0], radix);
      StepWraps(e, radix, digits[0]);
      assert (s + rest)[1..] == s[1..] + rest;
      AccumulateReads(s[1..], digits[1..], rest, radix, e * radix + digits[0]);
    }
  }

  /** Read from zero: the place value modulo 2^128. */
  lemma AccumulateIsPlaceValue(s: string, digits: seq<nat>, rest: string, radix: nat)
    requires radix <= 16 && Spells(s, digits, radix) && Stops(rest, radix)
    ensures Accumulate(s + rest, radix, 0) == PlaceValue(digits, radix) % B128
  {
    HornerIsPlaceValue(digits, radix);
    assert 0 % B128 == 0;
    AccumulateReads(s, digits, rest, radix, 0);
  }

  /** A text stands for a number modulo 2^128, and behind a minus sign for its complement. */
  ghost predicate Denotes(text: string, v: nat) {
    Parse(text) == v % B128 && Parse("-" + text) == (if v % B128 == 0 then 0 else B128 - v % B128)
  }

  lemma UnsignedDenotes(text: string, v: nat)
    requires ParseUnsigned(text) == v % B128 && (text != "" ==> text[0] != '-')
    ensures Denotes(text, v)
  {
    assert ("-" + text)[1..] == text;
  }

  /** Decimal digits that do not start with 0, up to the first other character. */
  lemma ReadsDecimal(s: string, digits: seq<nat>, rest: string)
    requires s != "" && s[0] != '0' && Spells(s, digits, 10) && Stops(rest, 10)
    ensures Denotes(s + rest, PlaceValue(digits, 10))
  {
    AccumulateIsPlaceValue(s, digits, rest, 10);
    assert (s + rest)[0] == s[0] && IsDigit(s[0], digits[0], 10);
    assert (s + rest)[0..] == s + rest;
    UnsignedDenotes(s + rest, PlaceValue(digits, 10));
  }

  /** Behind 0x, hexadecimal digits in either case. */
  lemma ReadsHexadecimal(s: string, digits: seq<nat>, rest: string)
    requires Spells(s, digits, 16) && Stops(rest, 16)
    ensures Denotes("0x" + s + rest, PlaceValue(digits, 16))
  {
    AccumulateIsPlaceValue(s, digits, rest, 16);
    var text := "0x" + s + rest;
    assert text[0] == '0' && text[1] == 'x' && text[2..] == s + rest;
    UnsignedDenotes(text, PlaceValue(digits, 16));
  }

  /** Behind any other 0, octal digits; an 8 or 9 ends them. */
  lemma ReadsOctal(s: string, digits: seq<nat>, rest: string)
    requires Spells(s, digits, 8) && Stops(rest, 8) && (s == "" && rest != "" ==> rest[0] != 'x')
    ensures Denotes("0" + s + rest, PlaceValue(digits, 8))
  {
    AccumulateIsPlaceValue(s, digits, rest, 8);
    var text := "0" + s + rest;
    assert text[0] == '0' && text[1..] == s + rest;
    if s != "" { assert IsDigit(s[0], digits[0], 8) && text[1] == s[0]; }
    UnsignedDenotes(text, PlaceValue(digits, 8));
  }

  /** A text that starts with no decimal digit and no minus sign is zero. */
  lemma ReadsNothing(text: string)
    requires Stops(text, 10) && (text != "" ==> text[0] != '-')
    ensures Denotes(text, 0)
  {
    if text != "" { assert IsDigit('0', 0, 10) && text[0] != '0'; }
    StopsAtOnce(text, 10, 0);
    assert text[0..] == text;
    UnsignedDenotes(text, 0);
  }

  // ---- Round trips in every radix

  function DigitsIn(v: nat, radix: nat): seq<nat>
    requires radix >= 2
  {
    if v == 0 then [] else DigitsIn(v / radix, radix) + [v % radix]
  }

  lemma Recompose(v: nat, radix: nat)
    requires radix >= 2
    ensures v / radix * radix + v % radix == v && (v > 0 ==> v / radix < v)
  {
  }

  lemma {:induction false} PlaceValueOfDigits(v: nat, radix: nat)
    requires radix >= 2
    ensures PlaceValue(DigitsIn(v, radix), radix) == v
  {
    if v > 0 {
      Recompose(v, radix);
      PlaceValueOfDigits(v / radix, radix);
      PlaceValueAppend(DigitsIn(v / radix, radix), v % radix, radix);
    }
  }

  lemma PlaceValueAppend(digits: seq<nat>, d: nat, radix: nat)
    ensures PlaceValue(digits + [d], radix) == PlaceValue(digits, radix) * radix + d
  {
    assert (digits + [d])[..|digits|] == digits;
  }

  lemma DenotesSmall(text: string, v: nat)
    requires Denotes(text, v) && v < B128
    ensures Parse(text) == v && (v > 0 ==> Parse("-" + text) == B128 - v)
  {
  }

  /** Any hexadecimal form of a number gives it back, and behind a minus sign its complement. */
  lemma HexadecimalRoundTrip(v: nat, s: string)
    requires v < B128 && Spells(s, DigitsIn(v, 16), 16)
    ensures Parse("0x" + s) == v && (v > 0 ==> Parse("-" + ("0x" + s)) == B128 - v)
  {
    PlaceValueOfDigits(v, 16);
    ReadsHexadecimal(s, DigitsIn(v, 16), "");
    assert "0x" + s + "" == "0x" + s;
    DenotesSmall("0x" + s, v);
  }

  /** So does the octal form. */
  lemma OctalRoundTrip(v: nat, s: string)
    requires v < B128 && Spells(s, DigitsIn(v, 8), 8)
    ensures Parse("0" + s) == v && (v > 0 ==> Parse("-" + ("0" + s)) == B128 - v)
  {
    PlaceValueOfDigits(v, 8);
    ReadsOctal(s, DigitsIn(v, 8), "");
    assert "0" + s + "" == "0" + s;
    DenotesSmall("0" + s, v);
  }

  /** The printed form behind a minus sign gives the complement. */
  lemma NegativeDecimal(v: nat)
    requires 0 < v < B128
    ensures Parse("-" + Decimal(v)) == B128 - v
  {
    RoundTrip(v);
    DigitsShape(v);
    UnsignedDenotes(Decimal(v), v);
  }
}
