/**
 The 8-bit floating-point codec, over exact arithmetic: every step of the encoder on a finite
 number is a scaling by a power of two, an exact subtraction or a rounding to an integer.
 */
module Fp8 {
  // The two formats of the OCP 8-bit Floating Point Specification.
  datatype Format = E4M3 | E5M2 {
    function MantissaBits(): int { if E4M3? then 3 else 2 }
    function Mantissas(): nat { if E4M3? then 8 else 4 }
    // An exponent field and a mantissa side by side, and the parts of a code.
    function Code(exponent: int, mantissa: int): int {
      if E4M3? then 8 * exponent + mantissa else 4 * exponent + mantissa
    }
    function ExponentOf(code: nat): nat { if E4M3? then code / 8 else code / 4 }
    function MantissaOf(code: nat): nat { if E4M3? then code % 8 else code % 4 }
    // A real number times, or over, the number of mantissas.
    function Widen(x: real): real { if E4M3? then 8.0 * x else 4.0 * x }
    function Narrow(x: real): real { if E4M3? then x / 8.0 else x / 4.0 }
    function Bias(): nat { if E4M3? then 7 else 15 }
    function MaxExponent(): int { if E4M3? then 8 else 15 }
    function MaxMantissa(): nat { if E4M3? then 6 else 3 }
    function ExponentMask(): nat { if E4M3? then 0x0f else 0x1f }
    // The code of the largest finite number.
    function MaxCode(): nat { if E4M3? then 0x7e else 0x7b }
    // The codes an infinity and a NaN are encoded as; E4M3 has no infinity and saturates.
    function InfinityCode(): nat { if E4M3? then 0x7e else 0x7c }
    function NaNCode(): nat { if E4M3? then 0x7f else 0x7d }
    // The smallest positive number is 2 to the power -Depth().
    function Depth(): int { Bias() - 1 + MantissaBits() }
    function MinNormal(): real { if E4M3? then 0.015625 else 0.00006103515625 }
    // A real number over, or times, the smallest positive number.
    function OverQuantum(x: real): real { if E4M3? then x / 0.001953125 else x / 0.0000152587890625 }
    function TimesQuantum(x: real): real { if E4M3? then x * 0.001953125 else x * 0.0000152587890625 }
    function MaxFinite(): real { if E4M3? then 448.0 else 57344.0 }
  }

  // ---- Powers of two ----

  // x times 2 to the power e.
  function Scale(x: real, e: int): real
    decreases if e < 0 then -e else e
  {
    if e == 0 then x else if e > 0 then 2.0 * Scale(x, e - 1) else Scale(x, e + 1) / 2.0
  }

  lemma {:induction false} ScaleShift(x: real, e: int)
    ensures Scale(2.0 * x, e) == 2.0 * Scale(x, e) == Scale(x, e + 1)
    ensures Scale(x / 2.0, e) == Scale(x, e) / 2.0 == Scale(x, e - 1)
    decreases if e < 0 then -e else e
  {
    if e > 0 { ScaleShift(x, e - 1); } else if e < 0 { ScaleShift(x, e + 1); }
  }

  lemma {:induction false} ScaleTwice(x: real, d: int, e: int)
    ensures Scale(Scale(x, d), e) == Scale(x, d + e)
    decreases if e < 0 then -e else e
  {
    if e > 0 {
      ScaleTwice(x, d, e - 1);
      ScaleShift(x, d + e - 1);
    } else if e < 0 {
      ScaleTwice(x, d, e + 1);
      ScaleShift(x, d + e + 1);
    }
  }

  lemma {:induction false} ScaleLinear(x: real, y: real, e: int)
    ensures Scale(x + y, e) == Scale(x, e) + Scale(y, e) && Scale(x - y, e) == Scale(x, e) - Scale(y, e)
    ensures x < y <==> Scale(x, e) < Scale(y, e)
    ensures 0.0 <= x <==> 0.0 <= Scale(x, e)
    decreases if e < 0 then -e else e
  {
    if e > 0 { ScaleLinear(x, y, e - 1); } else if e < 0 { ScaleLinear(x, y, e + 1); }
  }

  // n doubled k times.
  function Shift(n: nat, k: nat): (r: nat)
    ensures r as real == Scale(n as real, k)
  {
    if k == 0 then n else 2 * Shift(n, k - 1)
  }

  // ---- The numbers of a format ----

  // The number with the given code (without its sign), as a multiple of the smallest positive one.
  function Units(f: Format, code: nat): nat {
    if code < f.Mantissas() then code else Shift(f.Mantissas() + f.MantissaOf(code), f.ExponentOf(code) - 1)
  }

  lemma UnitsInBinade(f: Format, k: nat, r: nat)
    requires r <= f.Mantissas()
    ensures Units(f, f.Code(k + 1, r)) == Shift(f.Mantissas() + r, k)
  {
    if r == f.Mantissas() { ScaleShift(f.Mantissas() as real, k); }
  }

  /** Codes are ordered like the numbers they stand for. */
  lemma UnitsIncrease(f: Format, code: nat)
    ensures Units(f, code) < Units(f, code + 1)
  {
    var m := f.Mantissas();
    if code >= m {
      var k, r := f.ExponentOf(code) - 1, f.MantissaOf(code);
      assert code == f.Code(k + 1, r);
      UnitsInBinade(f, k, r);
      UnitsInBinade(f, k, r + 1);
      ScaleLinear((m + r) as real, (m + r + 1) as real, k);
    } else if code + 1 == m {
      UnitsInBinade(f, 0, 0);
    }
  }

  lemma {:induction false} UnitsOrdered(f: Format, c: nat, d: nat)
    requires c < d
    ensures Units(f, c) < Units(f, d)
    decreases d
  {
    UnitsIncrease(f, d - 1);
    if c < d - 1 { UnitsOrdered(f, c, d - 1); }
  }

  // ---- Rounding to nearest, ties to even ----

  function Distance(y: real, n: nat): real { if y < n as real then n as real - y else y - n as real }

  // Code c is closer to y than d is, or as close and even.
  predicate Beats(f: Format, y: real, c: nat, d: nat) {
    Distance(y, Units(f, c)) < Distance(y, Units(f, d)) || (Distance(y, Units(f, c)) == Distance(y, Units(f, d)) &&
      c % 2 == 0)
  }

  // The finite code that y, a number of units, is rounded to.
  ghost predicate Nearest(f: Format, y: real, c: nat) {
    c <= f.MaxCode() && forall d: nat :: d <= f.MaxCode() && d != c ==> Beats(f, y, c, d)
  }

  lemma Between(y: real, low: nat, middle: nat, high: nat)
    requires low < middle < high && Distance(y, low) == Distance(y, high)
    ensures Distance(y, middle) < Distance(y, low)
  {
  }

  lemma NotBothNearest(f: Format, y: real, c: nat, d: nat)
    requires c < d && Nearest(f, y, c)
    ensures !Nearest(f, y, d)
  {
    if Nearest(f, y, d) {
      assert Beats(f, y, c, d) && Beats(f, y, d, c);
      assert c + 1 < d && Beats(f, y, c, c + 1);
      UnitsOrdered(f, c, c + 1);
      UnitsOrdered(f, c + 1, d);
      Between(y, Units(f, c), Units(f, c + 1), Units(f, d));
    }
  }

  /** Rounding is a function: only one code is nearest. */
  lemma NearestIsUnique(f: Format, y: real, c: nat, d: nat)
    requires Nearest(f, y, c) && Nearest(f, y, d)
    ensures c == d
  {
    if c < d { NotBothNearest(f, y, c, d); } else if d < c { NotBothNearest(f, y, d, c); }
  }

  /** Rounding is monotone. */
  lemma NearestIsMonotone(f: Format, x: real, y: real, c: nat, d: nat)
    requires Nearest(f, x, c) && Nearest(f, y, d) && x <= y
    ensures c <= d
  {
    if c > d {
      UnitsOrdered(f, d, c);
      assert Beats(f, x, c, d) && Beats(f, y, d, c);
      assert x == y;
      NearestIsUnique(f, x, c, d);
    }
  }

  /** Numbers beyond the largest finite one saturate; a finite number rounds to itself. */
  lemma Saturates(f: Format, y: real)
    requires y >= Units(f, f.MaxCode()) as real
    ensures Nearest(f, y, f.MaxCode())
  {
    forall d: nat | d < f.MaxCode() ensures Beats(f, y, f.MaxCode(), d) { UnitsOrdered(f, d, f.MaxCode()); }
  }

  lemma FiniteIsItself(f: Format, c: nat)
    requires c <= f.MaxCode()
    ensures Nearest(f, Units(f, c) as real, c)
  {
    var y := Units(f, c) as real;
    forall d: nat | d <= f.MaxCode() && d != c ensures Beats(f, y, c, d) {
      if d < c { UnitsOrdered(f, d, c); } else { UnitsOrdered(f, c, d); }
    }
  }

  // y is not past the middle between c and the next code.
  predicate BelowMiddle(f: Format, y: real, c: nat) {
    var middle := (Units(f, c) + Units(f, c + 1)) as real;
    2.0 * y < middle || (2.0 * y == middle && c % 2 == 0)
  }

  predicate AboveMiddle(f: Format, y: real, c: nat) {
    c > 0 ==>
      var middle := (Units(f, c - 1) + Units(f, c)) as real;
      2.0 * y > middle || (2.0 * y == middle && c % 2 == 0)
  }

  lemma BeatsLower(f: Format, y: real, c: nat, d: nat)
    requires d < c && AboveMiddle(f, y, c)
    ensures Beats(f, y, c, d)
  {
    UnitsOrdered(f, c - 1, c);
    if d < c - 1 { UnitsOrdered(f, d, c - 1); }
  }

  lemma BeatsHigher(f: Format, y: real, c: nat, d: nat)
    requires c < d && BelowMiddle(f, y, c)
    ensures Beats(f, y, c, d)
  {
    UnitsOrdered(f, c, c + 1);
    if c + 1 < d { UnitsOrdered(f, c + 1, d); }
  }

  lemma BetweenMiddles(f: Format, y: real, c: nat)
    requires c <= f.MaxCode() && BelowMiddle(f, y, c) && AboveMiddle(f, y, c)
    ensures Nearest(f, y, c)
  {
    forall d: nat | d <= f.MaxCode() && d != c ensures Beats(f, y, c, d) {
      if d < c { BeatsLower(f, y, c, d); } else { BeatsHigher(f, y, c, d); }
    }
  }

  // A code above the maximum is not near a number up to the maximum.
  lemma InRange(f: Format, y: real, c: nat)
    requires y <= Units(f, f.MaxCode()) as real && AboveMiddle(f, y, c)
    ensures c <= f.MaxCode()
  {
    if c > f.MaxCode() {
      UnitsOrdered(f, f.MaxCode(), c);
      if f.MaxCode() < c - 1 { UnitsOrdered(f, f.MaxCode(), c - 1); }
    }
  }

  // The integer part, and one more past the half or at the half of an odd number.
  function RoundToNearestEven(value: real): (r: nat)
    requires value >= 0.0
    ensures r as real - 0.5 <= value <= r as real + 0.5
    ensures value == r as real - 0.5 || value == r as real + 0.5 ==> r % 2 == 0
  {
    var lower := value.Floor;
    var fraction := value - lower as real;
    if fraction > 0.5 || (fraction == 0.5 && lower % 2 != 0) then lower + 1 else lower
  }

  lemma ScaledMiddle(q: real, n: nat, k: nat)
    ensures 2.0 * q < (n + n + 1) as real ==> 2.0 * Scale(q, k) < (Shift(n, k) + Shift(n + 1, k)) as real
    ensures 2.0 * q == (n + n + 1) as real ==> 2.0 * Scale(q, k) == (Shift(n, k) + Shift(n + 1, k)) as real
    ensures 2.0 * q > (n + n + 1) as real ==> 2.0 * Scale(q, k) > (Shift(n, k) + Shift(n + 1, k)) as real
  {
    ScaleLinear(n as real, (n + 1) as real, k);
    ScaleLinear(q, q, k);
    ScaleLinear(q + q, n as real + (n + 1) as real, k);
    ScaleLinear(n as real + (n + 1) as real, q + q, k);
  }

  lemma NextUnits(f: Format, k: nat, r: nat)
    requires r <= f.Mantissas()
    ensures Units(f, f.Code(k + 1, r + 1)) >= Shift(f.Mantissas() + r + 1, k)
    ensures r > 0 ==> Units(f, f.Code(k + 1, r - 1)) == Shift(f.Mantissas() + r - 1, k)
  {
    var m := f.Mantissas();
    if r > 0 { UnitsInBinade(f, k, r - 1); }
    if r < m {
      UnitsInBinade(f, k, r + 1);
    } else {
      assert f.Code(k + 1, r + 1) == f.Code(k + 1 + 1, 1);
      UnitsInBinade(f, k + 1, 1);
      ScaleShift((m + 1) as real, k);
      ScaleLinear((m + r + 1) as real, 2.0 * (m + 1) as real, k);
    }
  }

  lemma SameParity(f: Format, k: nat, r: nat)
    ensures f.Code(k + 1, r) % 2 == r % 2
  {
    match f
    case E4M3 => EvenPlus(4 * (k + 1), r);
    case E5M2 => EvenPlus(2 * (k + 1), r);
  }

  lemma EvenPlus(n: int, r: nat)
    ensures (2 * n + r) % 2 == r % 2
  {
  }

  lemma BinadeBelow(f: Format, q: real, k: nat, r: nat, c: nat)
    requires r <= f.Mantissas() && c == f.Code(k + 1, r)
    requires 2.0 * q < (2 * (f.Mantissas() + r) + 1) as real || (2.0 * q == (2 * (f.Mantissas() + r) + 1) as real &&
      r % 2 == 0)
    ensures BelowMiddle(f, Scale(q, k), c)
  {
    UnitsInBinade(f, k, r);
    NextUnits(f, k, r);
    SameParity(f, k, r);
    ScaledMiddle(q, f.Mantissas() + r, k);
  }

  lemma BinadeAboveInside(f: Format, q: real, k: nat, r: nat, c: nat)
    requires 0 < r <= f.Mantissas() && c == f.Code(k + 1, r)
    requires 2.0 * q > (2 * (f.Mantissas() + r) - 1) as real || (2.0 * q == (2 * (f.Mantissas() + r) - 1) as real &&
      r % 2 == 0)
    ensures AboveMiddle(f, Scale(q, k), c)
  {
    UnitsInBinade(f, k, r);
    NextUnits(f, k, r);
    SameParity(f, k, r);
    ScaledMiddle(q, f.Mantissas() + r - 1, k);
    assert f.Code(k + 1, r - 1) == c - 1;
  }

  lemma BinadeAboveStart(f: Format, q: real, k: nat, c: nat)
    requires c == f.Code(k + 1, 0) && q >= f.Mantissas() as real
    ensures AboveMiddle(f, Scale(q, k), c)
  {
    UnitsInBinade(f, k, 0);
    if c > 0 { UnitsOrdered(f, c - 1, c); }
    ScaleLinear(q, f.Mantissas() as real, k);
  }

  lemma BinadeAbove(f: Format, q: real, k: nat, r: nat, c: nat)
    requires r <= f.Mantissas() && c == f.Code(k + 1, r) && q >= f.Mantissas() as real
    requires 2.0 * q > (2 * (f.Mantissas() + r) - 1) as real || (2.0 * q == (2 * (f.Mantissas() + r) - 1) as real &&
      r % 2 == 0)
    ensures AboveMiddle(f, Scale(q, k), c)
  {
    if r > 0 { BinadeAboveInside(f, q, k, r, c); } else { BinadeAboveStart(f, q, k, c); }
  }

  /** Rounding the mantissa in a binade gives the nearest code, also when it carries into the next binade. */
  lemma BinadeIsNear(f: Format, q: real, k: nat, r: nat)
    requires f.Mantissas() as real <= q < 2.0 * f.Mantissas() as real &&
      r == RoundToNearestEven(q - f.Mantissas() as real)
    ensures r <= f.Mantissas()
    ensures BelowMiddle(f, Scale(q, k), f.Code(k + 1, r)) && AboveMiddle(f, Scale(q, k), f.Code(k + 1, r))
  {
    BinadeBelow(f, q, k, r, f.Code(k + 1, r));
    BinadeAbove(f, q, k, r, f.Code(k + 1, r));
  }

  lemma SubnormalIsNear(f: Format, y: real, r: nat)
    requires 0.0 <= y < f.Mantissas() as real && r == RoundToNearestEven(y)
    ensures r <= f.Mantissas() && BelowMiddle(f, y, r) && AboveMiddle(f, y, r)
  {
    UnitsInBinade(f, 0, 0);
    UnitsInBinade(f, 0, 1);
  }

  // ---- The encoder ----

  lemma HalfInverse(x: real)
    requires 0.0 < x < 1.0
    ensures 1.0 / (2.0 * x) == (1.0 / x) / 2.0 && 1.0 / x > 1.0
  {
    var z := 1.0 / x;
    assert z * x == 1.0;
    assert (z / 2.0) * (2.0 * x) == 1.0;
  }

  lemma {:induction false} NegativeScale(q: real, k: int)
    requires q >= 0.0 && k < 0
    ensures 0.0 <= Scale(q, k) <= q / 2.0
    decreases -k
  {
    if k < -1 { NegativeScale(q, k + 1); }
  }

  // absolute == fraction * 2^exponent with the fraction between 1 and 2.
  method Normalize(absolute: real) returns (fraction: real, exponent: int)
    requires absolute > 0.0
    ensures 1.0 <= fraction < 2.0 && Scale(fraction, exponent) == absolute
  {
    fraction, exponent := absolute, 0;
    while fraction >= 2.0
      invariant fraction > 0.0 && Scale(fraction, exponent) == absolute
      decreases fraction.Floor
    {
      ScaleShift(fraction * 0.5, exponent);
      fraction, exponent := fraction * 0.5, exponent + 1;
    }
    while fraction < 1.0
      invariant 0.0 < fraction < 2.0 && Scale(fraction, exponent) == absolute
      decreases (1.0 / fraction).Floor
    {
      HalfInverse(fraction);
      ScaleShift(fraction, exponent - 1);
      fraction, exponent := fraction * 2.0, exponent - 1;
    }
  }

  // A number as a multiple of the smallest positive one.
  function InUnits(f: Format, x: real): real { Scale(x, f.Depth()) }

  lemma ScaleConstants(x: real)
    ensures Scale(x, 5) == 32.0 * x && Scale(x, 9) == 512.0 * x && Scale(x, 13) == 8192.0 * x &&
      Scale(x, 16) == 65536.0 * x
  {
    assert Scale(x, 2) == 4.0 * x;
    assert Scale(x, 4) == 16.0 * x;
    assert Scale(x, 6) == 64.0 * x;
    assert Scale(x, 8) == 256.0 * x;
    assert Scale(x, 10) == 1024.0 * x;
    assert Scale(x, 12) == 4096.0 * x;
    assert Scale(x, 14) == 16384.0 * x;
  }

  lemma LargestE4M3()
    ensures Units(E4M3, 0x7e) as real == Scale(448.0, 9)
  {
    assert Units(E4M3, 0x7e) == Shift(14, 14);
    ScaleConstants(14.0);
    ScaleTwice(14.0, 5, 9);
  }

  lemma LargestE5M2()
    ensures Units(E5M2, 0x7b) as real == Scale(57344.0, 16)
  {
    assert Units(E5M2, 0x7b) == Shift(7, 29);
    ScaleConstants(7.0);
    ScaleTwice(7.0, 13, 16);
  }

  /** The encoder's constants: the smallest positive, the smallest normal and the largest finite number. */
  lemma Constants(f: Format, x: real)
    ensures InUnits(f, f.MinNormal()) == f.Mantissas() as real &&
      InUnits(f, f.MaxFinite()) == Units(f, f.MaxCode()) as real
    ensures InUnits(f, x) == f.OverQuantum(x)
  {
    ScaleConstants(x);
    ScaleConstants(f.MinNormal());
    LargestE4M3();
    LargestE5M2();
  }

  lemma {:induction false} OrderInUnits(f: Format, x: real, y: real)
    ensures x < y <==> InUnits(f, x) < InUnits(f, y)
  {
    ScaleLinear(x, y, f.Depth());
  }

  // A normal number is a mantissa-sized number of units, doubled some times.
  lemma NormalUnits(f: Format, absolute: real, fraction: real, exponent: int)
    requires 1.0 <= fraction < 2.0 && Scale(fraction, exponent) == absolute && f.MinNormal() <= absolute
    ensures exponent + f.Bias() >= 1
    ensures Scale(f.Widen(fraction), exponent + f.Bias() - 1) == InUnits(f, absolute)
  {
    var k := exponent + f.Bias() - 1;
    ScaleTwice(fraction, exponent, f.Depth());
    ScaleTwice(fraction, f.MantissaBits(), k);
    SmallScale(f, fraction);
    if k < 0 {
      NegativeScale(f.Widen(fraction), k);
      Constants(f, absolute);
      OrderInUnits(f, absolute, f.MinNormal());
    }
  }

  // What normalizing and rounding the mantissa gives, before packing.
  lemma NormalCode(f: Format, absolute: real, fraction: real, exponent: int, mantissa: nat)
    requires 1.0 <= fraction < 2.0 && Scale(fraction, exponent) == absolute &&
      f.MinNormal() <= absolute <= f.MaxFinite()
    requires mantissa == RoundToNearestEven(f.Widen(fraction - 1.0))
    ensures exponent + f.Bias() >= 1 && mantissa <= f.Mantissas()
    ensures var code := f.Code(exponent + f.Bias(), mantissa); code <= f.MaxCode() && Nearest(f, InUnits(f, absolute),
      code)
  {
    NormalUnits(f, absolute, fraction, exponent);
    Constants(f, absolute);
    OrderInUnits(f, f.MaxFinite(), absolute);
    RoundedIsNear(f, InUnits(f, absolute), f.Widen(fraction), exponent + f.Bias() - 1, mantissa);
  }

  lemma RoundedIsNear(f: Format, y: real, q: real, k: nat, mantissa: nat)
    requires y == Scale(q, k) && y <= Units(f, f.MaxCode()) as real
    requires f.Mantissas() as real <= q < 2.0 * f.Mantissas() as real &&
      mantissa == RoundToNearestEven(q - f.Mantissas() as real)
    ensures mantissa <= f.Mantissas() && f.Code(k + 1, mantissa) <= f.MaxCode() &&
      Nearest(f, y, f.Code(k + 1, mantissa))
  {
    BinadeIsNear(f, q, k, mantissa);
    InRange(f, y, f.Code(k + 1, mantissa));
    BetweenMiddles(f, y, f.Code(k + 1, mantissa));
  }

  lemma SmallScale(f: Format, fraction: real)
    ensures Scale(fraction, f.MantissaBits()) == f.Widen(fraction)
  {
    assert Scale(fraction, 2) == 4.0 * fraction;
  }

  // ---- The numbers the codec takes and gives ----

  type NonNegative = x: real | x >= 0.0

  // A binary32 number: its sign bit, which a zero has too, and its magnitude.
  datatype Number = Finite(negative: bool,
    magnitude: NonNegative) | Infinite(negative: bool) | NotANumber(negative: bool) {
    function SignBit(): nat { if negative then 0x80 else 0 }
  }

  function Signed(negative: bool, magnitude: real): real { if negative then -magnitude else magnitude }

  function Value(x: Number): real
    requires x.Finite?
  {
    Signed(x.negative, x.magnitude)
  }

  function Abs(x: real): real { if x < 0.0 then -x else x }

  // The byte for a number: its sign bit and, if it is finite, the nearest code.
  ghost predicate Encodes(f: Format, x: Number, bits: nat) {
    bits >= x.SignBit() &&
    match x
    case Finite(_, magnitude) => Nearest(f, InUnits(f, magnitude), bits - x.SignBit())
    case Infinite(_) => bits == x.SignBit() + f.InfinityCode()
    case NotANumber(_) => bits == x.SignBit() + f.NaNCode()
  }

  lemma SubnormalCode(f: Format, absolute: real, subnormal: nat)
    requires 0.0 <= absolute < f.MinNormal() && subnormal == RoundToNearestEven(f.OverQuantum(absolute))
    ensures subnormal <= f.Mantissas() && Nearest(f, InUnits(f, absolute), subnormal)
  {
    Constants(f, absolute);
    OrderInUnits(f, absolute, f.MinNormal());
    ScaleLinear(absolute, 0.0, f.Depth());
    SubnormalIsNear(f, InUnits(f, absolute), subnormal);
    BetweenMiddles(f, InUnits(f, absolute), subnormal);
  }

  // Below the smallest normal number: a plain integer of units.
  method EncodeSubnormal(f: Format, absolute: real, sign: nat) returns (bits: nat)
    requires 0.0 <= absolute < f.MinNormal()
    ensures bits >= sign && Nearest(f, InUnits(f, absolute), bits - sign)
  {
    var subnormal := RoundToNearestEven(f.OverQuantum(absolute));
    SubnormalCode(f, absolute, subnormal);
    if subnormal <= 0 { return sign; }
    if subnormal >= f.Mantissas() { return sign + f.Mantissas(); }
    bits := sign + subnormal;
  }

  /** The nearest code to a finite magnitude, for both formats. */
  method EncodeFinite(f: Format, absolute: real, sign: nat) returns (bits: nat)
    requires absolute >= 0.0
    ensures bits >= sign && Nearest(f, InUnits(f, absolute), bits - sign)
  {
    if absolute < f.MinNormal() {
      bits := EncodeSubnormal(f, absolute, sign);
      return;
    }
    if absolute > f.MaxFinite() {
      Constants(f, absolute);
      OrderInUnits(f, f.MaxFinite(), absolute);
      Saturates(f, InUnits(f, absolute));
      return sign + f.MaxCode();
    }
    var fraction, exponent := Normalize(absolute);
    var mantissa := RoundToNearestEven(f.Widen(fraction - 1.0));
    NormalCode(f, absolute, fraction, exponent, mantissa);
    if mantissa >= f.Mantissas() {
      mantissa := 0;
      exponent := exponent + 1;
    }
    bits := Pack(f, exponent, mantissa, sign);
  }

  // Packs exponent and mantissa; a code up to the maximum needs none of the clamps.
  method Pack(f: Format, exponent: int, mantissa: nat, sign: nat) returns (bits: nat)
    requires exponent + f.Bias() >= 1 && mantissa < f.Mantissas() &&
      f.Code(exponent + f.Bias(), mantissa) <= f.MaxCode()
    ensures bits == sign + f.Code(exponent + f.Bias(), mantissa)
  {
    var exponentField, packed := exponent + f.Bias(), mantissa;
    if exponent > f.MaxExponent() || exponentField <= 0 { assert false; }
    if exponentField >= f.ExponentMask() {
      exponentField := f.ExponentMask();
      if packed > f.MaxMantissa() { assert false; }
    }
    bits := sign + f.Code(exponentField, packed);
  }

  method Encode(f: Format, x: Number) returns (bits: nat)
    ensures Encodes(f, x, bits)
  {
    match x
    case NotANumber(_) => bits := x.SignBit() + f.NaNCode();
    case Infinite(_) => bits := x.SignBit() + f.InfinityCode();
    case Finite(_, magnitude) => bits := EncodeFinite(f, magnitude, x.SignBit());
  }

  // ---- The decoder ----

  function Decode(f: Format, bits: nat): Number
    requires bits < 256
  {
    DecodeFields(f, bits >= 0x80, f.ExponentOf(bits % 0x80), f.MantissaOf(bits % 0x80))
  }

  function DecodeFields(f: Format, negative: bool, exponent: nat, mantissa: nat): Number {
    if exponent == 0 && mantissa == 0 then Finite(negative, 0.0)
    else if f.E4M3? && exponent == 15 && mantissa == 7 then NotANumber(false)
    else if f.E5M2? && exponent == 31 then (if mantissa == 0 then Infinite(negative) else NotANumber(false))
    else Finite(negative, FieldValue(f, exponent, mantissa))
  }

  function FieldValue(f: Format, exponent: nat, mantissa: nat): NonNegative {
    if exponent == 0 then f.TimesQuantum(mantissa as real)
    else
      ScaleLinear(1.0 + f.Narrow(mantissa as real), 0.0, exponent - f.Bias());
      Scale(1.0 + f.Narrow(mantissa as real), exponent - f.Bias())
  }

  // The magnitude with a given finite code.
  function Magnitude(f: Format, code: nat): NonNegative {
    ScaleLinear(Units(f, code) as real, 0.0, -f.Depth());
    Scale(Units(f, code) as real, -f.Depth())
  }

  // n / 2^MantissaBits, as a scaling.
  lemma Fraction(f: Format, n: real)
    ensures Scale(n, -f.MantissaBits()) == f.Narrow(n)
  {
    SmallScale(f, f.Narrow(n));
    ScaleTwice(f.Narrow(n), f.MantissaBits(), -f.MantissaBits());
  }

  lemma Rescale(n: real, bits: int, exponent: int, bias: int)
    ensures Scale(Scale(n, exponent - 1), -(bias - 1 + bits)) == Scale(Scale(n, -bits), exponent - bias)
  {
    ScaleTwice(n, exponent - 1, -(bias - 1 + bits));
    ScaleTwice(n, -bits, exponent - bias);
  }

  lemma NormalMagnitude(f: Format, exponent: nat, mantissa: nat, code: nat)
    requires exponent >= 1 && mantissa < f.Mantissas() && code == f.Code(exponent, mantissa)
    ensures Magnitude(f, code) == Scale(1.0 + f.Narrow(mantissa as real), exponent - f.Bias())
  {
    var n := (f.Mantissas() + mantissa) as real;
    UnitsInBinade(f, exponent - 1, mantissa);
    Rescale(n, f.MantissaBits(), exponent, f.Bias());
    Fraction(f, n);
  }

  lemma SubnormalMagnitude(f: Format, mantissa: nat)
    requires mantissa < f.Mantissas()
    ensures Magnitude(f, mantissa) == f.TimesQuantum(mantissa as real)
  {
    Constants(f, f.TimesQuantum(mantissa as real));
    ScaleTwice(f.TimesQuantum(mantissa as real), f.Depth(), -f.Depth());
  }

  lemma FieldsFinite(f: Format, negative: bool, exponent: nat, mantissa: nat, code: nat)
    requires mantissa < f.Mantissas() && code == f.Code(exponent, mantissa)
    ensures var number := DecodeFields(f, negative, exponent, mantissa);
      number.Finite? ==> number == Finite(negative, Magnitude(f, code))
  {
    FieldMagnitude(f, exponent, mantissa, code);
    if code == 0 { MagnitudeOfZero(f); }
  }

  lemma FieldMagnitude(f: Format, exponent: nat, mantissa: nat, code: nat)
    requires mantissa < f.Mantissas() && code == f.Code(exponent, mantissa)
    ensures FieldValue(f, exponent, mantissa) == Magnitude(f, code)
  {
    if exponent == 0 { SubnormalMagnitude(f, mantissa); } else { NormalMagnitude(f, exponent, mantissa, code); }
  }

  lemma FieldsOf(f: Format, code: nat)
    requires code < 0x80
    ensures var exponent, mantissa := f.ExponentOf(code), f.MantissaOf(code);
      code == f.Code(exponent, mantissa) && mantissa < f.Mantissas() &&
      (DecodeFields(f, false, exponent, mantissa).Finite? <==> code <= f.MaxCode()) &&
      (DecodeFields(f, true, exponent, mantissa).Finite? <==> code <= f.MaxCode())
  {
    match f
    case E4M3 =>
    case E5M2 =>
  }

  /** The decoder: codes up to the maximum are the finite numbers, with either sign. */
  lemma DecodesFinite(f: Format, bits: nat)
    requires bits < 256
    ensures Decode(f, bits).Finite? <==> bits % 0x80 <= f.MaxCode()
    ensures bits % 0x80 <= f.MaxCode() ==> Decode(f, bits) == Finite(bits >= 0x80, Magnitude(f, bits % 0x80))
  {
    var code := bits % 0x80;
    FieldsOf(f, code);
    FieldsFinite(f, bits >= 0x80, f.ExponentOf(code), f.MantissaOf(code), code);
  }

  lemma LowBits(sign: nat, code: nat)
    requires code < 0x80 && (sign == 0 || sign == 0x80)
    ensures sign + code < 256 && (sign + code) % 0x80 == code && (sign + code) % 2 == code % 2
  {
  }

  /** The encoding of a finite number decodes to the number's sign and the magnitude of the nearest code. */
  lemma EncodedByte(f: Format, x: Number, bits: nat)
    requires x.Finite? && Encodes(f, x, bits)
    ensures bits < 256 && bits - x.SignBit() <= f.MaxCode() && bits % 2 == (bits - x.SignBit()) % 2
    ensures Decode(f, bits) == Finite(x.negative, Magnitude(f, bits - x.SignBit()))
  {
    LowBits(x.SignBit(), bits - x.SignBit());
    DecodesFinite(f, bits);
  }

  lemma LargestMagnitude(f: Format)
    ensures Magnitude(f, f.MaxCode()) == f.MaxFinite()
  {
    Constants(f, f.MaxFinite());
    ScaleTwice(f.MaxFinite(), f.Depth(), -f.Depth());
  }

  /**
   The encoding of a NaN decodes to a NaN, that of an infinity to the infinity of its sign, or, in the
   format without infinities, to the largest number of its sign.
   */
  lemma ExceptionalByte(f: Format, x: Number, bits: nat)
    requires !x.Finite? && Encodes(f, x, bits)
    ensures bits < 256
    ensures x.NotANumber? ==> Decode(f, bits).NotANumber?
    ensures x.Infinite? ==>
      Decode(f, bits) == if f.E4M3? then Finite(x.negative, f.MaxFinite()) else Infinite(x.negative)
  {
    if x.Infinite? && f.E4M3? {
      LargestMagnitude(f);
      DecodesFinite(f, bits);
    }
  }

  // ---- Nearest, monotone, saturating ----

  // Distances between numbers are distances between units, scaled.
  lemma DistanceInUnits(f: Format, x: real, code: nat)
    ensures Abs(x - Magnitude(f, code)) == Scale(Distance(InUnits(f, x), Units(f, code)), -f.Depth())
  {
    ScaleTwice(x, f.Depth(), -f.Depth());
    ScaledDistance(InUnits(f, x), Units(f, code), -f.Depth());
  }

  lemma ScaledDistance(y: real, n: nat, e: int)
    ensures Abs(Scale(y, e) - Scale(n as real, e)) == Scale(Distance(y, n), e)
  {
    ScaleLinear(y, n as real, e);
    ScaleLinear(n as real, y, e);
  }

  lemma NearestMagnitude(f: Format, x: real, c: nat, d: nat)
    requires Nearest(f, InUnits(f, x), c) && d <= f.MaxCode()
    ensures Abs(x - Magnitude(f, c)) <= Abs(x - Magnitude(f, d))
    ensures Abs(x - Magnitude(f, c)) == Abs(x - Magnitude(f, d)) && c != d ==> c % 2 == 0
  {
    if c != d {
      assert Beats(f, InUnits(f, x), c, d);
      DistanceInUnits(f, x, c);
      DistanceInUnits(f, x, d);
      ScaleLinear(Distance(InUnits(f, x), Units(f, c)), Distance(InUnits(f, x), Units(f, d)), -f.Depth());
      ScaleLinear(Distance(InUnits(f, x), Units(f, d)), Distance(InUnits(f, x), Units(f, c)), -f.Depth());
    }
  }

  lemma MagnitudeOfZero(f: Format)
    ensures Magnitude(f, 0) == 0.0
  {
    ScaleLinear(0.0, 0.0, -f.Depth());
  }

  /**
   The encoding of a finite number keeps its sign and decodes to a finite number that no
   other is closer to; an equally close one has the odd code.
   */
  lemma EncodingIsNearest(f: Format, x: Number, bits: nat, other: nat)
    requires x.Finite? && Encodes(f, x, bits) && other < 256 && Decode(f, other).Finite?
    ensures bits < 256 && Decode(f, bits).Finite? && Decode(f, bits).negative == x.negative
    ensures var v, w := Value(Decode(f, bits)), Value(Decode(f, other));
      Abs(Value(x) - v) <= Abs(Value(x) - w) && (Abs(Value(x) - v) == Abs(Value(x) - w) && v != w ==> bits % 2 == 0)
  {
    EncodedByte(f, x, bits);
    DecodesFinite(f, other);
    NearestSigned(f, x.negative, x.magnitude, bits - x.SignBit(), other >= 0x80, other % 0x80);
  }

  lemma NearestSigned(f: Format, sign: bool, x: NonNegative, c: nat, negative: bool, d: nat)
    requires Nearest(f, InUnits(f, x), c) && d <= f.MaxCode()
    ensures var v, w := Signed(sign, Magnitude(f, c)), Signed(negative, Magnitude(f, d));
      Abs(Signed(sign, x) - v) <= Abs(Signed(sign, x) - w) &&
      (Abs(Signed(sign, x) - v) == Abs(Signed(sign, x) - w) && v != w ==> c % 2 == 0)
  {
    if sign == negative { NearestMagnitude(f, x, c, d); } else { NearestMagnitude(f, x, c, 0); }
    MagnitudeOfZero(f);
  }

  lemma MagnitudesOrdered(f: Format, c: nat, d: nat)
    requires c <= d
    ensures Magnitude(f, c) <= Magnitude(f, d)
  {
    if c < d {
      UnitsOrdered(f, c, d);
      ScaleLinear(Units(f, c) as real, Units(f, d) as real, -f.Depth());
    }
  }

  lemma MonotoneMagnitude(f: Format, x: NonNegative, y: NonNegative, c: nat, d: nat)
    requires Nearest(f, InUnits(f, x), c) && Nearest(f, InUnits(f, y), d) && x <= y
    ensures Magnitude(f, c) <= Magnitude(f, d)
  {
    ScaleLinear(y, x, f.Depth());
    NearestIsMonotone(f, InUnits(f, x), InUnits(f, y), c, d);
    MagnitudesOrdered(f, c, d);
  }

  lemma ZeroEncodesAsZero(f: Format, c: nat)
    requires Nearest(f, InUnits(f, 0.0), c)
    ensures Magnitude(f, c) == 0.0
  {
    ScaleLinear(0.0, 0.0, f.Depth());
    FiniteIsItself(f, 0);
    NearestIsUnique(f, 0.0, c, 0);
    MagnitudeOfZero(f);
  }

  /** Encoding is monotone on the decoded numbers. */
  lemma EncodingIsMonotone(f: Format, x: Number, y: Number, bits: nat, other: nat)
    requires x.Finite? && y.Finite? && Encodes(f, x, bits) && Encodes(f, y, other) && Value(x) <= Value(y)
    ensures bits < 256 && other < 256 && Decode(f, bits).Finite? && Decode(f, other).Finite?
    ensures Value(Decode(f, bits)) <= Value(Decode(f, other))
  {
    EncodedByte(f, x, bits);
    EncodedByte(f, y, other);
    MonotoneSigned(f, x, y, bits - x.SignBit(), other - y.SignBit());
  }

  lemma MonotoneSigned(f: Format, x: Number, y: Number, c: nat, d: nat)
    requires x.Finite? && y.Finite? && Value(x) <= Value(y)
    requires Nearest(f, InUnits(f, x.magnitude), c) && Nearest(f, InUnits(f, y.magnitude), d)
    ensures Signed(x.negative, Magnitude(f, c)) <= Signed(y.negative, Magnitude(f, d))
  {
    if !x.negative && !y.negative {
      MonotoneMagnitude(f, x.magnitude, y.magnitude, c, d);
    } else if x.negative && y.negative {
      MonotoneMagnitude(f, y.magnitude, x.magnitude, d, c);
    } else if y.negative {
      ZeroEncodesAsZero(f, c);
      ZeroEncodesAsZero(f, d);
    }
  }

  /** Beyond the largest finite number the encoding is that number. */
  lemma EncodingSaturates(f: Format, x: Number, bits: nat)
    requires x.Finite? && Encodes(f, x, bits) && x.magnitude >= f.MaxFinite()
    ensures bits == x.SignBit() + f.MaxCode()
  {
    Constants(f, x.magnitude);
    OrderInUnits(f, x.magnitude, f.MaxFinite());
    Saturates(f, InUnits(f, x.magnitude));
    NearestIsUnique(f, InUnits(f, x.magnitude), bits - x.SignBit(), f.MaxCode());
  }

  // ---- Round trips ----

  lemma MagnitudeInUnits(f: Format, code: nat)
    ensures InUnits(f, Magnitude(f, code)) == Units(f, code) as real
  {
    ScaleTwice(Units(f, code) as real, -f.Depth(), f.Depth());
  }

  lemma MagnitudeEncodes(f: Format, negative: bool, code: nat, bits: nat)
    requires code <= f.MaxCode() && bits == (if negative then 0x80 else 0) + code
    ensures Encodes(f, Finite(negative, Magnitude(f, code)), bits)
  {
    FiniteIsItself(f, code);
    MagnitudeInUnits(f, code);
  }

  lemma HighBit(bits: nat)
    requires bits < 256
    ensures bits == (if bits >= 0x80 then 0x80 else 0) + bits % 0x80
  {
  }

  lemma FiniteEncodesBack(f: Format, bits: nat)
    requires bits < 256 && Decode(f, bits).Finite?
    ensures Encodes(f, Decode(f, bits), bits)
  {
    DecodesFinite(f, bits);
    HighBit(bits);
    MagnitudeEncodes(f, bits >= 0x80, bits % 0x80, bits);
  }

  lemma ExceptionalCode(f: Format, bits: nat)
    requires bits < 256 && !Decode(f, bits).Finite?
    ensures Decode(f, bits).Infinite? ==> bits == Decode(f, bits).SignBit() + f.InfinityCode()
    ensures Decode(f, bits).NotANumber? ==> Decode(f, bits).SignBit() == 0
  {
  }

  /**
   Every byte but the NaNs is the encoding of what it decodes to, both zeros included; a NaN comes
   back as the canonical one.
   */
  lemma DecodedEncodesBack(f: Format, bits: nat)
    requires bits < 256
    ensures Encodes(f, Decode(f, bits), bits) <==> (Decode(f, bits).NotANumber? ==> bits == f.NaNCode())
  {
    if Decode(f, bits).Finite? { FiniteEncodesBack(f, bits); } else { ExceptionalCode(f, bits); }
  }
}
