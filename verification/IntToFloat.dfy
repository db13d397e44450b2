/** Conversion of a 128-bit integer to the nearest double, ties to even. */
module IntToFloat {
  import opened Bits
  import opened FloatFormats
  import opened FloatToInt

  /* ---------- what is computed ---------- */

  /** Whether q, with remainder r of a unit whose half is given, is rounded up. */
  predicate RoundsUp(q: nat, r: nat, half: nat) {
    r > half || (r == half && q % 2 == 1)
  }

  /** The pattern of a significand s, in [2^sig, 2^(sig+1)], standing for n integer digits. */
  function Pattern(f: Format, n: nat, s: nat): nat
    requires f.Valid() && n >= 1
  {
    BiasBounds(f);
    Shift(f.Bias() + n - 2, f.sig) + s
  }

  /** The significand of a: widened, or cut to sig + 1 digits and rounded. */
  function Significand(f: Format, a: nat): nat {
    var n := BitLength(a);
    if n <= f.sig + 1 then Shift(a, f.sig + 1 - n)
    else
      var k := n - f.sig - 1;
      High(a, k) + Flag(RoundsUp(High(a, k), Low(a, k), Pow2(k - 1)))
  }

  function Rounded(f: Format, a: nat): nat
    requires f.Valid()
  {
    if a == 0 then 0 else Pattern(f, BitLength(a), Significand(f, a))
  }

  /* ---------- the conversion is correct rounding ---------- */

  lemma {:induction false} PatternMagnitude(f: Format, n: nat, s: nat)
    requires f.Valid() && n >= 1
    requires Pow2(f.sig) <= s <= 2 * Pow2(f.sig)
    ensures f.Bias() + n >= 2
    ensures f.Magnitude(Pattern(f, n, s)) == Shift(s, f.Bias() + n - 2)
  {
    hide Format.Bias, Format.Magnitude, Pow2;
    BiasBounds(f);
    var u, b := Pow2(f.sig), f.Bias() + n - 2;
    AddOne(b, u);
    if s < 2 * u {
      MagnitudeAt(f, b + 1, s - u);
    } else {
      AddOne(b + 1, u);
      MagnitudeAt(f, b + 2, 0);
      CarryMagnitude(u, b + 1);
      AddOne(u + (u - 1), Pow2(b));
    }
  }

  lemma {:induction false} PatternParity(f: Format, n: nat, s: nat)
    requires f.Valid() && n >= 1
    ensures Pattern(f, n, s) % 2 == s % 2
    ensures Pattern(f, n, s + 1) == Pattern(f, n, s) + 1
  {
    hide Format.Bias, Pow2;
    BiasBounds(f);
    var b, h := f.Bias() + n - 2, Pow2(f.sig - 1);
    Pow2Double(f.sig - 1);
    assert b * (2 * h) == 2 * (b * h);
  }

  lemma {:induction false} PatternFinite(f: Format, n: nat, s: nat)
    requires f.Valid() && n >= 1
    requires f.Bias() + n < Pow2(f.exponentBits) - 1 && s <= 2 * Pow2(f.sig)
    ensures Pattern(f, n, s) < f.Infinity()
  {
    hide Format.Bias, Pow2;
    BiasBounds(f);
    var u, v, b := Pow2(f.sig), Pow2(f.exponentBits) - 1, f.Bias() + n - 2;
    AddOne(b, u);
    AddOne(b + 1, u);
    MulOrder(b + 2, v, u);
  }

  /** The digits that are kept. */
  lemma {:induction false} KeptDigits(a: nat, k: nat, w: nat)
    requires BitLength(a) == k + w && w >= 1
    ensures Pow2(w - 1) <= High(a, k) < Pow2(w)
    ensures a == High(a, k) * Pow2(k) + Low(a, k) && Low(a, k) < Pow2(k)
  {
    assert a > 0;
    hide BitLength, Pow2, High, Low;
    BitLengthBounds(a);
    Pow2Add(w - 1, k);
    Pow2Add(w, k);
    HighLow(a, k);
    HighBetween(a, k, Pow2(w - 1), Pow2(w));
  }

  lemma {:induction false} ShiftRange(a: nat, j: nat)
    requires a > 0
    ensures BitLength(a) > 0 && Pow2(BitLength(a) - 1 + j) <= Shift(a, j) < Pow2(BitLength(a) + j)
  {
    hide BitLength, Pow2;
    var n := BitLength(a);
    BitLengthBounds(a);
    Pow2Add(n - 1, j);
    Pow2Add(n, j);
    if Pow2(n - 1) < a {
      MulOrder(Pow2(n - 1), a, Pow2(j));
    }
    MulOrder(a, Pow2(n), Pow2(j));
  }

  lemma {:induction false} SignificandRange(f: Format, a: nat)
    requires f.Valid() && a > 0
    ensures Pow2(f.sig) <= Significand(f, a) <= 2 * Pow2(f.sig)
  {
    hide BitLength, Pow2, High, Low, Shift, RoundsUp;
    var n := BitLength(a);
    Pow2Double(f.sig);
    if n <= f.sig + 1 {
      ShiftRange(a, f.sig + 1 - n);
    } else {
      KeptRange(a, n - f.sig - 1, f.sig + 1);
    }
  }

  /** An integer that fits the significand is converted exactly. */
  lemma {:induction false} FittingIsExact(f: Format, a: nat)
    requires f.Valid() && 0 < BitLength(a) <= f.sig + 1
    ensures f.Magnitude(Rounded(f, a)) == a * f.One()
  {
    hide BitLength, Pow2, Format.Magnitude, Format.Bias, Pattern;
    var n := BitLength(a);
    var j := f.sig + 1 - n;
    BiasBounds(f);
    SignificandRange(f, a);
    PatternMagnitude(f, n, Significand(f, a));
    Pow2Add(j, f.Bias() + n - 2);
    Associates(a, Pow2(j), Pow2(f.Bias() + n - 2));
  }

  /** The two neighbours of an integer that does not fit, and its distance to each. */
  lemma {:induction false} Neighbours(f: Format, a: nat)
    requires f.Valid() && BitLength(a) > f.sig + 1
    ensures var n, one := BitLength(a), f.One();
            var k := n - f.sig - 1;
            var p := Pattern(f, n, High(a, k));
            && f.Magnitude(p) == a * one - Low(a, k) * one
            && f.Magnitude(p + 1) == a * one + (Pow2(k) - Low(a, k)) * one
  {
    hide BitLength, Pow2, Format.Magnitude, Format.Bias, Pattern, High, Low, Shift;
    var n := BitLength(a);
    var k := n - f.sig - 1;
    var q := High(a, k);
    BiasBounds(f);
    KeptRange(a, k, f.sig + 1);
    Pow2Double(f.sig);
    PatternParity(f, n, q);
    PatternMagnitude(f, n, q);
    PatternMagnitude(f, n, q + 1);
    Scatter(a, k, f.Bias() + f.sig - 1);
  }

  lemma {:induction false} KeptRange(a: nat, k: nat, w: nat)
    requires BitLength(a) == k + w && w >= 1
    ensures Pow2(w - 1) <= High(a, k) < Pow2(w)
  {
    hide BitLength, Pow2, High, Low;
    KeptDigits(a, k, w);
  }

  /** Cutting k digits and putting the number back in place, rounded down and up. */
  lemma {:induction false} Scatter(a: nat, k: nat, b: nat)
    ensures var q, r, one := High(a, k), Low(a, k), Pow2(b);
            && Shift(q, k + b) == a * one - r * one
            && Shift(q + 1, k + b) == a * one + (Pow2(k) - r) * one
  {
    hide Pow2, High, Low;
    HighLow(a, k);
    Pow2Add(k, b);
    ScatterProducts(a, High(a, k), Pow2(k), Low(a, k), Pow2(b));
  }

  lemma {:induction false} ScatterProducts(a: nat, q: nat, u: nat, r: nat, one: nat)
    requires a == q * u + r && r < u
    ensures q * (u * one) == a * one - r * one
    ensures (q + 1) * (u * one) == a * one + (u - r) * one
  {
    assert a * one == (q * u) * one + r * one;
    Associates(q, u, one);
    AddOne(q, u * one);
    assert (u - r) * one == u * one - r * one;
  }

  lemma {:induction false} ScaledOrder(x: nat, y: nat, one: nat)
    requires one > 0
    ensures x * one < y * one <==> x < y
    ensures x * one == y * one <==> x == y
  {
    if x < y {
      MulOrder(x, y, one);
    } else if y < x {
      MulOrder(y, x, one);
    }
  }

  /** Which neighbour is nearer follows from the remainder. */
  lemma {:induction false} NearerByRemainder(f: Format, exact: nat, p: nat, r: nat, half: nat, one: nat)
    requires p + 1 < f.Infinity() && one > 0 && r < 2 * half
    requires exact >= r * one && f.Magnitude(p) == exact - r * one
    requires f.Magnitude(p + 1) == exact + (2 * half - r) * one
    ensures IsNearest(f, exact, p + Flag(RoundsUp(p, r, half)))
  {
    hide Pow2, Format.Magnitude, Format.Infinity, IsNearest;
    var lo, hi := r * one, (2 * half - r) * one;
    ScaledOrder(0, 2 * half - r, one);
    ScaledOrder(r, 2 * half - r, one);
    ScaledOrder(2 * half - r, r, one);
    NearerNeighbourIsNearest(f, exact, p, RoundsUp(p, r, half));
  }

  lemma {:induction false} CutIsNearest(f: Format, a: nat)
    requires f.Valid() && f.Bias() + BitLength(a) < Pow2(f.exponentBits) - 1
    requires BitLength(a) > f.sig + 1
    ensures IsNearest(f, a * f.One(), Rounded(f, a))
  {
    hide BitLength, Pow2, Format.Magnitude, Format.Bias, Format.Infinity, Pattern, IsNearest, High, Low;
    var n, one := BitLength(a), f.One();
    var k := n - f.sig - 1;
    var q, r := High(a, k), Low(a, k);
    var p := Pattern(f, n, q);
    KeptRange(a, k, f.sig + 1);
    LowBelow(a, k);
    Pow2Double(f.sig);
    Pow2Double(k - 1);
    Neighbours(f, a);
    PatternParity(f, n, q);
    PatternFinite(f, n, q + 1);
    ScaledOrder(r, a, one);
    NearerByRemainder(f, a * one, p, r, Pow2(k - 1), one);
  }

  lemma {:induction false} FittingIsNearest(f: Format, a: nat)
    requires f.Valid() && f.Bias() + BitLength(a) < Pow2(f.exponentBits) - 1
    requires 0 < BitLength(a) <= f.sig + 1
    ensures IsNearest(f, a * f.One(), Rounded(f, a))
  {
    hide Pow2, Format.Magnitude, Format.Bias, Format.Infinity, Rounded, IsNearest;
    var p := Rounded(f, a);
    FittingIsExact(f, a);
    FitsTwice(f, a);
    Increases(f, p, p + 1);
    NearerNeighbourIsNearest(f, a * f.One(), p, false);
  }

  /** Every integer within the range of the format is rounded to the nearest number, ties to even. */
  lemma {:induction false} RoundedIsNearest(f: Format, a: nat)
    requires f.Valid() && f.Bias() + BitLength(a) < Pow2(f.exponentBits) - 1
    ensures IsNearest(f, a * f.One(), Rounded(f, a))
  {
    hide Pow2, Format.Magnitude, Format.Bias, Format.Infinity, Pattern, IsNearest;
    if a == 0 {
      ZeroIsNearest(f);
    } else if BitLength(a) <= f.sig + 1 {
      FittingIsNearest(f, a);
    } else {
      CutIsNearest(f, a);
    }
  }

  lemma {:induction false} ZeroIsNearest(f: Format)
    requires f.Valid()
    ensures IsNearest(f, 0, 0)
  {
    hide Pow2, Format.Bias, IsNearest;
    MagnitudeAt(f, 0, 0);
    Increases(f, 0, 1);
    BiasBounds(f);
    assert f.Infinity() > 1 by {
      Pow2Less(0, f.sig);
      Pow2Less(7, f.exponentBits);
      MulAtLeast(Pow2(f.exponentBits) - 1, Pow2(f.sig));
    }
    NearerNeighbourIsNearest(f, 0, 0, false);
  }

  /** A fitting significand leaves room for the next pattern. */
  lemma {:induction false} FitsTwice(f: Format, a: nat)
    requires f.Valid() && 0 < BitLength(a) <= f.sig + 1
    requires f.Bias() + BitLength(a) < Pow2(f.exponentBits) - 1
    ensures Rounded(f, a) + 1 < f.Infinity()
  {
    hide BitLength, Pow2, Format.Bias, Format.Infinity, Pattern, Shift;
    var n := BitLength(a);
    ShiftRange(a, f.sig + 1 - n);
    Pow2Double(f.sig);
    PatternParity(f, n, Significand(f, a));
    PatternFinite(f, n, Significand(f, a) + 1);
  }

  /** Rounding keeps the order. */
  lemma {:induction false} RoundedKeepsOrder(f: Format, a: nat, b: nat)
    requires f.Valid() && a <= b && f.Bias() + BitLength(b) < Pow2(f.exponentBits) - 1
    ensures Rounded(f, a) <= Rounded(f, b)
  {
    hide Pow2, Format.Magnitude, Format.Bias, Format.Infinity, Rounded, BitLength;
    BitLengthMonotone(a, b);
    RoundedIsNearest(f, a);
    RoundedIsNearest(f, b);
    ScaledOrder(a, b, f.One());
    if Rounded(f, a) > Rounded(f, b) {
      Increases(f, Rounded(f, b), Rounded(f, a));
    }
  }

  /* ---------- there and back ---------- */

  /** The integer a rounded value stands for. */
  function Integral(f: Format, a: nat): nat {
    var n := BitLength(a);
    if n <= f.sig + 1 then a else Shift(Significand(f, a), n - f.sig - 1)
  }

  lemma {:induction false} RoundedStandsFor(f: Format, a: nat)
    requires f.Valid()
    ensures f.Magnitude(Rounded(f, a)) == Integral(f, a) * f.One()
  {
    hide BitLength, Pow2, Format.Magnitude, Format.Bias, Significand, Pattern;
    var n := BitLength(a);
    if a == 0 {
      MagnitudeAt(f, 0, 0);
    } else if n <= f.sig + 1 {
      FittingIsExact(f, a);
    } else {
      var k := n - f.sig - 1;
      SignificandRange(f, a);
      PatternMagnitude(f, n, Significand(f, a));
      Pow2Add(k, f.Bias() + f.sig - 1);
      Associates(Significand(f, a), Pow2(k), f.One());
    }
  }

  /** Rounding to an integer moves by at most half a unit of the last kept digit. */
  lemma {:induction false} IntegralIsClose(f: Format, a: nat)
    requires f.Valid() && BitLength(a) > f.sig + 1
    ensures var k := BitLength(a) - f.sig - 1;
            var r := Low(a, k);
            && r < Pow2(k) == 2 * Pow2(k - 1)
            && Integral(f, a) == if RoundsUp(High(a, k), r, Pow2(k - 1)) then a + (Pow2(k) - r) else a - r
  {
    hide BitLength, Pow2, High, Low;
    var k := BitLength(a) - f.sig - 1;
    var q, u := High(a, k), Pow2(k);
    KeptDigits(a, k, f.sig + 1);
    Pow2Double(k - 1);
    AddOne(q, u);
  }

  lemma {:induction false} Reread(f: Format, a: nat)
    requires f.Valid() && f.Bias() + BitLength(a) < Pow2(f.exponentBits) - 1
    ensures FixUnsigned(f, Rounded(f, a)) == Clamp(Integral(f, a), 0, Pow2(WIDTH) - 1)
  {
    hide Pow2, High, Low, Format.Magnitude, Format.Bias, Rounded, Integral, FixUnsigned;
    var p := Rounded(f, a);
    UnsignedTruncates(f, p);
    RoundedIsNearest(f, a);
    assert p < Pow2(f.sig + f.exponentBits) by {
      Pow2Add(f.exponentBits, f.sig);
      MulOrder(Pow2(f.exponentBits) - 1, Pow2(f.exponentBits), Pow2(f.sig));
    }
    Below(p, f.sig + f.exponentBits);
    RoundedStandsFor(f, a);
    HighLowUnique(Integral(f, a) * f.One(), f.Bias() + f.sig - 1, Integral(f, a), 0);
  }

  /** The digits of a word of ones are ones, low and high. */
  lemma {:induction false} OnesLow(w: nat, k: nat)
    requires k <= w
    ensures Low(Pow2(w) - 1, k) == Pow2(k) - 1 && High(Pow2(w) - 1, k) == Pow2(w - k) - 1
  {
    hide Pow2, High, Low;
    var u, v := Pow2(k), Pow2(w - k);
    Pow2Add(w - k, k);
    AddOne(v - 1, u);
    HighLowUnique(Pow2(w) - 1, k, v - 1, u - 1);
  }

  lemma {:induction false} AllOnesRoundUp(k: nat, w: nat)
    requires 2 <= k <= w
    ensures Low(Pow2(w) - 1, k) == Pow2(k) - 1 > Pow2(k - 1)
  {
    hide Pow2, High, Low;
    OnesLow(w, k);
    Pow2Double(k - 1);
    Pow2Less(0, k - 1);
  }

  /** The integers that a conversion to floating point and back gives back unchanged. */
  predicate Representable(f: Format, a: nat) {
    var n := BitLength(a);
    n <= f.sig + 1 || Low(a, n - f.sig - 1) == 0
  }

  /**
    Converting to floating point and back gives the same integer exactly when the digits beyond
    the significand are zero, or when the integer is the largest one: that rounds up out of the
    range and saturates.
  */
  lemma {:induction false} ThereAndBack(f: Format, a: nat)
    requires f.Valid() && a < Pow2(WIDTH) && f.Bias() + WIDTH < Pow2(f.exponentBits) - 1
    ensures FixUnsigned(f, Rounded(f, a)) == a <==> Representable(f, a) || a == Pow2(WIDTH) - 1
  {
    hide BitLength, Pow2, Format.Bias, Rounded, Integral, FixUnsigned, High, Low;
    DigitsWithin(a);
    Reread(f, a);
    var n := BitLength(a);
    if n <= f.sig + 1 {
      FittingStays(f, a);
    } else {
      var k := n - f.sig - 1;
      IntegralIsClose(f, a);
      if a == Pow2(WIDTH) - 1 {
        WidthHalves();
        BitLengthUnique(a, WIDTH);
        AllOnesRoundUp(k, WIDTH);
      }
    }
  }

  lemma {:induction false} FittingStays(f: Format, a: nat)
    ensures BitLength(a) <= f.sig + 1 ==> Integral(f, a) == a
  {
  }

  /** The way there and back errs by at most half a unit of the last kept digit. */
  lemma {:induction false} ThereAndBackIsClose(f: Format, a: nat)
    requires f.Valid() && a < Pow2(WIDTH) && f.Bias() + WIDTH < Pow2(f.exponentBits) - 1
    requires BitLength(a) > f.sig + 1
    ensures Distance(a, FixUnsigned(f, Rounded(f, a))) <= Pow2(BitLength(a) - f.sig - 2)
  {
    hide BitLength, Pow2, Format.Bias, Rounded, Integral, FixUnsigned, High, Low;
    DigitsWithin(a);
    Reread(f, a);
    IntegralIsClose(f, a);
  }

  lemma {:induction false} DigitsWithin(a: nat)
    requires a < Pow2(WIDTH)
    ensures BitLength(a) <= WIDTH
  {
    hide BitLength, Pow2;
    if a > 0 {
      BitLengthBounds(a);
      var n := BitLength(a);
      if n > WIDTH + 1 {
        Pow2Less(WIDTH, n - 1);
      }
    }
  }
}
