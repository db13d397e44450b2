/** The 128-bit integer to double routines, step by step on machine words. */
module TiDf {
  import opened Bits
  import opened FloatFormats
  import opened FloatToInt
  import opened IntToFloat

  /** The digits of a double's significand. */
  const DIGITS: nat := 53

  /** Zeros before the first one of a non-zero 64-bit word. */
  function LeadingZeros64(x: nat): int {
    64 - BitLength(x)
  }

  /** Zeros before the first one, found in the high half or, when that is zero, in the low half. */
  function LeadingZeros(a: nat): int {
    var high, low := High(a, 64), Low(a, 64);
    var mask := if high == 0 then Pow2(64) - 1 else 0;
    LeadingZeros64(Or(And(high, Pow2(64) - 1 - mask), And(low, mask))) + And(Low(mask, 32), 64)
  }

  /** Each bit of a word of ones is one. */
  lemma {:induction false} OnesBit(w: nat, k: nat)
    requires k < w
    ensures And(Pow2(w) - 1, Pow2(k)) == Pow2(k)
  {
    hide Pow2, And, High, Low;
    AndBit(Pow2(w) - 1, k);
    OnesLow(w, k);
    Pow2Double(w - k - 1);
  }

  lemma {:induction false} SmallPowers()
    ensures Pow2(0) == 1 && Pow2(1) == 2 && Pow2(2) == 4 && Pow2(6) == 64
  {
    hide Pow2;
    Pow2Zero();
    Pow2Double(0);
    Pow2Double(1);
    Pow2Add(2, 2);
    Pow2Add(4, 2);
  }

  lemma {:induction false} Pow2Zero()
    ensures Pow2(0) == 1
  {
  }

  lemma {:induction false} Halves(a: nat)
    requires a < Pow2(WIDTH)
    ensures High(a, 64) < Pow2(64) && Low(a, 64) < Pow2(64)
    ensures High(a, 64) == 0 ==> Low(a, 64) == a
  {
    hide Pow2, High, Low;
    HighLow(a, 64);
    Pow2Add(64, 64);
    HighBetween(a, 64, 0, Pow2(64));
  }

  lemma {:induction false} LeadingZerosCount(a: nat)
    requires 0 < a < Pow2(WIDTH)
    ensures LeadingZeros(a) == WIDTH - BitLength(a)
  {
    hide Pow2, High, Low, BitLength;
    var high, low := High(a, 64), Low(a, 64);
    Halves(a);
    if high == 0 {
      AndMask(low, 64);
      Below(low, 64);
      OnesLow(64, 32);
      OnesBit(32, 6);
      SmallPowers();
    } else {
      AndMask(high, 64);
      Below(high, 64);
      BitLengthHigh(a, 64);
      Below(0, 32);
    }
  }

  /** Or-ing the lost digits into the last one, then the last kept digit, then adding one. */
  lemma {:induction false} FinishRounds(y: nat)
    ensures High(Or(y, Flag(And(y, 4) != 0)) + 1, 2)
            == y / 4 + Flag(y % 4 == 3 || (y % 4 == 2 && (y / 4) % 2 == 1))
  {
    hide Pow2, And, Or, High, Low;
    AndBit(y, 2);
    SmallPowers();
    OrFlag(y, And(y, 4) != 0);
    HighTwo(y);
    HighTwo(Or(y, Flag(And(y, 4) != 0)) + 1);
    FinishArithmetic(y);
  }

  lemma {:induction false} Quarter(x: nat, q: nat, c: nat)
    requires x == 4 * q + c && c < 4
    ensures x / 4 == q
  {
  }

  /** Adding one to 4 * q + c, or two when c is even and q is odd. */
  lemma {:induction false} FinishAt(y: nat, q: nat, c: nat, odd: bool, even: bool)
    requires y == 4 * q + c && c < 4 && (even <==> c == 0 || c == 2)
    ensures (y + Flag(odd && even) + 1) / 4 == q + Flag(c == 3 || (c == 2 && odd))
  {
    var up := Flag(odd && even);
    if c == 3 || (c == 2 && odd) {
      Quarter(y + up + 1, q + 1, 0);
    } else {
      Quarter(y + up + 1, q, c + up + 1);
    }
  }

  lemma {:induction false} LastDigits(y: nat)
    ensures y == 4 * (y / 4) + y % 4 && (y % 2 == 0 <==> y % 4 == 0 || y % 4 == 2)
  {
  }

  lemma {:induction false} FinishArithmetic(y: nat)
    ensures (y + Flag((y / 4) % 2 == 1 && y % 2 == 0) + 1) / 4
            == y / 4 + Flag(y % 4 == 3 || (y % 4 == 2 && (y / 4) % 2 == 1))
  {
    LastDigits(y);
    hide Flag;
    FinishAt(y, y / 4, y % 4, (y / 4) % 2 == 1, y % 2 == 0);
  }

  lemma {:induction false} HighTwo(y: nat)
    ensures High(y, 2) == y / 4
  {
    hide Pow2, High, Low;
    SmallPowers();
    HighLowUnique(y, 2, y / 4, y % 4);
  }

  /** Whether the number q + (b + t/u) / 4 is rounded up, from b and whether t is zero. */
  lemma {:induction false} GuardsDecide(q: nat, b: nat, t: nat, u: nat, r: nat)
    requires b < 4 && t < u
    requires r == if b == 0 then t else if b == 1 then u + t else if b == 2 then 2 * u + t else 3 * u + t
    ensures var y := 4 * q + b + Flag(t != 0 && b % 2 == 0);
            && y / 4 == q
            && ((y % 4 == 3 || (y % 4 == 2 && q % 2 == 1)) <==> RoundsUp(q, r, 2 * u))
  {
    var y := 4 * q + b + Flag(t != 0 && b % 2 == 0);
    assert y / 4 == q && y % 4 == b + Flag(t != 0 && b % 2 == 0);
  }

  /** Cutting two more digits off. */
  lemma {:induction false} CutTwoMore(a: nat, j: nat, q: nat, b: nat)
    requires b < 4 && High(a, j) == 4 * q + b
    ensures High(a, j + 2) == q
    ensures var t, u := Low(a, j), Pow2(j);
            Low(a, j + 2) == if b == 0 then t else if b == 1 then u + t else if b == 2 then 2 * u + t else 3 * u + t
  {
    hide Pow2, High, Low;
    var t, u := Low(a, j), Pow2(j);
    Pow2Double(j);
    Pow2Double(j + 1);
    HighLow(a, j);
    HighLow(a, j + 2);
    GuardRemainder(a, u, q, b, t);
    QuotientUnique(4 * u, High(a, j + 2), Low(a, j + 2), q, b * u + t);
  }

  /** Two guard digits and the or of the rest decide like the whole remainder. */
  lemma {:induction false} GuardDigits(a: nat, j: nat)
    ensures var x, t := High(a, j), Low(a, j);
            var y := x + Flag(t != 0 && x % 2 == 0);
            && y / 4 == High(a, j + 2)
            && ((y % 4 == 3 || (y % 4 == 2 && (y / 4) % 2 == 1))
                <==> RoundsUp(High(a, j + 2), Low(a, j + 2), Pow2(j + 1)))
  {
    hide Pow2, High, Low, RoundsUp;
    var x, t, u := High(a, j), Low(a, j), Pow2(j);
    var q, b := x / 4, x % 4;
    Pow2Double(j);
    CutTwoMore(a, j, q, b);
    LowBelow(a, j);
    GuardsDecide(q, b, t, u, Low(a, j + 2));
    assert x % 2 == b % 2;
  }

  lemma {:induction false} GuardRemainder(a: nat, u: nat, q: nat, b: nat, t: nat)
    requires a == (4 * q + b) * u + t && b < 4 && t < u
    ensures a == q * (4 * u) + (b * u + t) && b * u + t < 4 * u
    ensures b == 0 ==> b * u == 0
    ensures b == 1 ==> b * u == u
    ensures b == 2 ==> b * u == 2 * u
    ensures b == 3 ==> b * u == 3 * u
  {
    assert (4 * q + b) * u == q * (4 * u) + b * u;
  }

  /** Word y holds the kept digits of a followed by two guard digits that decide the rounding. */
  ghost predicate Guards(a: nat, k: nat, y: nat)
    requires k >= 1
  {
    && y / 4 == High(a, k)
    && ((y % 4 == 3 || (y % 4 == 2 && (y / 4) % 2 == 1)) <==> RoundsUp(High(a, k), Low(a, k), Pow2(k - 1)))
  }

  /** One digit too many: a zero guard digit is appended. */
  lemma {:induction false} GuardsOfOne(a: nat)
    ensures Guards(a, 1, Shift(a, 1))
  {
    hide Pow2, High, Low;
    SmallPowers();
    HighLowUnique(a, 1, a / 2, a % 2);
  }

  /** Two digits too many: they are the guard digits. */
  lemma {:induction false} GuardsOfTwo(a: nat)
    ensures Guards(a, 2, a)
  {
    hide Pow2, High, Low;
    SmallPowers();
    HighLowUnique(a, 0, a, 0);
    GuardDigits(a, 0);
  }

  /** More: the others are or-ed into the second guard digit. */
  lemma {:induction false} GuardsOfMany(a: nat, k: nat, w: nat)
    requires 2 < k <= w + 2
    ensures Guards(a, k, Or(High(a, k - 2), Flag(And(a, High(Pow2(w) - 1, w + 2 - k)) != 0)))
  {
    hide Pow2, And, Or, High, Low, RoundsUp;
    var j := k - 2;
    OnesLow(w, w - j);
    MaskIsLow(a, j);
    OrFlag(High(a, j), Low(a, j) != 0);
    GuardDigits(a, j);
  }

  lemma {:induction false} MaskIsLow(a: nat, j: nat)
    ensures And(a, Pow2(j) - 1) == Low(a, j)
  {
    AndMask(a, j);
  }

  /** A rounding that added a digit is undone by the exponent. */
  lemma {:induction false} CarryKeepsPattern(s: nat, n: nat)
    requires n >= 1 && Pow2(DIGITS - 1) <= s <= 2 * Pow2(DIGITS - 1)
    ensures And(s, Pow2(DIGITS)) != 0 <==> s == Pow2(DIGITS)
    ensures s == Pow2(DIGITS) ==> High(s, 1) == Pow2(DIGITS - 1)
    ensures Pattern(Double, n + 1, Pow2(DIGITS - 1)) == Pattern(Double, n, Pow2(DIGITS))
  {
    hide Pow2, High, Low, And, Format.Bias;
    SmallPowers();
    Pow2Double(DIGITS - 1);
    AndBit(s, DIGITS);
    if s == Pow2(DIGITS) {
      HighLowUnique(s, DIGITS, 1, 0);
      HighLowUnique(s, 1, Pow2(DIGITS - 1), 0);
    } else {
      Below(s, DIGITS);
    }
    BiasBounds(Double);
    var b, u := Double.Bias() + n - 2, Pow2(DIGITS - 1);
    AddOne(b, u);
  }

  lemma {:induction false} Fits(x: nat, n: nat)
    requires n <= WIDTH && x <= Pow2(n) - 1
    ensures Low(x, WIDTH) == x
  {
    hide Pow2;
    if n < WIDTH {
      Pow2Less(n, WIDTH);
    }
    Below(x, WIDTH);
  }

  /** The finishing steps turn guarded digits into the rounded significand, within the word. */
  lemma {:induction false} FinishGives(a: nat, k: nat, y: nat)
    requires k >= 1 && BitLength(a) == k + DIGITS && Guards(a, k, y)
    ensures var z := Or(y, Flag(And(y, 4) != 0));
            Low(z + 1, WIDTH) == z + 1 && High(z + 1, 2) == Significand(Double, a)
  {
    hide BitLength, Pow2, High, Low, And, Or, RoundsUp;
    var z := Or(y, Flag(And(y, 4) != 0));
    FinishRounds(y);
    OrFlag(y, And(y, 4) != 0);
    KeptRange(a, k, DIGITS);
    Pow2Double(DIGITS);
    Pow2Double(DIGITS + 1);
    Pow2Double(DIGITS + 2);
    assert z + 1 <= y + 2 < 4 * Pow2(DIGITS) + 2;
    Fits(z + 1, DIGITS + 3);
  }

  /** The significand and exponent of a, on 128-bit words. */
  method Normalise(start: nat) returns (a: nat, e: nat)
    requires 0 < start < Pow2(WIDTH)
    ensures Pow2(DIGITS - 1) <= a < Pow2(DIGITS) && e <= WIDTH
    ensures Pattern(Double, e + 1, a) == Rounded(Double, start)
  {
    hide BitLength, Pow2, Pattern, And, Or, High, Low, RoundsUp, LeadingZeros, Significand, Guards, Shift;
    a := start;
    LeadingZerosCount(a);
    DigitsWithin(a);
    BitLengthBounds(a);
    SignificandRange(Double, a);
    Pow2Double(DIGITS - 1);
    var sd := WIDTH - LeadingZeros(a);
    e := sd - 1;
    if sd > DIGITS {
      if sd == DIGITS + 1 {
        GuardsOfOne(a);
        ShiftFits(a, 1);
        a := Low(Shift(a, 1), WIDTH);
      } else if sd == DIGITS + 2 {
        GuardsOfTwo(a);
      } else {
        GuardsOfMany(a, sd - DIGITS, WIDTH);
        a := Or(High(a, sd - (DIGITS + 2)),
                Flag(And(a, High(Pow2(WIDTH) - 1, WIDTH + DIGITS + 2 - sd)) != 0));
      }
      FinishGives(start, sd - DIGITS, a);
      a := Or(a, Flag(And(a, 4) != 0));
      a := Low(a + 1, WIDTH);
      a := High(a, 2);
      CarryKeepsPattern(a, sd);
      if And(a, Pow2(DIGITS)) != 0 {
        a := High(a, 1);
        e := e + 1;
      }
    } else {
      ShiftFits(a, DIGITS - sd);
      WidenedIsSignificand(a);
      a := Low(Shift(a, DIGITS - sd), WIDTH);
    }
  }

  lemma {:induction false} ShiftFits(a: nat, j: nat)
    requires a > 0 && BitLength(a) + j <= WIDTH
    ensures Low(Shift(a, j), WIDTH) == Shift(a, j) < Pow2(BitLength(a) + j)
  {
    hide BitLength, Pow2, Shift, Low;
    ShiftRange(a, j);
    Fits(Shift(a, j), BitLength(a) + j);
  }

  lemma {:induction false} WidenedIsSignificand(a: nat)
    requires BitLength(a) <= DIGITS
    ensures Significand(Double, a) == Shift(a, DIGITS - BitLength(a))
  {
    hide Pow2;
  }

  lemma {:induction false} DoubleBias()
    ensures Double.Bias() == 1023 && Pow2(11) == 2048
  {
    hide Pow2;
    SmallPowers();
    Pow2Add(6, 2);
    Pow2Add(8, 2);
    Pow2Add(10, 1);
  }

  /** The significand without its first digit, in two 32-bit words. */
  lemma {:induction false} WordsOf(a: nat)
    requires Pow2(52) <= a < Pow2(53)
    ensures And(Low(High(a, 32), 32), Pow2(20) - 1) == High(a, 32) - Pow2(20)
    ensures High(a, 32) < 2 * Pow2(20)
  {
    hide Pow2, And, High, Low;
    Pow2Add(20, 32);
    Pow2Add(21, 32);
    Pow2Double(20);
    Pow2Less(21, 32);
    HighBetween(a, 32, Pow2(20), Pow2(21));
    Below(High(a, 32), 32);
    AndMask(High(a, 32), 20);
    HighLowUnique(High(a, 32), 20, 1, High(a, 32) - Pow2(20));
  }

  /** Exponent and significand words, with `sign` standing above them, put together. */
  lemma {:induction false} Assembled(sign: nat, e: nat, a: nat)
    requires Pow2(52) <= a < Pow2(53)
    ensures var high := Or(Shift(sign + e + 1023, 20), And(Low(High(a, 32), 32), Pow2(20) - 1));
            Shift(high, 32) + Low(a, 32) == Shift(sign, 52) + Pattern(Double, e + 1, a)
  {
    hide Pow2, High, Low, And, Or, Format.Bias;
    DoubleBias();
    WordsOf(a);
    var x, h, u, v := sign + e + 1023, High(a, 32), Pow2(20), Pow2(32);
    OrDisjoint(x, h - u, 20);
    Pow2Add(20, 32);
    HighLow(a, 32);
    assert (x * u + (h - u)) * v == x * (u * v) + h * v - u * v;
    assert x * (u * v) == sign * (u * v) + (e + 1022) * (u * v) + u * v;
  }

  /** Every unsigned 128-bit integer becomes the nearest double. */
  method FloatUnTiDf(a: nat) returns (bits: nat)
    requires a < Pow2(WIDTH)
    ensures bits == Rounded(Double, a)
  {
    hide BitLength, Pow2, Pattern, And, Or, High, Low, Shift;
    if a == 0 {
      return 0;
    }
    var m, e := Normalise(a);
    Assembled(0, e, m);
    ExponentWord(e);
    ShiftZero(52);
    var high := Or(Low(Shift(e + 1023, 20), 32), And(Low(High(m, 32), 32), Pow2(20) - 1));
    var low := Low(m, 32);
    bits := Shift(high, 32) + low;
  }

  lemma {:induction false} ShiftZero(n: nat)
    ensures Shift(0, n) == 0
  {
    hide Pow2;
  }

  /** The exponent stays clear of the sign bit. */
  lemma {:induction false} ExponentWord(e: nat)
    requires e <= WIDTH
    ensures Low(Shift(e + 1023, 20), 32) == Shift(e + 1023, 20) < Pow2(31)
  {
    hide Pow2;
    DoubleBias();
    Pow2Add(11, 20);
    ScaledOrder(e + 1023, 2048, Pow2(20));
    Pow2Less(31, 32);
    Below(Shift(e + 1023, 20), 32);
  }

  /** The sign bit above the exponent. */
  lemma {:induction false} SignWord(e: nat)
    requires e <= WIDTH
    ensures And(Low(Pow2(WIDTH) - 1, 32), Pow2(31)) == Pow2(31)
    ensures Or(Pow2(31), Shift(e + 1023, 20)) == Shift(2048 + e + 1023, 20)
    ensures Shift(2048, 52) == Pow2(63)
  {
    hide Pow2, High, Low, And, Or;
    OnesLow(WIDTH, 32);
    OnesBit(32, 31);
    DoubleBias();
    ExponentWord(e);
    OrDisjoint(1, Shift(e + 1023, 20), 31);
    Pow2Add(11, 20);
    Pow2Add(11, 52);
    assert (2048 + e + 1023) * Pow2(20) == 2048 * Pow2(20) + (e + 1023) * Pow2(20);
  }

  /** Flipping all bits and adding one turns a negative integer into its magnitude, the least one too. */
  lemma {:induction false} MagnitudeOf(a: int)
    requires MIN <= a <= MAX
    ensures var ones := Pow2(WIDTH) - 1;
            && (a < 0 ==> (Xor(Pow2(WIDTH) + a, ones) - ones) % Pow2(WIDTH) == -a)
            && (a >= 0 ==> (Xor(a, 0) - 0) % Pow2(WIDTH) == a)
  {
    hide Pow2;
    WidthHalves();
    if a < 0 {
      XorOnes(Pow2(WIDTH) + a, WIDTH);
      hide Xor;
      ModNear(-a - Pow2(WIDTH), Pow2(WIDTH));
    } else {
      ModNear(a, Pow2(WIDTH));
    }
  }

  /** Every signed 128-bit integer becomes the nearest double to its magnitude, with its sign. */
  method FloatTiDf(a: int) returns (bits: nat)
    requires MIN <= a <= MAX
    ensures bits == (if a < 0 then Pow2(63) + Rounded(Double, -a) else Rounded(Double, a))
  {
    hide BitLength, Pow2, Pattern, And, Or, High, Low, Shift, Xor;
    if a == 0 {
      return 0;
    }
    WidthHalves();
    MagnitudeOf(a);
    // The word holding a, and the word of copies of its sign bit.
    var word: nat := if a < 0 then Pow2(WIDTH) + a else a;
    var s: nat := if a < 0 then Pow2(WIDTH) - 1 else 0;
    var magnitude: nat := (Xor(word, s) - s) % Pow2(WIDTH);
    var m, e := Normalise(magnitude);
    SignWord(e);
    ExponentWord(e);
    Assembled(if a < 0 then 2048 else 0, e, m);
    ShiftZero(52);
    NoSign(Shift(e + 1023, 20));
    var high := Or(Or(And(Low(s, 32), Pow2(31)), Low(Shift(e + 1023, 20), 32)),
                   And(Low(High(m, 32), 32), Pow2(20) - 1));
    var low := Low(m, 32);
    bits := Shift(high, 32) + low;
  }

  lemma {:induction false} NoSign(x: nat)
    ensures Or(And(Low(0, 32), Pow2(31)), x) == x
  {
    hide Pow2;
    Below(0, 32);
  }

  /** Both routines round to the nearest double: every 128-bit integer lies within its range. */
  lemma {:induction false} EveryIntegerRounds(a: nat)
    requires a < Pow2(WIDTH)
    ensures var f := Double;
            && IsNearest(f, a * f.One(), Rounded(f, a))
            && (FixUnsigned(f, Rounded(f, a)) == a <==> Representable(f, a) || a == Pow2(WIDTH) - 1)
  {
    hide BitLength, Pow2, Format.Bias, IsNearest, Rounded, FixUnsigned, Representable, Format.One;
    DoubleBias();
    DigitsWithin(a);
    RoundedIsNearest(Double, a);
    ThereAndBack(Double, a);
  }
}
