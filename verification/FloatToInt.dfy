/** Conversion of a floating point pattern to a 128-bit integer, signed and unsigned. */
module FloatToInt {
  import opened Bits
  import opened FloatFormats

  const WIDTH: nat := 128

  const MIN: int := 0 - Pow2(WIDTH - 1)
  const MAX: int := Pow2(WIDTH - 1) - 1

  datatype Parts = Parts(negative: bool, exponent: int, significand: nat)

  function Break(f: Format, rep: nat): Parts {
    var signBit := Pow2(f.sig + f.exponentBits);
    var abs := And(rep, signBit - 1);
    Parts(And(rep, signBit) != 0,
          High(abs, f.sig) - f.Bias(),
          Or(And(abs, Pow2(f.sig) - 1), Pow2(f.sig)))
  }

  /** Two's complement reading of an integer kept in 128 bits. */
  function Wrap(x: int): int {
    var m := x % Pow2(WIDTH);
    if m < Pow2(WIDTH - 1) then m else m - Pow2(WIDTH)
  }

  function FixUnsigned(f: Format, rep: nat): nat {
    var p := Break(f, rep);
    if p.negative || p.exponent < 0 then 0
    else if p.exponent >= WIDTH then Pow2(WIDTH) - 1
    else if p.exponent < f.sig then High(p.significand, f.sig - p.exponent)
    else Low(Shift(p.significand, p.exponent - f.sig), WIDTH)
  }

  function FixSigned(f: Format, rep: nat): int {
    var p := Break(f, rep);
    var sign := if p.negative then -1 else 1;
    if p.exponent < 0 then 0
    else if p.exponent >= WIDTH then (if p.negative then MIN else MAX)
    else if p.exponent < f.sig then sign * High(p.significand, f.sig - p.exponent)
    else Wrap(sign * Wrap(Shift(p.significand, p.exponent - f.sig)))
  }

  /* ---------- what a pattern means ---------- */

  predicate Negative(f: Format, rep: nat) {
    High(rep, f.sig + f.exponentBits) % 2 == 1
  }

  /** The pattern without its sign. */
  function Unsigned(f: Format, rep: nat): nat {
    Low(rep, f.sig + f.exponentBits)
  }

  /** The magnitude, rounded down to an integer. An infinity reads as the next power of two. */
  function Floor(f: Format, rep: nat): nat
    requires f.Valid()
  {
    High(f.Magnitude(Unsigned(f, rep)), f.Bias() + f.sig - 1)
  }

  /** The nearest integer between the two limits. */
  function Clamp(x: int, lo: int, hi: int): int {
    if x < lo then lo else if x > hi then hi else x
  }

  lemma {:induction false} BreakReads(f: Format, rep: nat)
    ensures var p := Unsigned(f, rep);
            Break(f, rep) == Parts(Negative(f, rep), High(p, f.sig) - f.Bias(), Pow2(f.sig) + Low(p, f.sig))
    ensures Low(Unsigned(f, rep), f.sig) < Pow2(f.sig)
  {
    hide Format.Bias, And, Or, Pow2, High, Low;
    var p := Unsigned(f, rep);
    AndMask(rep, f.sig + f.exponentBits);
    AndBit(rep, f.sig + f.exponentBits);
    AndMask(p, f.sig);
    HighLow(p, f.sig);
    OrDisjoint(1, Low(p, f.sig), f.sig);
    OrCommutes(Low(p, f.sig), Pow2(f.sig));
  }

  /** The unbiased exponent e of a number says that it lies in [2^e, 2^(e+1)). */
  lemma {:induction false} ExponentBounds(f: Format, s: nat, e: int)
    requires f.Valid() && f.Bias() + e >= 1
    requires Pow2(f.sig) <= s < 2 * Pow2(f.sig)
    ensures e >= 0 ==> Pow2(e) * f.One() <= Shift(s, f.Bias() + e - 1) < Pow2(e + 1) * f.One()
    ensures e < 0 ==> Shift(s, f.Bias() + e - 1) < f.One()
  {
    hide Format.Bias;
    var n := f.Bias() + e - 1;
    var h := Pow2(n);
    ScaleBounds(s, Pow2(f.sig), h);
    Pow2Add(f.sig, n);
    assert Pow2(f.sig) * h <= s * h < 2 * (Pow2(f.sig) * h);
    if e >= 0 {
      Pow2Add(e, f.Bias() + f.sig - 1);
      assert f.sig + n == e + (f.Bias() + f.sig - 1);
      TimesTwo(Pow2(e), f.One());
    } else {
      if e < -1 {
        Pow2Less(f.sig + n, f.Bias() + f.sig - 1 - 1);
      }
      assert f.One() == 2 * Pow2(f.Bias() + f.sig - 1 - 1);
    }
  }

  lemma {:induction false} TimesTwo(x: nat, y: nat)
    ensures (2 * x) * y == 2 * (x * y)
  {
  }

  lemma {:induction false} ScaleBounds(s: nat, u: nat, h: nat)
    requires u <= s < 2 * u && h > 0
    ensures u * h <= s * h < 2 * (u * h)
  {
    if s > u {
      MulOrder(u, s, h);
    }
    MulOrder(s, 2 * u, h);
    Associates(2, u, h);
  }

  lemma {:induction false} ShiftDown(f: Format, s: nat, e: nat)
    requires f.Valid() && f.Bias() >= 1 && e < f.sig
    ensures High(Shift(s, f.Bias() + e - 1), f.Bias() + f.sig - 1) == High(s, f.sig - e)
  {
    hide Format.Bias, Pow2;
    var n := f.Bias() + e - 1;
    ShiftCancels(s, n, f.sig - e);
  }

  lemma {:induction false} ShiftUp(f: Format, s: nat, e: nat)
    requires f.Valid() && f.Bias() >= 1 && e >= f.sig
    ensures High(Shift(s, f.Bias() + e - 1), f.Bias() + f.sig - 1) == Shift(s, e - f.sig)
  {
    hide Format.Bias, Pow2, High, Low;
    var n, k := f.Bias() + f.sig - 1, e - f.sig;
    var x := Shift(s, k);
    Pow2Add(k, n);
    Associates(s, Pow2(k), Pow2(n));
    HighLowUnique(Shift(s, k + n), n, x, 0);
  }

  lemma {:induction false} BiasBounds(f: Format)
    requires f.Valid()
    ensures f.Bias() >= 127
  {
    if f.exponentBits > 8 {
      Pow2Less(8, f.exponentBits);
    }
  }

  /** How the integer part is found from the broken-down pattern, by a shift one way or the other. */
  lemma {:induction false} FloorByShifting(f: Format, rep: nat)
    requires f.Valid()
    ensures var p := Break(f, rep);
            && (p.exponent < 0 ==> Floor(f, rep) == 0)
            && (p.exponent >= 0 ==> Pow2(p.exponent) <= Floor(f, rep) < Pow2(p.exponent + 1))
            && (0 <= p.exponent < f.sig ==> Floor(f, rep) == High(p.significand, f.sig - p.exponent))
            && (p.exponent >= f.sig ==> Floor(f, rep) == Shift(p.significand, p.exponent - f.sig))
  {
    hide Format.Bias, Pow2, High, Low, Break, And, Or, Shift, Negative, Unsigned;
    BiasBounds(f);
    BreakReads(f, rep);
    var e, s := Break(f, rep).exponent, Break(f, rep).significand;
    var n := f.Bias() + f.sig - 1;
    if f.Bias() + e == 0 {
      Pow2Add(f.sig, f.Bias() - 1);
      MulAtLeast(Pow2(f.Bias() - 1), Pow2(f.sig));
      Below(Low(Unsigned(f, rep), f.sig), n);
    } else {
      ExponentBounds(f, s, e);
      if e < 0 {
        Below(Shift(s, f.Bias() + e - 1), n);
      } else {
        HighBetween(Shift(s, f.Bias() + e - 1), n, Pow2(e), Pow2(e + 1));
        if e < f.sig {
          ShiftDown(f, s, e);
        } else {
          ShiftUp(f, s, e);
        }
      }
    }
  }

  /* ---------- the results ---------- */

  /** The unsigned conversion truncates, and clamps to the range of the integer type. */
  lemma {:induction false} UnsignedTruncates(f: Format, rep: nat)
    requires f.Valid()
    ensures FixUnsigned(f, rep) == if Negative(f, rep) then 0 else Clamp(Floor(f, rep), 0, Pow2(WIDTH) - 1)
  {
    hide Pow2, Break, Shift, High, Floor;
    BreakReads(f, rep);
    FloorByShifting(f, rep);
    var e := Break(f, rep).exponent;
    PowerOrder(e, WIDTH);
    if Floor(f, rep) < Pow2(WIDTH) {
      Below(Floor(f, rep), WIDTH);
    }
  }

  lemma {:induction false} PowerOrder(e: int, w: nat)
    ensures 0 <= e < w ==> Pow2(e + 1) <= Pow2(w)
    ensures e >= w ==> Pow2(w) <= Pow2(e)
  {
    hide Pow2;
    if 0 <= e < w && e + 1 < w {
      Pow2Less(e + 1, w);
    } else if e > w {
      Pow2Less(w, e);
    }
  }

  /** The number rounded towards zero. */
  function Truncated(f: Format, rep: nat): int
    requires f.Valid()
  {
    if Negative(f, rep) then 0 - Floor(f, rep) else Floor(f, rep)
  }

  lemma {:induction false} WidthHalves()
    ensures Pow2(WIDTH) == 2 * Pow2(WIDTH - 1)
    ensures MIN == 0 - Pow2(WIDTH - 1) && MAX == Pow2(WIDTH - 1) - 1
  {
    hide Pow2;
    Pow2Add(1, WIDTH - 1);
    assert Pow2(1) == 2 by {
      Pow2One();
    }
  }

  lemma {:induction false} Pow2One()
    ensures Pow2(1) == 2
  {
    assert Pow2(0) == 1;
  }

  lemma {:induction false} WrapNear(x: int)
    ensures MIN <= x <= MAX ==> Wrap(x) == x
    ensures MAX < x < Pow2(WIDTH) ==> Wrap(x) == x - Pow2(WIDTH)
    ensures 0 - Pow2(WIDTH) < x < MIN ==> Wrap(x) == x + Pow2(WIDTH)
  {
    hide Pow2;
    WidthHalves();
    if 0 - Pow2(WIDTH) <= x < Pow2(WIDTH) {
      ModNear(x, Pow2(WIDTH));
    }
  }

  /** Negating a value that was already wrapped is wrapping the negated value. */
  lemma {:induction false} WrapOfWrapped(x: nat, negative: bool)
    requires x < Pow2(WIDTH)
    ensures var sign := if negative then -1 else 1;
            Wrap(sign * Wrap(x)) == Wrap(if negative then 0 - x else x)
  {
    hide Pow2, Wrap;
    WidthHalves();
    WrapNear(x);
    WrapNear(if negative then 0 - x else x);
    WrapNear(if negative then 0 - Wrap(x) else Wrap(x));
  }

  /** Below 2^128 the signed conversion keeps the low 128 bits of the truncated number. */
  lemma {:induction false} SignedWraps(f: Format, rep: nat)
    requires f.Valid()
    ensures Break(f, rep).exponent < WIDTH ==> FixSigned(f, rep) == Wrap(Truncated(f, rep))
  {
    hide Pow2, Break, Shift, High, Floor, Wrap;
    WidthHalves();
    BreakReads(f, rep);
    FloorByShifting(f, rep);
    var e := Break(f, rep).exponent;
    if e < 0 {
      WrapNear(0);
    } else if e < f.sig {
      PowerOrder(e, WIDTH - 1);
      WrapNear(Truncated(f, rep));
    } else if e < WIDTH {
      PowerOrder(e, WIDTH);
      WrapOfWrapped(Floor(f, rep), Negative(f, rep));
    }
  }

  /** The one exponent the signed conversion gets wrong: numbers of at least 2^127 that are not -2^127. */
  predicate Overlooked(f: Format, rep: nat) {
    var p := Unsigned(f, rep);
    High(p, f.sig) == f.Bias() + 127 && !(Negative(f, rep) && Low(p, f.sig) == 0)
  }

  /** The signed conversion truncates and clamps, except on the overlooked numbers. */
  lemma {:induction false} SignedTruncates(f: Format, rep: nat)
    requires f.Valid()
    ensures FixSigned(f, rep) == Clamp(Truncated(f, rep), MIN, MAX) <==> !Overlooked(f, rep)
  {
    hide Pow2, Break, Shift, High, Floor, Wrap, FixSigned;
    WidthHalves();
    BreakReads(f, rep);
    FloorByShifting(f, rep);
    var p := Break(f, rep);
    var e := p.exponent;
    PowerOrder(e, WIDTH - 1);
    if e < WIDTH {
      SignedWraps(f, rep);
      PowerOrder(e, WIDTH);
      WrapNear(Truncated(f, rep));
      if e == WIDTH - 1 {
        TopExponent(f.sig, p.significand);
      }
    } else {
      SignedSaturates(f, rep);
      PowerOrder(e, WIDTH);
    }
  }

  lemma {:induction false} SignedSaturates(f: Format, rep: nat)
    ensures Break(f, rep).exponent >= WIDTH
            ==> FixSigned(f, rep) == if Break(f, rep).negative then MIN else MAX
  {
    hide Pow2, Break;
  }

  lemma {:induction false} TopExponent(sig: nat, s: nat)
    requires sig < WIDTH && s >= Pow2(sig)
    ensures Shift(s, WIDTH - 1 - sig) == Pow2(WIDTH - 1) <==> s == Pow2(sig)
  {
    hide Pow2;
    var h := Pow2(WIDTH - 1 - sig);
    Pow2Add(sig, WIDTH - 1 - sig);
    if s > Pow2(sig) {
      MulOrder(Pow2(sig), s, h);
    }
  }

  /** 2^127 itself comes out as the most negative integer. */
  lemma {:induction false} TopComesOutNegative(f: Format)
    requires f.Valid()
    ensures FixSigned(f, (f.Bias() + 127) * Pow2(f.sig)) == MIN
  {
    hide Pow2, High, Low, Break, Shift, Floor, Wrap, FixSigned, Format.Bias;
    var u, e := Pow2(f.sig), f.Bias() + 127;
    var rep := e * u;
    FieldsFit(f, e);
    HighLowUnique(rep, f.sig, e, 0);
    BreakReads(f, rep);
    FloorByShifting(f, rep);
    TopExponent(f.sig, u);
    SignedWraps(f, rep);
    WidthHalves();
    WrapNear(Truncated(f, rep));
  }

  /** A pattern below the sign bit is all magnitude. */
  lemma {:induction false} FieldsFit(f: Format, e: nat)
    requires f.Valid() && e <= f.Bias() + 127
    ensures var rep := e * Pow2(f.sig); Unsigned(f, rep) == rep && !Negative(f, rep)
  {
    hide Pow2, High, Low;
    var u, v := Pow2(f.sig), Pow2(f.exponentBits);
    BiasBounds(f);
    assert e < v;
    Pow2Add(f.exponentBits, f.sig);
    MulOrder(e, v, u);
    Below(e * u, f.sig + f.exponentBits);
  }
}
