/**
  IEEE 754 bit patterns and the numbers they stand for. A pattern without its sign bit is an
  exponent field followed by `sig` significand bits; its magnitude is an integer multiple of the
  smallest subnormal number, so magnitudes are given as integers in that unit.
*/
module FloatFormats {
  import opened Bits

  datatype Format = Format(sig: nat, exponentBits: nat) {
    predicate Valid() {
      1 <= sig <= 112 && exponentBits >= 8
    }

    /** Half of the largest exponent field, rounded down. */
    function Bias(): nat {
      (Pow2(exponentBits) - 1) / 2
    }

    /** The first pattern, in order of magnitude, that is not a finite number. */
    function Infinity(): nat {
      (Pow2(exponentBits) - 1) * Pow2(sig)
    }

    /** The magnitude of a pattern, as a multiple of the smallest subnormal. */
    function Magnitude(p: nat): nat {
      var e, m := High(p, sig), Low(p, sig);
      if e == 0 then m else Shift(Pow2(sig) + m, e - 1)
    }

    /** The number one in the same unit. */
    function One(): nat
      requires Valid()
    {
      Pow2(Bias() + sig - 1)
    }

    /** How far the next pattern is. */
    function Gap(p: nat): nat {
      var e := High(p, sig);
      if e == 0 then 1 else Pow2(e - 1)
    }
  }

  const Single := Format(23, 8)
  const Double := Format(52, 11)
  const Quad := Format(112, 15)

  function Distance(x: int, y: int): nat {
    if x <= y then y - x else x - y
  }

  /** Pattern p is the finite number nearest to `exact`, the even one of two equally near. */
  ghost predicate IsNearest(f: Format, exact: nat, p: nat) {
    && p < f.Infinity()
    && forall q: nat | q < f.Infinity() ::
         && Distance(exact, f.Magnitude(p)) <= Distance(exact, f.Magnitude(q))
         && (Distance(exact, f.Magnitude(p)) == Distance(exact, f.Magnitude(q)) ==> q == p || p % 2 == 0)
  }

  lemma {:induction false} MagnitudeAt(f: Format, e: nat, m: nat)
    requires m < Pow2(f.sig)
    ensures f.Magnitude(e * Pow2(f.sig) + m) == if e == 0 then m else (Pow2(f.sig) + m) * Pow2(e - 1)
  {
    hide Pow2, High, Low;
    HighLowUnique(e * Pow2(f.sig) + m, f.sig, e, m);
  }

  /** Counting patterns up walks through the magnitudes upwards, without holes larger than the gap. */
  lemma {:induction false} MagnitudeStep(f: Format, p: nat)
    ensures f.Magnitude(p + 1) == f.Magnitude(p) + f.Gap(p)
  {
    hide Pow2, High, Low, Format.Magnitude;
    var u := Pow2(f.sig);
    var e, m := High(p, f.sig), Low(p, f.sig);
    HighLow(p, f.sig);
    MagnitudeAt(f, e, m);
    if m + 1 < u {
      MagnitudeAt(f, e, m + 1);
      if e > 0 {
        AddOne(u + m, Pow2(e - 1));
      }
    } else {
      AddOne(e, u);
      assert p + 1 == (e + 1) * u + 0;
      MagnitudeAt(f, e + 1, 0);
      CarryMagnitude(u, e);
    }
  }

  lemma {:induction false} AddOne(x: nat, d: nat)
    ensures (x + 1) * d == x * d + d
  {
  }

  lemma {:induction false} CarryMagnitude(u: nat, e: nat)
    requires u > 0
    ensures u * Pow2(e) == if e == 0 then u else (u + (u - 1)) * Pow2(e - 1) + Pow2(e - 1)
  {
    if e > 0 {
      var h := Pow2(e - 1);
      assert Pow2(e) == 2 * h;
      hide Pow2;
      AddOne(u + (u - 1), h);
      assert u * (2 * h) == (u + u) * h;
    }
  }

  lemma {:induction false} MagnitudeIncreases(f: Format, p: nat, q: nat)
    requires p < q
    ensures f.Magnitude(p) + f.Gap(p) <= f.Magnitude(q)
    decreases q
  {
    hide Pow2;
    MagnitudeStep(f, q - 1);
    if p < q - 1 {
      MagnitudeIncreases(f, p, q - 1);
    }
  }

  /** Between two neighbours, the nearer one (the even one of a tie) is nearest among all numbers. */
  lemma {:induction false} NearerNeighbourIsNearest(f: Format, exact: nat, p: nat, up: bool)
    requires p + 1 < f.Infinity()
    requires f.Magnitude(p) <= exact < f.Magnitude(p + 1)
    requires var lo, hi := exact - f.Magnitude(p), f.Magnitude(p + 1) - exact;
             up <==> lo > hi || (lo == hi && p % 2 == 1)
    ensures IsNearest(f, exact, p + Flag(up))
  {
    hide Pow2;
    hide Format.Magnitude, Format.Infinity, Format.Gap;
    forall q: nat | q < f.Infinity()
      ensures q < p ==> f.Magnitude(q) < f.Magnitude(p)
      ensures q > p + 1 ==> f.Magnitude(q) > f.Magnitude(p + 1)
    {
      if q < p {
        Increases(f, q, p);
      } else if q > p + 1 {
        Increases(f, p + 1, q);
      }
    }
  }

  lemma {:induction false} Increases(f: Format, p: nat, q: nat)
    requires p < q
    ensures f.Magnitude(p) < f.Magnitude(q)
  {
    MagnitudeIncreases(f, p, q);
  }
}
