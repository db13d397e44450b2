/** The three formats in numbers: their biases, and the patterns of one. */
module FloatNumbers {
  import opened Bits
  import opened FloatFormats
  import opened FloatToInt
  import opened TiDf

  /** In every format the pattern of one converts to one. */
  lemma {:induction false} OneIsOne(f: Format)
    requires f.Valid()
    ensures FixUnsigned(f, f.Bias() * Pow2(f.sig)) == 1 == FixSigned(f, f.Bias() * Pow2(f.sig))
  {
    hide Pow2, High, Low, Break, Shift, Floor, FixSigned, FixUnsigned, Format.Bias;
    var rep := f.Bias() * Pow2(f.sig);
    BiasBounds(f);
    FieldsFit(f, f.Bias());
    HighLowUnique(rep, f.sig, f.Bias(), 0);
    BreakReads(f, rep);
    FloorByShifting(f, rep);
    SmallPowers();
    UnsignedTruncates(f, rep);
    SignedTruncates(f, rep);
    WidthHalves();
    PowerOrder(1, WIDTH - 1);
  }

  lemma {:induction false} Powers()
    ensures Pow2(8) == 0x100 && Pow2(11) == 0x800 && Pow2(15) == 0x8000 && Pow2(23) == 0x80_0000
    ensures Pow2(52) == 0x10_0000_0000_0000 && Pow2(112) == 0x1_0000_0000_0000_0000_0000_0000_0000
  {
    hide Pow2;
    SmallPowers();
    Pow2Add(6, 2);
    Pow2Add(8, 2);
    Pow2Add(10, 1);
    Pow2Add(8, 6);
    Pow2Add(14, 1);
    Pow2Add(15, 8);
    Pow2Add(15, 11);
    Pow2Add(26, 26);
    Pow2Add(52, 52);
    Pow2Add(104, 8);
  }

  lemma {:induction false} Biases()
    ensures Single.Bias() == 127 && Double.Bias() == 1023 && Quad.Bias() == 16383
  {
    hide Pow2;
    Powers();
  }

  /** The patterns of one, in single, double and quadruple precision. */
  lemma {:induction false} Ones()
    ensures FixUnsigned(Single, 0x3F80_0000) == 1 == FixSigned(Single, 0x3F80_0000)
    ensures FixUnsigned(Double, 0x3FF0_0000_0000_0000) == 1 == FixSigned(Double, 0x3FF0_0000_0000_0000)
    ensures FixUnsigned(Quad, 0x3FFF_0000_0000_0000_0000_0000_0000_0000) == 1
    ensures FixSigned(Quad, 0x3FFF_0000_0000_0000_0000_0000_0000_0000) == 1
  {
    hide Pow2, FixUnsigned, FixSigned, Format.Bias;
    Powers();
    Biases();
    OneIsOne(Single);
    OneIsOne(Double);
    OneIsOne(Quad);
  }
}
