/** The constant tables of the kernels, as the bits of one lane (every table
    repeats one value in all of its lanes).  Float constants are written as the
    binary32 encodings of the decimal literals in the source, rounded to nearest. */
module Constants {
  import opened Binary32

  // Integer and mask tables (`_pi32avx_*`, `_pi32_256_*`, `_ps256_*` of int type).
  const Pi32Zero: Lane := 0
  const Pi32One: Lane := 1
  const Pi32Inv1: Lane := 0xFFFF_FFFE
  const Pi32Two: Lane := 2
  const Pi32Four: Lane := 4
  const Pi32Bias: Lane := 0x7F
  const MinNormPos: Lane := 0x0080_0000
  const MantMask: Lane := 0x7F80_0000
  const InvMantMask: Lane := 0x807F_FFFF
  const SignMask: Lane := 0x8000_0000
  const InvSignMask: Lane := 0x7FFF_FFFF

  // Float tables shared by several kernels.
  const One: Lane := 0x3F80_0000        // 1.0f
  const PointFive: Lane := 0x3F00_0000  // 0.5f

  // log256_ps
  const SqrtHalf: Lane := 0x3F35_04F3   // 0.707106781186547524f
  const LogP0: Lane := 0x3D90_21BB
  const LogP1: Lane := 0xBDEB_D1B8
  const LogP2: Lane := 0x3DEF_251A
  const LogP3: Lane := 0xBDFE_5D4F
  const LogP4: Lane := 0x3E11_E9BF
  const LogP5: Lane := 0xBE2A_AE50
  const LogP6: Lane := 0x3E4C_CEAC
  const LogP7: Lane := 0xBE7F_FFFC
  const LogP8: Lane := 0x3EAA_AAAA
  const LogQ1: Lane := 0xB95E_8083      // -2.12194440e-4f
  const LogQ2: Lane := 0x3F31_8000      // 0.693359375f

  // exp256_ps
  const ExpHi: Lane := 0x42B0_C0A5      // 88.3762626647949f
  const ExpLo: Lane := 0xC2B0_C0A5      // -88.3762626647949f
  const Log2e: Lane := 0x3FB8_AA3B      // 1.44269504088896341f
  const ExpC1: Lane := 0x3F31_8000
  const ExpC2: Lane := 0xB95E_8083
  const ExpP0: Lane := 0x3950_6967
  const ExpP1: Lane := 0x3AB7_43CE
  const ExpP2: Lane := 0x3C08_8908
  const ExpP3: Lane := 0x3D2A_A9C1
  const ExpP4: Lane := 0x3E2A_AAAA
  const ExpP5: Lane := 0x3F00_0000

  // sin256_ps, cos256_ps, sincos256_ps, tan256_ps
  const MinusDp1: Lane := 0xBF49_0000   // -0.78515625f
  const MinusDp2: Lane := 0xB97D_A000
  const MinusDp3: Lane := 0xB322_2169
  const SinCofP0: Lane := 0xB94C_A1F9
  const SinCofP1: Lane := 0x3C08_839E
  const SinCofP2: Lane := 0xBE2A_AAA3
  const CosCofP0: Lane := 0x37CC_F5CE
  const CosCofP1: Lane := 0xBAB6_061A
  const CosCofP2: Lane := 0x3D2A_AAA5
  const FourOverPi: Lane := 0x3FA2_F983 // 1.27323954473516f
  const TanEps: Lane := 0x322B_CC77     // 1E-8f

  /** The masks are the complements they are named after, and the sign mask is
      exactly the sign bit. */
  lemma MaskTable()
    ensures InvMantMask == !MantMask && InvSignMask == !SignMask
    ensures Pi32Inv1 == !Pi32One && Int32(Pi32Inv1) == -2
    ensures SignMask == SignBit
    ensures MantMask == Encode(0, 255, 0)
  {
    assert Encode(0, 255, 0) == 0x7F80_0000;
  }

  /** `min_norm_pos` is the smallest positive normal number, 2^-126. */
  lemma MinNormPosIsSmallestNormal()
    ensures Sign(MinNormPos) == 0 && Exponent(MinNormPos) == 1 && Fraction(MinNormPos) == 0
    ensures Value(MinNormPos) == Times2To(-126, 1.0)
  {
    assert Sign(MinNormPos) == 0 && Exponent(MinNormPos) == 1 && Fraction(MinNormPos) == 0;
  }

  /** The encodings of 1.0 and 0.5. */
  lemma OneAndHalf()
    ensures Value(One) == 1.0 && Value(PointFive) == 0.5
    ensures Sign(PointFive) == 0 && Exponent(PointFive) == 126 && Fraction(PointFive) == 0
  {
    assert Sign(One) == 0 && Exponent(One) == 127 && Fraction(One) == 0;
    assert Sign(PointFive) == 0 && Exponent(PointFive) == 126 && Fraction(PointFive) == 0;
    assert Times2To(-1, 1.0) == 0.5;
  }

  /** The clamp bounds of exp are opposite numbers, the lower below the upper. */
  lemma ExpBounds()
    ensures ExpLo == FlipSign(ExpHi, SignBit)
    ensures Lt(ExpLo, ExpHi) && !IsNaN(ExpLo) && !IsNaN(ExpHi)
  {
    assert OrderKey(ExpLo) < OrderKey(ExpHi);
  }
}
