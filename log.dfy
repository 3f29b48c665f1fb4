/** `log256_ps`: the natural logarithm of eight lanes.  The bit stages are
    modelled exactly: the invalid-lane mask, the clamp to the smallest normal
    number, the split of a lane into its unbiased exponent and a mantissa in
    [0.5, 1), the branch-free `x < SQRTHF` adjustment, and the OR that forces
    invalid lanes to NaN.  The polynomial between them is the build's rounded
    arithmetic `fp`, applied in the source's order. */
module Log {
  import opened Binary32
  import opened Simd
  import opened FloatArith
  import opened Shims
  import opened Constants

  /** Lanes the kernel declares invalid: `x <= 0`, that is the two zeros and
      every negative number; a NaN is not invalid. */
  predicate NotPositive(b: Lane) {
    IsZero(b) || (Sign(b) == 1 && !IsNaN(b))
  }

  /** `_mm256_cmp_ps(x, 0, _CMP_LE_OS)` */
  function InvalidMask(x: Vec): (m: Vec)
    ensures forall i :: 0 <= i < 8 ==> m[i] == MaskOf(NotPositive(x[i]))
  {
    InvalidLanes(x);
    CmpPs(x, Set1(PosZero), LeOs)
  }

  lemma InvalidLanes(x: Vec)
    ensures forall i :: 0 <= i < 8 ==> Le(x[i], Set1(PosZero)[i]) == NotPositive(x[i])
  {
    forall i | 0 <= i < 8
      ensures Le(x[i], Set1(PosZero)[i]) == NotPositive(x[i])
    {
      LeZero(x[i]);
    }
  }

  /** `_mm256_max_ps(x, min_norm_pos)`: every lane becomes a positive number
      with a nonzero exponent field (a normal number or +infinity); a lane
      above `min_norm_pos` is kept, any other lane, NaN included, becomes
      `min_norm_pos`. */
  function ClampToNormal(x: Vec): (r: Vec)
    ensures forall i :: 0 <= i < 8 ==> !IsNaN(r[i]) && Sign(r[i]) == 0 && Exponent(r[i]) >= 1
    ensures forall i :: 0 <= i < 8 ==> r[i] == (if Gt(x[i], MinNormPos) then x[i] else MinNormPos)
  {
    var r := MaxPs(x, Set1(MinNormPos));
    ClampedLanes(x, r);
    r
  }

  lemma ClampedLanes(x: Vec, r: seq<Lane>)
    requires |r| == 8
    requires forall i :: 0 <= i < 8 ==> r[i] == Max(x[i], Set1(MinNormPos)[i])
    ensures forall i :: 0 <= i < 8 ==> !IsNaN(r[i]) && Sign(r[i]) == 0 && Exponent(r[i]) >= 1
  {
    MinNormPosIsSmallestNormal();
    forall i | 0 <= i < 8
      ensures !IsNaN(r[i]) && Sign(r[i]) == 0 && Exponent(r[i]) >= 1
    {
      NotBelowMinNorm(r[i]);
    }
  }

  /** A non-NaN lane not below `min_norm_pos` is positive with exponent at least 1. */
  lemma NotBelowMinNorm(b: Lane)
    requires !IsNaN(b) && !Lt(b, MinNormPos)
    ensures Sign(b) == 0 && Exponent(b) >= 1
  {
    MinNormPosKey();
    KeyAboveMinNormSign(b);
    KeyAboveMinNormExponent(b);
  }

  lemma MinNormPosKey()
    ensures !IsNaN(MinNormPos) && OrderKey(MinNormPos) == 0x8080_0000
  {
  }

  lemma KeyAboveMinNormSign(b: Lane)
    ensures 0x8080_0000 <= OrderKey(b) ==> Sign(b) == 0
  {
  }

  lemma KeyAboveMinNormExponent(b: Lane)
    ensures 0x8080_0000 <= OrderKey(b) ==> Exponent(b) >= 1
  {
  }

  /** `(bits >> 23) - 0x7f` (lines 256 and 263): for a lane with a clear sign
      bit, the exponent field with its bias removed, as a signed integer. */
  function UnbiasedExponent(isa: Isa, x: Vec): (e: Vec)
    ensures forall i :: 0 <= i < 8 && Sign(x[i]) == 0 ==> Int32(e[i]) == Exponent(x[i]) as int - 127
  {
    var e := CompSubEpi32(isa, CompSrliEpi32(isa, x, 23), Set1(Pi32Bias));
    UnbiasedLanes(x, e);
    e
  }

  lemma UnbiasedLanes(x: Vec, e: seq<Lane>)
    requires |e| == 8
    requires forall i :: 0 <= i < 8 ==> e[i] == SubLane(ShiftRightLane(x[i], 23), Pi32Bias)
    ensures forall i :: 0 <= i < 8 && Sign(x[i]) == 0 ==> Int32(e[i]) == Exponent(x[i]) as int - 127
  {
    forall i | 0 <= i < 8 && Sign(x[i]) == 0
      ensures Int32(e[i]) == Exponent(x[i]) as int - 127
    {
      ShiftOutFraction(x[i]);
      Unbias(Exponent(x[i]));
    }
  }

  /** Shifting a positive lane right by 23 leaves exactly its exponent field. */
  lemma ShiftOutFraction(b: Lane)
    requires Sign(b) == 0
    ensures SubLane(ShiftRightLane(b, 23), Pi32Bias) == Exponent(b) - 0x7F
  {
    ShiftRight23(b);
    ShiftedIsExponent(b);
  }

  lemma ShiftRight23(b: Lane)
    ensures ShiftRightLane(b, 23) == b >> 23
  {
    var c: int := 23;
    assert 23 % 256 == c;
    assert ShiftRightLane(b, 23) == b >> c;
  }

  lemma ShiftedIsExponent(b: Lane)
    requires Sign(b) == 0
    ensures b >> 23 == Exponent(b)
  {
  }

  /** `(x & inv_mant_mask) | 0.5f` (lines 259-260): the exponent field becomes
      126, the field of 0.5, and the sign and trailing significand are kept. */
  function Mantissa(x: Vec): (m: Vec)
    ensures forall i :: 0 <= i < 8 ==>
      Sign(m[i]) == Sign(x[i]) && Exponent(m[i]) == 126 && Fraction(m[i]) == Fraction(x[i])
  {
    var m := Or(And(x, Set1(InvMantMask)), Set1(PointFive));
    MantissaLanes(x, m);
    m
  }

  lemma MantissaLanes(x: Vec, m: seq<Lane>)
    requires |m| == 8
    requires forall i :: 0 <= i < 8 ==> m[i] == OrLane(AndLane(x[i], InvMantMask), PointFive)
    ensures forall i :: 0 <= i < 8 ==>
      Sign(m[i]) == Sign(x[i]) && Exponent(m[i]) == 126 && Fraction(m[i]) == Fraction(x[i])
  {
    forall i | 0 <= i < 8
      ensures Sign(m[i]) == Sign(x[i]) && Exponent(m[i]) == 126 && Fraction(m[i]) == Fraction(x[i])
    {
      MantissaSign(x[i]);
      MantissaExponent(x[i]);
      MantissaFraction(x[i]);
    }
  }

  lemma MantissaSign(b: Lane)
    ensures Sign(OrLane(AndLane(b, InvMantMask), PointFive)) == Sign(b)
  {
  }

  lemma MantissaExponent(b: Lane)
    ensures Exponent(OrLane(AndLane(b, InvMantMask), PointFive)) == 126
  {
  }

  lemma MantissaFraction(b: Lane)
    ensures Fraction(OrLane(AndLane(b, InvMantMask), PointFive)) == Fraction(b)
  {
  }

  /** The decomposition the kernel relies on: a positive normal lane is its
      mantissa lane, which lies in [0.5, 1), times 2 to the power of the
      unbiased exponent plus one (the `e + 1.0` of line 266). */
  lemma SplitValue(b: Lane, m: Lane, e: Lane)
    requires Sign(b) == 0 && IsNormal(b)
    requires Sign(m) == 0 && Exponent(m) == 126 && Fraction(m) == Fraction(b)
    requires Int32(e) == Exponent(b) as int - 127
    ensures IsFinite(m) && 0.5 <= Value(m) < 1.0
    ensures Value(b) == Times2To(Int32(e) + 1, Value(m))
  {
    ValueFields(b);
    ValueFields(m);
    SplitFieldsAsInts(b, m);
    FractionBound(Fraction(b));
    SplitFields(Int32(e), Fraction(b) as int);
  }

  lemma SplitFieldsAsInts(b: Lane, m: Lane)
    requires Sign(b) == 0 && IsNormal(b)
    requires Sign(m) == 0 && Exponent(m) == 126 && Fraction(m) == Fraction(b)
    ensures Sign(b) as int == 0 && Exponent(b) as int != 0
    ensures Sign(m) as int == 0 && Exponent(m) as int == 126 && Fraction(m) as int == Fraction(b) as int
  {
  }

  /** The same split on the fields as integers: 1.f * 2^n == 0.1f * 2^(n+1). */
  lemma SplitFields(n: int, f: int)
    requires n + 127 != 0 && 0 <= f < 8388608
    ensures 0.5 <= ValueOfFields(0, 126, f) < 1.0
    ensures ValueOfFields(0, n + 127, f) == Times2To(n + 1, ValueOfFields(0, 126, f))
  {
    var w := 1.0 + FractionValue(f);
    assert ValueOfFields(0, 126, f) == Times2To(-1, w) == w / 2.0;
    assert ValueOfFields(0, n + 127, f) == Times2To(n, w);
    ShiftFactor(n, w / 2.0);
  }

  /** On the clamped input, every normal lane splits into the integer exponent
      in [-126, 127] and the mantissa lane the kernel goes on with. */
  lemma ClampedSplit(isa: Isa, x: Vec, i: int)
    requires 0 <= i < 8 && IsNormal(ClampToNormal(x)[i])
    ensures var c := ClampToNormal(x);
      var n := Int32(UnbiasedExponent(isa, c)[i]);
      var m := Mantissa(c)[i];
      -126 <= n <= 127 && IsFinite(c[i]) && IsFinite(m) && 0.5 <= Value(m) < 1.0 &&
      Value(c[i]) == Times2To(n + 1, Value(m))
  {
    var c := ClampToNormal(x);
    NormalExponentRange(c[i]);
    SplitValue(c[i], Mantissa(c)[i], UnbiasedExponent(isa, c)[i]);
  }

  lemma NormalExponentRange(b: Lane)
    requires IsNormal(b)
    ensures 1 <= Exponent(b) as int <= 254
  {
    ExponentWidth(Exponent(b));
  }

  lemma ExponentWidth(e: bv32)
    requires 1 <= e <= 254
    ensures 1 <= (e as bv8) as int <= 254 && (e as bv8) as int == e as int
  {
  }

  /** The two arms of Cephes's `if (x < SQRTHF)`, in the kernel's own order of
      operations: below sqrt(1/2) the exponent drops by one and the mantissa
      minus 1 gets the mantissa added once more; otherwise only +0 is added to
      it and +0 taken from the exponent. */
  function SqrtHalfBranch(fp: Fp, m: Lane, e: Lane): (Lane, Lane) {
    if Lt(m, SqrtHalf) then (fp.add(fp.sub(m, One), m), fp.sub(e, One))
    else (fp.add(fp.sub(m, One), PosZero), fp.sub(e, PosZero))
  }

  /** Lines 275-279: the branch-free select picks, lane by lane, the arm of
      `if (x < SQRTHF)` that the lane's mantissa calls for; the adjusted
      mantissa comes first, the adjusted exponent second. */
  function SqrtHalfAdjust(fp: Fp, m: Vec, e: Vec): (r: (Vec, Vec))
    ensures forall i :: 0 <= i < 8 ==> (r.0[i], r.1[i]) == SqrtHalfBranch(fp, m[i], e[i])
  {
    var one := Set1(One);
    var mask := CmpPs(m, Set1(SqrtHalf), LtOs);
    var tmp := And(m, mask);
    var x := SubPs(fp, m, one);
    var e' := SubPs(fp, e, And(one, mask));
    var x' := AddPs(fp, x, tmp);
    AdjustLanes(fp, m, e, mask, tmp, And(one, mask));
    (x', e')
  }

  lemma AdjustLanes(fp: Fp, m: Vec, e: Vec, mask: seq<Lane>, tmp: seq<Lane>, dec: seq<Lane>)
    requires |mask| == |tmp| == |dec| == 8
    requires forall i :: 0 <= i < 8 ==> mask[i] == MaskOf(Holds(LtOs, m[i], SqrtHalf))
    requires forall i :: 0 <= i < 8 ==> tmp[i] == AndLane(m[i], mask[i])
    requires forall i :: 0 <= i < 8 ==> dec[i] == AndLane(One, mask[i])
    ensures forall i :: 0 <= i < 8 ==>
      (fp.add(fp.sub(m[i], One), tmp[i]), fp.sub(e[i], dec[i])) == SqrtHalfBranch(fp, m[i], e[i])
  {
    forall i | 0 <= i < 8
      ensures (fp.add(fp.sub(m[i], One), tmp[i]), fp.sub(e[i], dec[i])) == SqrtHalfBranch(fp, m[i], e[i])
    {
      AndWithMask(m[i], Lt(m[i], SqrtHalf));
      AndWithMask(One, Lt(m[i], SqrtHalf));
    }
  }

  /** Lines 264-302 on a clamped input: the exponent converted and incremented,
      the adjustment, and the polynomial recombination. */
  function LogOfNormal(isa: Isa, fp: Fp, x: Vec): (r: Vec)
  {
    var one := Set1(One);
    var m := Mantissa(x);
    var e := AddPs(fp, CvtEpi32Ps(fp, UnbiasedExponent(isa, x)), one);
    var (x1, e1) := SqrtHalfAdjust(fp, m, e);
    var z := MulPs(fp, x1, x1);
    var y := Polynomial(fp, x1);
    var y1 := MulPs(fp, MulPs(fp, y, x1), z);
    var y2 := FmaddPs(fp, e1, Set1(LogQ1), y1);
    var y3 := FnmaddPs(fp, z, Set1(PointFive), y2);
    var x2 := AddPs(fp, x1, y3);
    FmaddPs(fp, e1, Set1(LogQ2), x2)
  }

  /** The Horner evaluation of lines 283-291. */
  function Polynomial(fp: Fp, x: Vec): Vec {
    var y := FmaddPs(fp, Set1(LogP0), x, Set1(LogP1));
    var y := FmaddPs(fp, y, x, Set1(LogP2));
    var y := FmaddPs(fp, y, x, Set1(LogP3));
    var y := FmaddPs(fp, y, x, Set1(LogP4));
    var y := FmaddPs(fp, y, x, Set1(LogP5));
    var y := FmaddPs(fp, y, x, Set1(LogP6));
    var y := FmaddPs(fp, y, x, Set1(LogP7));
    FmaddPs(fp, y, x, Set1(LogP8))
  }

  /** `log256_ps`: every lane that is `<= 0` is the all-ones NaN; every other
      lane is the logarithm computed from the clamped input. */
  function Log(isa: Isa, fp: Fp, x: Vec): (r: Vec)
    ensures forall i :: 0 <= i < 8 && NotPositive(x[i]) ==> r[i] == AllOnes && IsNaN(r[i])
    ensures forall i :: 0 <= i < 8 && !NotPositive(x[i]) ==> r[i] == LogOfNormal(isa, fp, ClampToNormal(x))[i]
  {
    var invalid := InvalidMask(x);
    var y := LogOfNormal(isa, fp, ClampToNormal(x));
    var r := Or(y, invalid);
    ForceNaN(x, y, invalid, r);
    r
  }

  lemma ForceNaN(x: Vec, y: Vec, invalid: Vec, r: seq<Lane>)
    requires |r| == 8
    requires forall i :: 0 <= i < 8 ==> invalid[i] == MaskOf(NotPositive(x[i]))
    requires forall i :: 0 <= i < 8 ==> r[i] == OrLane(y[i], invalid[i])
    ensures forall i :: 0 <= i < 8 && NotPositive(x[i]) ==> r[i] == AllOnes && IsNaN(r[i])
    ensures forall i :: 0 <= i < 8 && !NotPositive(x[i]) ==> r[i] == y[i]
  {
    AllOnesIsNaN();
    forall i | 0 <= i < 8
      ensures r[i] == (if NotPositive(x[i]) then AllOnes else y[i])
    {
      OrWithMask(y[i], NotPositive(x[i]));
    }
  }

  /** The kernel does not propagate NaN: a NaN lane is computed exactly as the
      smallest normal number would be, in every lane. */
  lemma LogOfNaN(isa: Isa, fp: Fp, x: Vec, y: Vec)
    requires forall i :: 0 <= i < 8 ==> y[i] == (if IsNaN(x[i]) then MinNormPos else x[i])
    ensures Log(isa, fp, x) == Log(isa, fp, y)
  {
    MinNormPosIsSmallestNormal();
    LtIrreflexive(MinNormPos);
    assert ClampToNormal(x) == ClampToNormal(y);
    assert InvalidMask(x) == InvalidMask(y);
  }

  /** The AVX2 and SSE2 builds compute the same logarithm. */
  lemma BuildsAgree(fp: Fp, x: Vec)
    ensures Log(Avx2, fp, x) == Log(Sse2, fp, x)
  {
  }

  // ---------------------------------------------------------------------------
  // A NaN argument.

  /** As written, the guard lets a NaN through: the quiet NaN is not `<= 0`,
      so its lanes of the invalid mask are 0, the clamp makes them
      `min_norm_pos`, and the kernel returns log(2^-126) for them. */
  lemma LogOfQuietNaN(isa: Isa, fp: Fp)
    ensures InvalidMask(Set1(QuietNaN)) == Set1(0)
    ensures ClampToNormal(Set1(QuietNaN)) == Set1(MinNormPos)
    ensures Log(isa, fp, Set1(QuietNaN)) == Log(isa, fp, Set1(MinNormPos))
  {
    AllOnesIsNaN();
    MinNormPosIsSmallestNormal();
    LtIrreflexive(MinNormPos);
    LogOfNaN(isa, fp, Set1(QuietNaN), Set1(MinNormPos));
    var m := InvalidMask(Set1(QuietNaN));
    assert forall i :: 0 <= i < 8 ==> m[i] == Set1(0)[i];
    var c := ClampToNormal(Set1(QuietNaN));
    assert forall i :: 0 <= i < 8 ==> c[i] == Set1(MinNormPos)[i];
  }

  /** The evidently intended `log256_ps`: the unordered self-compare
      `cmp(x, x, _CMP_UNORD_Q)` ORed in beside the invalid mask, so that a NaN
      lane, like a lane `<= 0`, comes out as the all-ones NaN, and every other
      lane is the kernel's. */
  function LogPropagatingNaN(isa: Isa, fp: Fp, x: Vec): (r: Vec)
    ensures forall i :: 0 <= i < 8 && (NotPositive(x[i]) || IsNaN(x[i])) ==> r[i] == AllOnes && IsNaN(r[i])
    ensures forall i :: 0 <= i < 8 && !IsNaN(x[i]) ==> r[i] == Log(isa, fp, x)[i]
  {
    var y := Log(isa, fp, x);
    var r := Or(y, CmpPs(x, x, UnordQ));
    OrUnordered(x, y, r);
    r
  }
}
