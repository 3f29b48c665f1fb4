/** `exp256_ps`: the exponential of eight lanes.  Modelled exactly: the clamp
    of the input to [exp_lo, exp_hi], the floor correction mask, and the
    construction of the scale 2^n from the integer n by placing `n + 127` in
    the exponent field.  The reduction and the polynomial are the build's
    rounded arithmetic `fp`, applied in the source's order. */
module Exp {
  import opened Binary32
  import opened Simd
  import opened FloatArith
  import opened Shims
  import opened Constants

  // ---------------------------------------------------------------------------
  // The clamp (lines 327-328).

  /** The reference saturation: NaN and everything from `exp_hi` up give
      `exp_hi`, everything up to `exp_lo` gives `exp_lo`, the rest is kept. */
  function Saturate(b: Lane): Lane {
    if IsNaN(b) || !Lt(b, ExpHi) then ExpHi
    else if !Gt(b, ExpLo) then ExpLo
    else b
  }

  /** `max(min(x, exp_hi), exp_lo)` on one lane is the reference saturation,
      and its result lies in [exp_lo, exp_hi]. */
  lemma ClampLane(b: Lane)
    ensures Max(Min(b, ExpHi), ExpLo) == Saturate(b)
    ensures !IsNaN(Saturate(b)) && !Lt(Saturate(b), ExpLo) && !Lt(ExpHi, Saturate(b))
  {
    ExpBounds();
    LtIrreflexive(ExpHi);
    LtIrreflexive(ExpLo);
    LtAsymmetric(ExpLo, ExpHi);
    if !IsNaN(b) && Lt(b, ExpHi) && !Gt(b, ExpLo) {
      assert Min(b, ExpHi) == b;
    } else if !IsNaN(b) && Lt(b, ExpHi) {
      LtAsymmetric(b, ExpLo);
    }
  }

  /** Lines 327-328. */
  function ClampExp(x: Vec): (r: Vec)
    ensures forall i :: 0 <= i < 8 ==> r[i] == Saturate(x[i])
    ensures forall i :: 0 <= i < 8 ==> !IsNaN(r[i]) && !Lt(r[i], ExpLo) && !Lt(ExpHi, r[i])
  {
    var r := MaxPs(MinPs(x, Set1(ExpHi)), Set1(ExpLo));
    ClampLanes(x, r);
    r
  }

  lemma ClampLanes(x: Vec, r: seq<Lane>)
    requires |r| == 8
    requires forall i :: 0 <= i < 8 ==> r[i] == Max(Min(x[i], ExpHi), ExpLo)
    ensures forall i :: 0 <= i < 8 ==> r[i] == Saturate(x[i])
    ensures forall i :: 0 <= i < 8 ==> !IsNaN(r[i]) && !Lt(r[i], ExpLo) && !Lt(ExpHi, r[i])
  {
    forall i | 0 <= i < 8
      ensures r[i] == Saturate(x[i]) && !IsNaN(r[i]) && !Lt(r[i], ExpLo) && !Lt(ExpHi, r[i])
    {
      ClampLane(x[i]);
    }
  }

  // ---------------------------------------------------------------------------
  // The floor correction (lines 337-343).

  /** The scalar form: round down, and subtract one more when the rounded value
      compares greater than the input. */
  function CorrectedFloor(fp: Fp, v: Lane): Lane {
    var t := fp.floor(v);
    if Gt(t, v) then fp.sub(t, One) else fp.sub(t, PosZero)
  }

  /** The mask `tmp > fx` ANDed with 1.0 is 1.0 or +0 in every lane, so the
      subtraction is the scalar form lane by lane. */
  function FloorCorrected(fp: Fp, fx: Vec): (r: Vec)
    ensures forall i :: 0 <= i < 8 ==> r[i] == CorrectedFloor(fp, fx[i])
  {
    var tmp := FloorPs(fp, fx);
    var mask := And(CmpPs(tmp, fx, GtOs), Set1(One));
    CorrectionLanes(fp, fx, tmp, mask);
    SubPs(fp, tmp, mask)
  }

  lemma CorrectionLanes(fp: Fp, fx: Vec, tmp: seq<Lane>, mask: seq<Lane>)
    requires |tmp| == |mask| == 8
    requires forall i :: 0 <= i < 8 ==> tmp[i] == fp.floor(fx[i])
    requires forall i :: 0 <= i < 8 ==> mask[i] == AndLane(MaskOf(Holds(GtOs, tmp[i], fx[i])), One)
    ensures forall i :: 0 <= i < 8 ==> fp.sub(tmp[i], mask[i]) == CorrectedFloor(fp, fx[i])
  {
    forall i | 0 <= i < 8
      ensures fp.sub(tmp[i], mask[i]) == CorrectedFloor(fp, fx[i])
    {
      AndWithMask(One, Gt(tmp[i], fx[i]));
    }
  }

  /** `floor_ps` (line 337) already rounds down, so with an IEEE floor the
      mask is 0 in every lane and the correction inherited from the truncating
      conversion (lines 334-335, commented out) leaves the floor as it is. */
  lemma CorrectionIsInert(fp: Fp, fx: Vec)
    requires FloorRoundsDown(fp) && ExactSubtraction(fp)
    ensures forall i :: 0 <= i < 8 && !IsNaN(fx[i]) ==> FloorCorrected(fp, fx)[i] == fp.floor(fx[i])
  {
    forall i | 0 <= i < 8 && !IsNaN(fx[i])
      ensures CorrectedFloor(fp, fx[i]) == fp.floor(fx[i])
    {
      assert !IsNaN(fp.floor(fx[i])) && !Gt(fp.floor(fx[i]), fx[i]);
    }
  }

  // ---------------------------------------------------------------------------
  // The scale 2^n (lines 362-366).

  /** `(n + 0x7f) << 23`: when the biased value fits in the 8-bit exponent
      field, the lane is the encoding with sign 0, that exponent field and a
      zero trailing significand. */
  function PowerOfTwo(isa: Isa, n: Vec): (r: Vec)
    ensures forall i :: 0 <= i < 8 && n[i] + 0x7F <= 0xFF ==> r[i] == Encode(0, n[i] + 0x7F, 0)
  {
    var r := CompSlliEpi32(isa, CompAddEpi32(isa, n, Set1(Pi32Bias)), 23);
    ScaleLanes(n, r);
    r
  }

  lemma ScaleLanes(n: Vec, r: seq<Lane>)
    requires |r| == 8
    requires forall i :: 0 <= i < 8 ==> r[i] == ShiftLeftLane(AddLane(n[i], Pi32Bias), 23)
    ensures forall i :: 0 <= i < 8 && n[i] + 0x7F <= 0xFF ==> r[i] == Encode(0, n[i] + 0x7F, 0)
  {
    forall i | 0 <= i < 8 && n[i] + 0x7F <= 0xFF
      ensures r[i] == Encode(0, n[i] + 0x7F, 0)
    {
      IntoExponentField(AddLane(n[i], Pi32Bias));
    }
  }

  lemma IntoExponentField(e: Lane)
    requires e <= 0xFF
    ensures ShiftLeftLane(e, 23) == Encode(0, e, 0)
  {
    ShiftIsEncoding(e);
  }

  lemma ShiftIsEncoding(e: Lane)
    requires e <= 0xFF
    ensures e << 23 == (0 << 31) | (e << 23) | 0
  {
  }

  /** The scale for an integer n in [-127, 128]: sign 0, trailing significand
      0 and exponent field n + 127; for -126 <= n <= 127 it is the binary32
      number 2^n, for n = 128 it is +infinity and for n = -127 it is +0. */
  lemma ScaleMeaning(n: Lane)
    requires n + 0x7F <= 0xFF
    ensures var s := Encode(0, n + 0x7F, 0);
      -127 <= Int32(n) <= 128 &&
      Sign(s) == 0 && Fraction(s) == 0 && Exponent(s) as int == Int32(n) + 127 &&
      (Int32(n) == 128 <==> IsInf(s)) &&
      (Int32(n) == -127 <==> s == PosZero) &&
      (-126 <= Int32(n) <= 127 ==> IsNormal(s) && Value(s) == Times2To(Int32(n), 1.0))
  {
    var s := Encode(0, n + 0x7F, 0);
    BiasedFitsInByte(n);
    assert Exponent(s) == n + 0x7F;
    ZeroFieldsAreZero(s);
    if -126 <= Int32(n) <= 127 {
      PowerFieldsAsInts(s, n + 0x7F);
      ValueFields(s);
      PowerFields(Int32(n));
    }
  }

  lemma ZeroFieldsAreZero(s: Lane)
    requires Sign(s) == 0 && Fraction(s) == 0
    ensures s == PosZero <==> Exponent(s) == 0
  {
  }

  lemma PowerFieldsAsInts(s: Lane, e: Lane)
    requires Sign(s) == 0 && Fraction(s) == 0 && Exponent(s) == e
    ensures Sign(s) as int == 0 && Fraction(s) as int == 0 && Exponent(s) as int == e as int
  {
  }

  lemma PowerFields(k: int)
    requires -126 <= k <= 127
    ensures ValueOfFields(0, k + 127, 0) == Times2To(k, 1.0)
  {
  }

  // ---------------------------------------------------------------------------
  // The kernel.

  /** Lines 331-367 on the clamped input. */
  function ExpOfClamped(isa: Isa, fp: Fp, x: Vec): (r: Vec) {
    var one := Set1(One);
    var fx := FmaddPs(fp, x, Set1(Log2e), Set1(PointFive));
    var fx := FloorCorrected(fp, fx);
    var x := FnmaddPs(fp, fx, Set1(ExpC1), x);
    var x := FnmaddPs(fp, fx, Set1(ExpC2), x);
    var z := MulPs(fp, x, x);
    var y := FmaddPs(fp, Set1(ExpP0), x, Set1(ExpP1));
    var y := FmaddPs(fp, y, x, Set1(ExpP2));
    var y := FmaddPs(fp, y, x, Set1(ExpP3));
    var y := FmaddPs(fp, y, x, Set1(ExpP4));
    var y := FmaddPs(fp, y, x, Set1(ExpP5));
    var y := FmaddPs(fp, y, z, x);
    var y := AddPs(fp, y, one);
    var pow2n := PowerOfTwo(isa, CvttPsEpi32(fp, fx));
    MulPs(fp, y, pow2n)
  }

  /** `exp256_ps` */
  function Exp(isa: Isa, fp: Fp, x: Vec): (r: Vec)
  {
    ExpOfClamped(isa, fp, ClampExp(x))
  }

  /** Saturation: the result depends on the input only through its saturated
      value, so every input at or above `exp_hi` (1000.0, +infinity) and every
      NaN gives the result of `exp_hi`, and every input at or below `exp_lo`
      gives the result of `exp_lo`. */
  lemma ExpSaturates(isa: Isa, fp: Fp, x: Vec, y: Vec)
    requires forall i :: 0 <= i < 8 ==> Saturate(x[i]) == Saturate(y[i])
    ensures Exp(isa, fp, x) == Exp(isa, fp, y)
  {
    assert ClampExp(x) == ClampExp(y);
  }

  /** The two boundary values saturate to themselves. */
  lemma BoundsSaturateToThemselves()
    ensures Saturate(ExpHi) == ExpHi && Saturate(ExpLo) == ExpLo
  {
    ExpBounds();
    LtIrreflexive(ExpHi);
    LtIrreflexive(ExpLo);
    LtAsymmetric(ExpLo, ExpHi);
  }

  /** The AVX2 and SSE2 builds compute the same exponential. */
  lemma BuildsAgree(fp: Fp, x: Vec)
    ensures Exp(Avx2, fp, x) == Exp(Sse2, fp, x)
  {
  }

  // ---------------------------------------------------------------------------
  // A NaN argument.

  /** As written, the clamp `min(x, exp_hi)` returns its second operand for a
      NaN, so the quiet NaN is computed as `exp_hi`. */
  lemma ExpOfQuietNaN(isa: Isa, fp: Fp)
    ensures ClampExp(Set1(QuietNaN)) == Set1(ExpHi)
    ensures Exp(isa, fp, Set1(QuietNaN)) == Exp(isa, fp, Set1(ExpHi))
  {
    AllOnesIsNaN();
    BoundsSaturateToThemselves();
    ExpSaturates(isa, fp, Set1(QuietNaN), Set1(ExpHi));
    var c := ClampExp(Set1(QuietNaN));
    assert forall i :: 0 <= i < 8 ==> c[i] == Set1(ExpHi)[i];
  }

  /** The evidently intended `exp256_ps`: the unordered self-compare ORed into
      the result, so that a NaN lane comes out as the all-ones NaN and every
      other lane is the kernel's. */
  function ExpPropagatingNaN(isa: Isa, fp: Fp, x: Vec): (r: Vec)
    ensures forall i :: 0 <= i < 8 && IsNaN(x[i]) ==> r[i] == AllOnes && IsNaN(r[i])
    ensures forall i :: 0 <= i < 8 && !IsNaN(x[i]) ==> r[i] == Exp(isa, fp, x)[i]
  {
    var y := Exp(isa, fp, x);
    var r := Or(y, CmpPs(x, x, UnordQ));
    OrUnordered(x, y, r);
    r
  }
}
