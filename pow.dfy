/** `pow256_ps`: `exp256_ps(b * log256_ps(a))`. */
module Pow {
  import opened Binary32
  import opened Simd
  import opened FloatArith
  import opened Shims
  import opened Constants
  import Log
  import Exp

  /** Lines 821-825. */
  function Pow(isa: Isa, fp: Fp, a: Vec, b: Vec): Vec {
    Exp.Exp(isa, fp, MulPs(fp, b, Log.Log(isa, fp, a)))
  }

  /** A base that is not positive gives no NaN: `log256_ps` makes the lane a
      NaN, the product keeps it a NaN, and the clamp `min(x, exp_hi)` of
      `exp256_ps` returns its second operand for a NaN, so every such lane is
      computed as `exp256_ps(exp_hi)`, whatever the exponent. */
  lemma PowOfNotPositive(isa: Isa, fp: Fp, a: Vec, b: Vec)
    requires MultiplyPropagatesNaN(fp)
    requires forall i :: 0 <= i < 8 ==> Log.NotPositive(a[i])
    ensures Pow(isa, fp, a, b) == Exp.Exp(isa, fp, Set1(ExpHi))
  {
    var l := Log.Log(isa, fp, a);
    LogAllNaN(isa, fp, a);
    NaNProductSaturates(fp, b, l);
    Exp.ExpSaturates(isa, fp, MulPs(fp, b, l), Set1(ExpHi));
  }

  lemma LogAllNaN(isa: Isa, fp: Fp, a: Vec)
    requires forall i :: 0 <= i < 8 ==> Log.NotPositive(a[i])
    ensures forall i :: 0 <= i < 8 ==> IsNaN(Log.Log(isa, fp, a)[i])
  {
  }

  /** A product with a NaN saturates as `exp_hi` does. */
  lemma NaNProductSaturates(fp: Fp, b: Vec, l: Vec)
    requires MultiplyPropagatesNaN(fp)
    requires forall i :: 0 <= i < 8 ==> IsNaN(l[i])
    ensures forall i :: 0 <= i < 8 ==> Exp.Saturate(MulPs(fp, b, l)[i]) == Exp.Saturate(Set1(ExpHi)[i])
  {
    Exp.BoundsSaturateToThemselves();
    forall i | 0 <= i < 8
      ensures Exp.Saturate(MulPs(fp, b, l)[i]) == ExpHi
    {
      assert IsNaN(l[i]);
      assert IsNaN(b[i]) || IsNaN(l[i]);
      assert IsNaN(fp.mul(b[i], l[i]));
    }
  }

  /** The AVX2 and SSE2 builds compute the same power. */
  lemma BuildsAgree(fp: Fp, a: Vec, b: Vec)
    ensures Pow(Avx2, fp, a, b) == Pow(Sse2, fp, a, b)
  {
    Log.BuildsAgree(fp, a);
    Exp.BuildsAgree(fp, MulPs(fp, b, Log.Log(Avx2, fp, a)));
  }

  // ---------------------------------------------------------------------------
  // The evidently intended power.

  /** `exp256_ps(b * log256_ps(a))` built from the logarithm and the
      exponential that keep NaN. */
  function PowPropagatingNaN(isa: Isa, fp: Fp, a: Vec, b: Vec): Vec {
    Exp.ExpPropagatingNaN(isa, fp, MulPs(fp, b, Log.LogPropagatingNaN(isa, fp, a)))
  }

  /** With a NaN-propagating multiply, a base `<= 0`, a NaN base or a NaN
      exponent gives the all-ones NaN in that lane. */
  lemma PowPropagatesNaN(isa: Isa, fp: Fp, a: Vec, b: Vec)
    requires MultiplyPropagatesNaN(fp)
    ensures forall i :: 0 <= i < 8 && (Log.NotPositive(a[i]) || IsNaN(a[i]) || IsNaN(b[i])) ==>
      PowPropagatingNaN(isa, fp, a, b)[i] == AllOnes
  {
    var l := Log.LogPropagatingNaN(isa, fp, a);
    var y := MulPs(fp, b, l);
    forall i | 0 <= i < 8 && (Log.NotPositive(a[i]) || IsNaN(a[i]) || IsNaN(b[i]))
      ensures IsNaN(y[i])
    {
      assert IsNaN(b[i]) || IsNaN(l[i]);
      assert IsNaN(fp.mul(b[i], l[i]));
    }
  }

  /** Where the base is a number and the product is not a NaN, the intended
      power is the kernel's. */
  lemma PowPropagatingNaNElsewhere(isa: Isa, fp: Fp, a: Vec, b: Vec)
    requires forall i :: 0 <= i < 8 ==> !IsNaN(a[i])
    ensures forall i :: 0 <= i < 8 && !IsNaN(MulPs(fp, b, Log.Log(isa, fp, a))[i]) ==>
      PowPropagatingNaN(isa, fp, a, b)[i] == Pow(isa, fp, a, b)[i]
  {
    SameLogarithm(isa, fp, a);
  }

  lemma SameLogarithm(isa: Isa, fp: Fp, a: Vec)
    requires forall i :: 0 <= i < 8 ==> !IsNaN(a[i])
    ensures Log.LogPropagatingNaN(isa, fp, a) == Log.Log(isa, fp, a)
  {
    var l := Log.LogPropagatingNaN(isa, fp, a);
    assert forall i :: 0 <= i < 8 ==> l[i] == Log.Log(isa, fp, a)[i];
  }
}
