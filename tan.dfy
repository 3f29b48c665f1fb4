/** `tan256_ps`: the sine over the cosine of `sincos256_ps`, with the cosine
    moved off zero by 1e-8 in the lanes where it compares equal to zero. */
module Tan {
  import opened Binary32
  import opened Simd
  import opened FloatArith
  import opened Shims
  import opened Constants
  import opened Trig

  /** `eps` is a positive normal number, so not a NaN and not a zero. */
  lemma TanEpsIsPositiveNormal()
    ensures Sign(TanEps) == 0 && IsNormal(TanEps)
    ensures !IsNaN(TanEps) && !IsZero(TanEps)
  {
    assert Sign(TanEps) == 0 && Exponent(TanEps) == 100 && Magnitude(TanEps) != 0;
  }

  /** The divisor of one lane: the cosine plus `eps` where the cosine is a zero,
      plus +0 elsewhere. */
  function GuardLane(fp: Fp, c: Lane): Lane {
    fp.add(c, if IsZero(c) then TanEps else PosZero)
  }

  /** Lines 814-816: `cmp(c, 0, EQ_OS)` holds exactly in the zero lanes, so the
      mask ANDed with `eps` is `eps` there and +0 elsewhere. */
  function GuardedDivisor(fp: Fp, c: Vec): (r: Vec)
    ensures forall i :: 0 <= i < 8 ==> r[i] == GuardLane(fp, c[i])
  {
    var mask := CmpPs(c, Set1(PosZero), EqOs);
    var tmp := And(Set1(TanEps), mask);
    GuardLanes(c, tmp);
    AddPs(fp, c, tmp)
  }

  lemma GuardLanes(c: Vec, tmp: seq<Lane>)
    requires |tmp| == 8
    requires forall i :: 0 <= i < 8 ==> tmp[i] == AndLane(TanEps, CmpLane(EqOs, c[i], PosZero))
    ensures forall i :: 0 <= i < 8 ==> tmp[i] == (if IsZero(c[i]) then TanEps else PosZero)
  {
    forall i | 0 <= i < 8
      ensures tmp[i] == (if IsZero(c[i]) then TanEps else PosZero)
    {
      EqZero(c[i]);
      AndWithMask(TanEps, IsZero(c[i]));
    }
  }

  /** `tan256_ps` (lines 811-818): in every lane, the sine of `sincos256_ps`
      divided by the guarded cosine of `sincos256_ps`. */
  function Tan(isa: Isa, fp: Fp, x: Vec): (r: Vec)
    ensures forall i :: 0 <= i < 8 ==> r[i] == fp.div(SinLane(fp, x[i]), GuardLane(fp, SinCosCosLane(fp, x[i])))
  {
    var (s, c) := SinCos(isa, fp, x);
    DivPs(fp, s, GuardedDivisor(fp, c))
  }

  /** With IEEE 754-2019 addition, the guard leaves a nonzero cosine as it is
      and turns a zero cosine into `eps`: the divisor is never a zero unless
      the cosine is a NaN. */
  lemma GuardNeverZero(fp: Fp, c: Lane)
    requires ExactZeroAddition(fp)
    requires !IsNaN(c)
    ensures GuardLane(fp, c) == (if IsZero(c) then TanEps else c)
    ensures !IsZero(GuardLane(fp, c)) && !IsNaN(GuardLane(fp, c))
  {
    TanEpsIsPositiveNormal();
    PosZeroFacts();
  }

  /** Hence `tan256_ps` divides the sine by the cosine itself wherever the
      cosine is a number other than zero, and by `eps` wherever it is a zero. */
  lemma TanDividesByCosine(isa: Isa, fp: Fp, x: Vec)
    requires ExactZeroAddition(fp)
    ensures forall i :: 0 <= i < 8 && !IsNaN(SinCos(isa, fp, x).1[i]) ==>
      var c := SinCos(isa, fp, x).1[i];
      Tan(isa, fp, x)[i] == fp.div(SinCos(isa, fp, x).0[i], if IsZero(c) then TanEps else c)
  {
    forall i | 0 <= i < 8 && !IsNaN(SinCos(isa, fp, x).1[i])
      ensures Tan(isa, fp, x)[i] == fp.div(SinCos(isa, fp, x).0[i],
        if IsZero(SinCos(isa, fp, x).1[i]) then TanEps else SinCos(isa, fp, x).1[i])
    {
      GuardNeverZero(fp, SinCos(isa, fp, x).1[i]);
    }
  }

  /** The AVX2 and SSE2 builds compute the same tangent. */
  lemma BuildsAgree(fp: Fp, x: Vec)
    ensures Tan(Avx2, fp, x) == Tan(Sse2, fp, x)
  {
    Trig.BuildsAgree(fp, x);
  }
}
