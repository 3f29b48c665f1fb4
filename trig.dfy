/** `sin256_ps`, `cos256_ps` and `sincos256_ps`.  Every lane follows the scalar
    algorithm of Cephes `sinf`/`cosf`: the even octant count j of |x| * 4/pi,
    the argument reduced by j * pi/4 in three parts, one of two polynomials on
    the reduced argument, and a sign, the choice of polynomial and sign read
    from the quadrant of j.  The kernels compute the choice with masks and the
    sign with XOR; each is proved to compute the scalar algorithm in every lane. */
module Trig {
  import opened Binary32
  import opened Simd
  import opened FloatArith
  import opened Shims
  import opened Constants
  import opened Quadrant

  // ---------------------------------------------------------------------------
  // The scalar algorithm, one lane.

  /** The even octant count of |b| * 4/pi. */
  function OctantCount(fp: Fp, b: Lane): Lane {
    RoundUpToEven(fp.cvttToInt(fp.mul(Abs(b), FourOverPi)))
  }

  /** x - j*DP1 - j*DP2 - j*DP3, the three parts of j * pi/4 taken away one
      after the other (Cody and Waite's extended-precision reduction). */
  function ReduceLane(fp: Fp, j: Lane, x: Lane): Lane {
    fp.fmadd(j, MinusDp3, fp.fmadd(j, MinusDp2, fp.fmadd(j, MinusDp1, x)))
  }

  /** |b| reduced by its even octant count. */
  function ReducedLane(fp: Fp, b: Lane): Lane {
    ReduceLane(fp, fp.cvtToFloat(OctantCount(fp, b)), Abs(b))
  }

  /** cos r as 1 - z/2 + z^2 (p0 z^2 + p1 z + p2) with z = r^2. */
  function CosineLane(fp: Fp, r: Lane): Lane {
    var z := fp.mul(r, r);
    var y := fp.fmadd(fp.fmadd(CosCofP0, z, CosCofP1), z, CosCofP2);
    fp.add(fp.fnmadd(z, PointFive, fp.mul(fp.mul(y, z), z)), One)
  }

  /** sin r as r + r z (p0 z^2 + p1 z + p2) with z = r^2, through the
      multiply-add shim. */
  function SineLane(fp: Fp, r: Lane): Lane {
    var z := fp.mul(r, r);
    var y := fp.fmadd(fp.fmadd(SinCofP0, z, SinCofP1), z, SinCofP2);
    fp.fmadd(fp.mul(y, z), r, r)
  }

  /** The same polynomial with separate multiplications and additions, as
      `cos256_ps` writes it. */
  function SineLaneUnfused(fp: Fp, r: Lane): Lane {
    var z := fp.mul(r, r);
    var y := fp.add(fp.mul(fp.add(fp.mul(SinCofP0, z), SinCofP1), z), SinCofP2);
    fp.add(fp.mul(fp.mul(y, z), r), r)
  }

  /** The chosen polynomial, plus the +0 the masked-out one leaves. */
  function Pick(fp: Fp, useSine: bool, c: Lane, s: Lane): Lane {
    if useSine then fp.add(PosZero, s) else fp.add(c, PosZero)
  }

  /** sin of one lane: the sine polynomial in the even quadrants and the
      cosine polynomial in the odd ones, negated when the sign of b differs
      from the quadrant's sign. */
  function SinLane(fp: Fp, b: Lane): Lane {
    SinInQuadrant(fp, Sign(b) == 1, QuadrantOf(OctantCount(fp, b)), ReducedLane(fp, b))
  }

  function SinInQuadrant(fp: Fp, negative: bool, q: bv32, r: Lane): Lane {
    FlipSign(Pick(fp, SinUsesSinePolynomial(q), CosineLane(fp, r), SineLane(fp, r)),
             SignFlag(negative != SinNegated(q)))
  }

  /** cos of one lane: the sine polynomial in the odd quadrants and the cosine
      polynomial in the even ones, negated in quadrants 1 and 2 whatever the
      sign of b. */
  function CosLane(fp: Fp, b: Lane): Lane {
    CosInQuadrant(fp, QuadrantOf(OctantCount(fp, b)), ReducedLane(fp, b))
  }

  function CosInQuadrant(fp: Fp, q: bv32, r: Lane): Lane {
    FlipSign(Pick(fp, CosUsesSinePolynomial(q), CosineLane(fp, r), SineLaneUnfused(fp, r)),
             SignFlag(CosNegated(q)))
  }

  /** The cosine of `sincos256_ps` in one lane: each polynomial minus the part
      the sine took from it, the two differences added, with the cosine's sign. */
  function SinCosCosLane(fp: Fp, b: Lane): Lane {
    SinCosCosInQuadrant(fp, QuadrantOf(OctantCount(fp, b)), ReducedLane(fp, b))
  }

  function SinCosCosInQuadrant(fp: Fp, q: bv32, r: Lane): Lane {
    FlipSign(Leftover(fp, SinUsesSinePolynomial(q), CosineLane(fp, r), SineLane(fp, r)),
             SignFlag(CosNegated(q)))
  }

  /** What the two polynomials leave once the sine has taken its pick: each
      minus the part taken from it, the two differences added. */
  function Leftover(fp: Fp, sineTaken: bool, c: Lane, s: Lane): Lane {
    if sineTaken then fp.add(fp.sub(c, PosZero), fp.sub(s, s))
    else fp.add(fp.sub(c, c), fp.sub(s, PosZero))
  }

  // ---------------------------------------------------------------------------
  // The kernels.

  /** Lines 448 (567, 682): the magnitude of every lane. */
  function Magnitudes(x: Vec): (r: Vec)
    ensures forall i :: 0 <= i < 8 ==> r[i] == Abs(x[i])
  {
    And(x, Set1(InvSignMask))
  }

  /** Lines 450 (684): the sign bit of every lane. */
  function SignBits(x: Vec): (r: Vec)
    ensures forall i :: 0 <= i < 8 ==> r[i] == SignOf(x[i])
  {
    And(x, Set1(SignMask))
  }

  /** Lines 517-522 (626-631, 746-751). */
  function Reduce(fp: Fp, y: Vec, x: Vec): (r: Vec)
    ensures forall i :: 0 <= i < 8 ==> r[i] == ReduceLane(fp, y[i], x[i])
  {
    var x1 := FmaddPs(fp, y, Set1(MinusDp1), x);
    var x2 := FmaddPs(fp, y, Set1(MinusDp2), x1);
    FmaddPs(fp, y, Set1(MinusDp3), x2)
  }

  /** Lines 525-534 (634-643, 775-784). */
  function CosinePolynomial(fp: Fp, x: Vec): (r: Vec)
    ensures forall i :: 0 <= i < 8 ==> r[i] == CosineLane(fp, x[i])
  {
    var z := MulPs(fp, x, x);
    var y := FmaddPs(fp, Set1(CosCofP0), z, Set1(CosCofP1));
    var y := FmaddPs(fp, y, z, Set1(CosCofP2));
    var y := MulPs(fp, y, z);
    var y := MulPs(fp, y, z);
    var y := FnmaddPs(fp, z, Set1(PointFive), y);
    AddPs(fp, y, Set1(One))
  }

  /** Lines 538-542 (788-792). */
  function SinePolynomial(fp: Fp, x: Vec): (r: Vec)
    ensures forall i :: 0 <= i < 8 ==> r[i] == SineLane(fp, x[i])
  {
    var z := MulPs(fp, x, x);
    var y2 := FmaddPs(fp, Set1(SinCofP0), z, Set1(SinCofP1));
    var y2 := FmaddPs(fp, y2, z, Set1(SinCofP2));
    var y2 := MulPs(fp, y2, z);
    FmaddPs(fp, y2, x, x)
  }

  /** Lines 647-654. */
  function SinePolynomialUnfused(fp: Fp, x: Vec): (r: Vec)
    ensures forall i :: 0 <= i < 8 ==> r[i] == SineLaneUnfused(fp, x[i])
  {
    var z := MulPs(fp, x, x);
    var y2 := MulPs(fp, Set1(SinCofP0), z);
    var y2 := AddPs(fp, y2, Set1(SinCofP1));
    var y2 := MulPs(fp, y2, z);
    var y2 := AddPs(fp, y2, Set1(SinCofP2));
    var y2 := MulPs(fp, y2, z);
    var y2 := MulPs(fp, y2, x);
    AddPs(fp, y2, x)
  }

  /** Lines 545-548 (657-660): where the mask is set, the second polynomial
      plus +0; elsewhere the first plus +0. */
  function Blend(fp: Fp, mask: Vec, y: Vec, y2: Vec): (r: Vec)
    ensures forall i :: 0 <= i < 8 && (mask[i] == AllOnes || mask[i] == 0) ==>
      r[i] == Pick(fp, mask[i] == AllOnes, y[i], y2[i])
  {
    var r := AddPs(fp, AndNot(mask, y), And(mask, y2));
    forall i | 0 <= i < 8 && (mask[i] == AllOnes || mask[i] == 0)
      ensures r[i] == Pick(fp, mask[i] == AllOnes, y[i], y2[i])
    {
      PickLane(fp, mask[i] == AllOnes, y[i], y2[i]);
    }
    r
  }

  /** The truncated octant count of every lane (lines 453 and 463). */
  function OctantCounts(fp: Fp, ax: Vec): (t: Vec)
    ensures forall i :: 0 <= i < 8 ==> t[i] == fp.cvttToInt(fp.mul(ax[i], FourOverPi))
  {
    CvttPsEpi32(fp, MulPs(fp, ax, Set1(FourOverPi)))
  }

  /** `sin256_ps` (lines 446-552): in every lane, the scalar sine. */
  function Sin(isa: Isa, fp: Fp, x: Vec): (r: Vec)
    ensures forall i :: 0 <= i < 8 ==> r[i] == SinLane(fp, x[i])
  {
    var ax := Magnitudes(x);
    var o := SinOctant(isa, OctantCounts(fp, ax));
    var signBit := Xor(SignBits(x), o.sign);
    var xr := Reduce(fp, CvtEpi32Ps(fp, o.j), ax);
    var b := Blend(fp, o.polyMask, CosinePolynomial(fp, xr), SinePolynomial(fp, xr));
    var r := Xor(b, signBit);
    SinLanes(fp, x, o, xr, b, signBit, r);
    r
  }

  lemma SinLanes(fp: Fp, x: Vec, o: Octant, xr: Vec, b: seq<Lane>, signBit: seq<Lane>, r: seq<Lane>)
    requires |b| == |signBit| == |r| == 8
    requires forall i :: 0 <= i < 8 ==> o.j[i] == OctantCount(fp, x[i])
    requires forall i :: 0 <= i < 8 ==> o.sign[i] == SignFlag(SinNegated(QuadrantOf(o.j[i])))
    requires forall i :: 0 <= i < 8 ==> o.polyMask[i] == MaskOf(SinUsesSinePolynomial(QuadrantOf(o.j[i])))
    requires forall i :: 0 <= i < 8 ==> xr[i] == ReducedLane(fp, x[i])
    requires forall i :: 0 <= i < 8 ==> b[i] == Pick(fp, o.polyMask[i] == AllOnes, CosineLane(fp, xr[i]), SineLane(fp, xr[i]))
    requires forall i :: 0 <= i < 8 ==> signBit[i] == XorLane(SignOf(x[i]), o.sign[i])
    requires forall i :: 0 <= i < 8 ==> r[i] == XorLane(b[i], signBit[i])
    ensures forall i :: 0 <= i < 8 ==> r[i] == SinLane(fp, x[i])
  {
    forall i | 0 <= i < 8
      ensures r[i] == SinLane(fp, x[i])
    {
      SignOfIsFlag(x[i]);
      MaskIsAllOnes(SinUsesSinePolynomial(QuadrantOf(o.j[i])));
      SinQuadrantLane(fp, Sign(x[i]) == 1, QuadrantOf(o.j[i]), xr[i], o.sign[i], b[i], signBit[i], r[i]);
    }
  }

  lemma SinQuadrantLane(fp: Fp, negative: bool, q: bv32, xr: Lane, sign: Lane, b: Lane, signBit: Lane, r: Lane)
    requires sign == SignFlag(SinNegated(q))
    requires b == Pick(fp, SinUsesSinePolynomial(q), CosineLane(fp, xr), SineLane(fp, xr))
    requires signBit == XorLane(SignFlag(negative), sign)
    requires r == XorLane(b, signBit)
    ensures r == SinInQuadrant(fp, negative, q, xr)
  {
    assert signBit == SignFlag(negative != SinNegated(q)) by {
      FlagsCombine(negative, SinNegated(q));
    }
    XorIsFlip(b, negative != SinNegated(q));
  }

  lemma MaskIsAllOnes(c: bool)
    ensures (MaskOf(c) == AllOnes) == c
  {
  }

  /** `cos256_ps` (lines 567-664): in every lane, the scalar cosine. */
  function Cos(isa: Isa, fp: Fp, x: Vec): (r: Vec)
    ensures forall i :: 0 <= i < 8 ==> r[i] == CosLane(fp, x[i])
  {
    var ax := Magnitudes(x);
    var o := CosOctant(isa, OctantCounts(fp, ax));
    var xr := Reduce(fp, CvtEpi32Ps(fp, o.j), ax);
    var b := Blend(fp, o.polyMask, CosinePolynomial(fp, xr), SinePolynomialUnfused(fp, xr));
    var r := Xor(b, o.sign);
    CosLanes(fp, x, o, xr, b, r);
    r
  }

  lemma CosLanes(fp: Fp, x: Vec, o: Octant, xr: Vec, b: seq<Lane>, r: seq<Lane>)
    requires |b| == |r| == 8
    requires forall i :: 0 <= i < 8 ==> o.j[i] == OctantCount(fp, x[i])
    requires forall i :: 0 <= i < 8 ==> o.sign[i] == SignFlag(CosNegated(QuadrantOf(o.j[i])))
    requires forall i :: 0 <= i < 8 ==> o.polyMask[i] == MaskOf(CosUsesSinePolynomial(QuadrantOf(o.j[i])))
    requires forall i :: 0 <= i < 8 ==> xr[i] == ReducedLane(fp, x[i])
    requires forall i :: 0 <= i < 8 ==> b[i] == Pick(fp, o.polyMask[i] == AllOnes, CosineLane(fp, xr[i]), SineLaneUnfused(fp, xr[i]))
    requires forall i :: 0 <= i < 8 ==> r[i] == XorLane(b[i], o.sign[i])
    ensures forall i :: 0 <= i < 8 ==> r[i] == CosLane(fp, x[i])
  {
    forall i | 0 <= i < 8
      ensures r[i] == CosLane(fp, x[i])
    {
      CosQuadrantLane(fp, QuadrantOf(o.j[i]), xr[i], o.sign[i], o.polyMask[i], b[i], r[i]);
    }
  }

  lemma CosQuadrantLane(fp: Fp, q: bv32, xr: Lane, sign: Lane, mask: Lane, b: Lane, r: Lane)
    requires sign == SignFlag(CosNegated(q))
    requires mask == MaskOf(CosUsesSinePolynomial(q))
    requires b == Pick(fp, mask == AllOnes, CosineLane(fp, xr), SineLaneUnfused(fp, xr))
    requires r == XorLane(b, sign)
    ensures r == CosInQuadrant(fp, q, xr)
  {
    var p := Pick(fp, CosUsesSinePolynomial(q), CosineLane(fp, xr), SineLaneUnfused(fp, xr));
    assert b == p by {
      MaskIsAllOnes(CosUsesSinePolynomial(q));
    }
    XorIsFlip(p, CosNegated(q));
  }

  /** `sincos256_ps` (lines 680-806): in every lane, the scalar sine and the
      sincos form of the cosine. */
  function SinCos(isa: Isa, fp: Fp, x: Vec): (r: (Vec, Vec))
    ensures forall i :: 0 <= i < 8 ==> r.0[i] == SinLane(fp, x[i])
    ensures forall i :: 0 <= i < 8 ==> r.1[i] == SinCosCosLane(fp, x[i])
  {
    var ax := Magnitudes(x);
    var o := SinOctant(isa, OctantCounts(fp, ax));
    var xr := Reduce(fp, CvtEpi32Ps(fp, o.j), ax);
    var y := CosinePolynomial(fp, xr);
    var y2 := SinePolynomial(fp, xr);
    var ysin2 := And(o.polyMask, y2);
    var ysin1 := AndNot(o.polyMask, y);
    (SinCosSineHalf(fp, x, o, xr, y, y2, ysin1, ysin2),
     SinCosCosineHalf(fp, x, o, CosSign(isa, o.j), xr, y, y2, ysin1, ysin2))
  }

  /** The sine half of `sincos256_ps` (lines 801 and 805): the two picked
      polynomials summed, with the sine's sign. */
  function SinCosSineHalf(fp: Fp, x: Vec, o: Octant, xr: Vec, y: Vec, y2: Vec,
                          ysin1: seq<Lane>, ysin2: seq<Lane>): (s: Vec)
    requires |ysin1| == |ysin2| == 8
    requires forall i :: 0 <= i < 8 ==> o.j[i] == OctantCount(fp, x[i])
    requires forall i :: 0 <= i < 8 ==> o.sign[i] == SignFlag(SinNegated(QuadrantOf(o.j[i])))
    requires forall i :: 0 <= i < 8 ==> o.polyMask[i] == MaskOf(SinUsesSinePolynomial(QuadrantOf(o.j[i])))
    requires forall i :: 0 <= i < 8 ==> xr[i] == ReducedLane(fp, x[i])
    requires forall i :: 0 <= i < 8 ==> y[i] == CosineLane(fp, xr[i]) && y2[i] == SineLane(fp, xr[i])
    requires forall i :: 0 <= i < 8 ==> ysin1[i] == AndNotLane(o.polyMask[i], y[i]) && ysin2[i] == AndLane(o.polyMask[i], y2[i])
    ensures forall i :: 0 <= i < 8 ==> s[i] == SinLane(fp, x[i])
  {
    var signSin := Xor(SignBits(x), o.sign);
    var sinSum := AddPs(fp, ysin1, ysin2);
    var s := Xor(sinSum, signSin);
    SinCosSineLanes(fp, x, o, xr, y, y2, ysin1, ysin2, sinSum, signSin, s);
    s
  }

  /** The cosine half of `sincos256_ps` (lines 798-802 and 806): what each polynomial
      leaves after the sine's pick, summed, with the cosine's sign. */
  function SinCosCosineHalf(fp: Fp, x: Vec, o: Octant, signCos: Vec, xr: Vec, y: Vec, y2: Vec,
                            ysin1: seq<Lane>, ysin2: seq<Lane>): (c: Vec)
    requires |ysin1| == |ysin2| == 8
    requires forall i :: 0 <= i < 8 ==> o.j[i] == OctantCount(fp, x[i])
    requires forall i :: 0 <= i < 8 ==> o.polyMask[i] == MaskOf(SinUsesSinePolynomial(QuadrantOf(o.j[i])))
    requires forall i :: 0 <= i < 8 ==> signCos[i] == SignFlag(CosNegated(QuadrantOf(o.j[i])))
    requires forall i :: 0 <= i < 8 ==> xr[i] == ReducedLane(fp, x[i])
    requires forall i :: 0 <= i < 8 ==> y[i] == CosineLane(fp, xr[i]) && y2[i] == SineLane(fp, xr[i])
    requires forall i :: 0 <= i < 8 ==> ysin1[i] == AndNotLane(o.polyMask[i], y[i]) && ysin2[i] == AndLane(o.polyMask[i], y2[i])
    ensures forall i :: 0 <= i < 8 ==> c[i] == SinCosCosLane(fp, x[i])
  {
    var cosSum := AddPs(fp, SubPs(fp, y, ysin1), SubPs(fp, y2, ysin2));
    var c := Xor(cosSum, signCos);
    SinCosCosineLanes(fp, x, o, signCos, xr, y, y2, ysin1, ysin2, cosSum, c);
    c
  }

  lemma SinCosSineLanes(fp: Fp, x: Vec, o: Octant, xr: Vec, y: Vec, y2: Vec,
                        ysin1: seq<Lane>, ysin2: seq<Lane>, sinSum: seq<Lane>, signSin: seq<Lane>, s: seq<Lane>)
    requires |ysin1| == |ysin2| == |sinSum| == |signSin| == |s| == 8
    requires forall i :: 0 <= i < 8 ==> o.j[i] == OctantCount(fp, x[i])
    requires forall i :: 0 <= i < 8 ==> o.sign[i] == SignFlag(SinNegated(QuadrantOf(o.j[i])))
    requires forall i :: 0 <= i < 8 ==> o.polyMask[i] == MaskOf(SinUsesSinePolynomial(QuadrantOf(o.j[i])))
    requires forall i :: 0 <= i < 8 ==> xr[i] == ReducedLane(fp, x[i])
    requires forall i :: 0 <= i < 8 ==> y[i] == CosineLane(fp, xr[i]) && y2[i] == SineLane(fp, xr[i])
    requires forall i :: 0 <= i < 8 ==> ysin1[i] == AndNotLane(o.polyMask[i], y[i]) && ysin2[i] == AndLane(o.polyMask[i], y2[i])
    requires forall i :: 0 <= i < 8 ==> sinSum[i] == fp.add(ysin1[i], ysin2[i])
    requires forall i :: 0 <= i < 8 ==> signSin[i] == XorLane(SignOf(x[i]), o.sign[i])
    requires forall i :: 0 <= i < 8 ==> s[i] == XorLane(sinSum[i], signSin[i])
    ensures forall i :: 0 <= i < 8 ==> s[i] == SinLane(fp, x[i])
  {
    forall i | 0 <= i < 8
      ensures s[i] == SinLane(fp, x[i])
    {
      var q := QuadrantOf(o.j[i]);
      PickLane(fp, SinUsesSinePolynomial(q), y[i], y2[i]);
      SignOfIsFlag(x[i]);
      SinQuadrantLane(fp, Sign(x[i]) == 1, q, xr[i], o.sign[i], sinSum[i], signSin[i], s[i]);
    }
  }

  lemma SinCosCosineLanes(fp: Fp, x: Vec, o: Octant, signCos: Vec, xr: Vec, y: Vec, y2: Vec,
                          ysin1: seq<Lane>, ysin2: seq<Lane>, cosSum: seq<Lane>, c: seq<Lane>)
    requires |ysin1| == |ysin2| == |cosSum| == |c| == 8
    requires forall i :: 0 <= i < 8 ==> o.j[i] == OctantCount(fp, x[i])
    requires forall i :: 0 <= i < 8 ==> o.polyMask[i] == MaskOf(SinUsesSinePolynomial(QuadrantOf(o.j[i])))
    requires forall i :: 0 <= i < 8 ==> signCos[i] == SignFlag(CosNegated(QuadrantOf(o.j[i])))
    requires forall i :: 0 <= i < 8 ==> xr[i] == ReducedLane(fp, x[i])
    requires forall i :: 0 <= i < 8 ==> y[i] == CosineLane(fp, xr[i]) && y2[i] == SineLane(fp, xr[i])
    requires forall i :: 0 <= i < 8 ==> ysin1[i] == AndNotLane(o.polyMask[i], y[i]) && ysin2[i] == AndLane(o.polyMask[i], y2[i])
    requires forall i :: 0 <= i < 8 ==> cosSum[i] == fp.add(fp.sub(y[i], ysin1[i]), fp.sub(y2[i], ysin2[i]))
    requires forall i :: 0 <= i < 8 ==> c[i] == XorLane(cosSum[i], signCos[i])
    ensures forall i :: 0 <= i < 8 ==> c[i] == SinCosCosLane(fp, x[i])
  {
    forall i | 0 <= i < 8
      ensures c[i] == SinCosCosLane(fp, x[i])
    {
      var q := QuadrantOf(o.j[i]);
      LeftoverLane(fp, SinUsesSinePolynomial(q), y[i], y2[i]);
      SinCosCosQuadrantLane(fp, q, xr[i], signCos[i], cosSum[i], c[i]);
    }
  }

  lemma SinCosCosQuadrantLane(fp: Fp, q: bv32, xr: Lane, signCos: Lane, cosSum: Lane, c: Lane)
    requires signCos == SignFlag(CosNegated(q))
    requires cosSum == Leftover(fp, SinUsesSinePolynomial(q), CosineLane(fp, xr), SineLane(fp, xr))
    requires c == XorLane(cosSum, signCos)
    ensures c == SinCosCosInQuadrant(fp, q, xr)
  {
    XorIsFlip(cosSum, CosNegated(q));
  }

  // ---------------------------------------------------------------------------
  // Properties of the kernels.

  /** The sine of `sincos256_ps` is `sin256_ps`, in every build and for every
      rounding of the arithmetic. */
  lemma SinCosSine(isa: Isa, fp: Fp, x: Vec)
    ensures SinCos(isa, fp, x).0 == Sin(isa, fp, x)
  {
    SameLanes(SinCos(isa, fp, x).0, Sin(isa, fp, x));
  }

  /** The cosine of `sincos256_ps` is `cos256_ps` when the build's multiply-add
      shim multiplies, rounds and adds (`cos256_ps` writes its sine polynomial
      with separate operations), the exact subtractions of IEEE 754-2019 hold,
      and both polynomials are finite in every lane (the sincos form subtracts
      each polynomial from itself). */
  lemma SinCosCosine(isa: Isa, fp: Fp, x: Vec)
    requires MultiplyThenAdd(fp) && ExactSubtraction(fp)
    requires forall i :: 0 <= i < 8 ==>
      IsFinite(CosineLane(fp, ReducedLane(fp, x[i]))) && IsFinite(SineLane(fp, ReducedLane(fp, x[i])))
    ensures SinCos(isa, fp, x).1 == Cos(isa, fp, x)
  {
    var c := SinCos(isa, fp, x).1;
    forall i | 0 <= i < 8
      ensures c[i] == Cos(isa, fp, x)[i]
    {
      var r := ReducedLane(fp, x[i]);
      FusedSineIsUnfused(fp, r);
      LeftoverIsPick(fp, QuadrantOf(OctantCount(fp, x[i])), CosineLane(fp, r), SineLane(fp, r));
    }
    SameLanes(c, Cos(isa, fp, x));
  }

  /** With separate multiply and add, the two spellings of the sine polynomial
      agree. */
  lemma FusedSineIsUnfused(fp: Fp, r: Lane)
    requires MultiplyThenAdd(fp)
    ensures SineLane(fp, r) == SineLaneUnfused(fp, r)
  {
    var z := fp.mul(r, r);
    var y1 := fp.fmadd(SinCofP0, z, SinCofP1);
    var y := fp.fmadd(y1, z, SinCofP2);
    MultiplyAdd(fp, SinCofP0, z, SinCofP1);
    MultiplyAdd(fp, y1, z, SinCofP2);
    MultiplyAdd(fp, fp.mul(y, z), r, r);
  }

  lemma MultiplyAdd(fp: Fp, a: Lane, b: Lane, c: Lane)
    requires MultiplyThenAdd(fp)
    ensures fp.fmadd(a, b, c) == fp.add(fp.mul(a, b), c)
  {
  }

  /** The cosine's leftover of the sine's pick is the cosine's own pick: where
      the sine takes the sine polynomial the cosine uses the cosine polynomial,
      and the other way round. */
  lemma LeftoverIsPick(fp: Fp, q: bv32, c: Lane, s: Lane)
    requires q < 4
    requires ExactSubtraction(fp) && IsFinite(c) && IsFinite(s)
    ensures Leftover(fp, SinUsesSinePolynomial(q), c, s) == Pick(fp, CosUsesSinePolynomial(q), c, s)
  {
    FiniteNotNaN(c);
    FiniteNotNaN(s);
  }

  lemma FiniteNotNaN(b: Lane)
    ensures IsFinite(b) ==> !IsNaN(b)
  {
  }

  /** sin is odd: negating every input lane negates every result lane, bit for
      bit, in every build and for every rounding. */
  lemma SinIsOdd(isa: Isa, fp: Fp, x: Vec)
    ensures Sin(isa, fp, Xor(x, Set1(SignBit))) == Xor(Sin(isa, fp, x), Set1(SignBit))
  {
    var n := Xor(x, Set1(SignBit));
    OddLanes(fp, x, n, Sin(isa, fp, n), Sin(isa, fp, x));
    SameLanes(Sin(isa, fp, n), Xor(Sin(isa, fp, x), Set1(SignBit)));
  }

  lemma OddLanes(fp: Fp, x: Vec, n: Vec, a: Vec, b: Vec)
    requires forall i :: 0 <= i < 8 ==> n[i] == XorLane(x[i], SignBit)
    requires forall i :: 0 <= i < 8 ==> a[i] == SinLane(fp, n[i]) && b[i] == SinLane(fp, x[i])
    ensures forall i :: 0 <= i < 8 ==> a[i] == XorLane(b[i], SignBit)
  {
    forall i | 0 <= i < 8
      ensures a[i] == XorLane(b[i], SignBit)
    {
      SinLaneIsOdd(fp, x[i], n[i], a[i], b[i]);
    }
  }

  lemma SinLaneIsOdd(fp: Fp, b: Lane, n: Lane, sn: Lane, sb: Lane)
    requires n == XorLane(b, SignBit)
    requires sn == SinLane(fp, n) && sb == SinLane(fp, b)
    ensures sn == XorLane(sb, SignBit)
  {
    NegationKeepsMagnitude(b);
    var q := QuadrantOf(OctantCount(fp, b));
    var r := ReducedLane(fp, b);
    assert OctantCount(fp, n) == OctantCount(fp, b) && ReducedLane(fp, n) == r;
    assert sn == SinInQuadrant(fp, Sign(b) != 1, q, r);
    assert sb == SinInQuadrant(fp, Sign(b) == 1, q, r);
    SinInQuadrantIsOdd(fp, Sign(b) == 1, q, r);
  }

  /** Flipping the input's sign flips the result's. */
  lemma SinInQuadrantIsOdd(fp: Fp, negative: bool, q: bv32, r: Lane)
    ensures SinInQuadrant(fp, !negative, q, r) == XorLane(SinInQuadrant(fp, negative, q, r), SignBit)
  {
    var p := Pick(fp, SinUsesSinePolynomial(q), CosineLane(fp, r), SineLane(fp, r));
    XorIsFlip(p, !negative != SinNegated(q));
    XorIsFlip(p, negative != SinNegated(q));
    FlagFlips(p, negative, SinNegated(q));
  }

  /** Negation changes the sign and nothing of the magnitude. */
  lemma NegationKeepsMagnitude(b: Lane)
    ensures Abs(b ^ SignBit) == Abs(b)
    ensures (Sign(b ^ SignBit) == 1) == (Sign(b) != 1)
  {
  }

  /** Flipping the first of two disagreeing flags flips the result. */
  lemma FlagFlips(p: Lane, a: bool, n: bool)
    ensures XorLane(p, SignFlag(!a != n)) == XorLane(XorLane(p, SignFlag(a != n)), SignBit)
  {
    XorSignTwice(p);
    if !a != n {
      assert SignFlag(!a != n) == SignBit && SignFlag(a != n) == 0;
    } else {
      assert SignFlag(!a != n) == 0 && SignFlag(a != n) == SignBit;
    }
  }

  lemma XorSignTwice(p: Lane)
    ensures p ^ SignBit == (p ^ 0) ^ SignBit
    ensures p ^ 0 == (p ^ SignBit) ^ SignBit
  {
  }

  /** cos is even: negating every input lane leaves every result lane as it
      is, in every build and for every rounding. */
  lemma CosIsEven(isa: Isa, fp: Fp, x: Vec)
    ensures Cos(isa, fp, Xor(x, Set1(SignBit))) == Cos(isa, fp, x)
  {
    var n := Xor(x, Set1(SignBit));
    EvenLanes(fp, x, n, Cos(isa, fp, n), Cos(isa, fp, x));
    SameLanes(Cos(isa, fp, n), Cos(isa, fp, x));
  }

  lemma EvenLanes(fp: Fp, x: Vec, n: Vec, a: Vec, b: Vec)
    requires forall i :: 0 <= i < 8 ==> n[i] == XorLane(x[i], SignBit)
    requires forall i :: 0 <= i < 8 ==> a[i] == CosLane(fp, n[i]) && b[i] == CosLane(fp, x[i])
    ensures forall i :: 0 <= i < 8 ==> a[i] == b[i]
  {
    forall i | 0 <= i < 8
      ensures a[i] == b[i]
    {
      NegationKeepsMagnitude(x[i]);
    }
  }

  /** The blend adds +0 to the chosen polynomial, so it is that polynomial
      whenever it is a number other than zero (in IEEE 754-2019 arithmetic). */
  lemma PickIsChosen(fp: Fp, useSine: bool, c: Lane, s: Lane)
    requires ExactZeroAddition(fp)
    requires var v := if useSine then s else c; !IsNaN(v) && !IsZero(v)
    ensures Pick(fp, useSine, c, s) == (if useSine then s else c)
  {
    PosZeroFacts();
  }

  /** The AVX2 and SSE2 builds compute the same three kernels. */
  lemma BuildsAgree(fp: Fp, x: Vec)
    ensures Sin(Avx2, fp, x) == Sin(Sse2, fp, x)
    ensures Cos(Avx2, fp, x) == Cos(Sse2, fp, x)
    ensures SinCos(Avx2, fp, x) == SinCos(Sse2, fp, x)
  {
    SameLanes(Sin(Avx2, fp, x), Sin(Sse2, fp, x));
    SameLanes(Cos(Avx2, fp, x), Cos(Sse2, fp, x));
    SameLanes(SinCos(Avx2, fp, x).0, SinCos(Sse2, fp, x).0);
    SameLanes(SinCos(Avx2, fp, x).1, SinCos(Sse2, fp, x).1);
  }

  // ---------------------------------------------------------------------------
  // One lane of the bit operations.

  lemma MagnitudeLane(b: Lane)
    ensures AndLane(b, InvSignMask) == Abs(b)
  {
  }

  /** The and/andnot/add blend under a mask built from a condition. */
  lemma PickLane(fp: Fp, useSine: bool, c: Lane, s: Lane)
    ensures fp.add(AndNotLane(MaskOf(useSine), c), AndLane(MaskOf(useSine), s)) == Pick(fp, useSine, c, s)
  {
    AndNotWithMask(c, useSine);
    AndWithMask(s, useSine);
  }

  /** The subtract-and-add of lines 796-802 under a mask built from a condition. */
  lemma LeftoverLane(fp: Fp, sineTaken: bool, c: Lane, s: Lane)
    ensures fp.add(fp.sub(c, AndNotLane(MaskOf(sineTaken), c)), fp.sub(s, AndLane(MaskOf(sineTaken), s)))
         == Leftover(fp, sineTaken, c, s)
  {
    AndNotWithMask(c, sineTaken);
    AndWithMask(s, sineTaken);
  }

  /** The sign bit of a lane is the flag of its sign. */
  lemma SignOfIsFlag(b: Lane)
    ensures SignOf(b) == SignFlag(Sign(b) == 1)
  {
  }

  /** XOR with a sign flag is `FlipSign`. */
  lemma XorIsFlip(b: Lane, negate: bool)
    ensures XorLane(b, SignFlag(negate)) == FlipSign(b, SignFlag(negate))
  {
  }

  /** Two sign flags XOR to the flag of their disagreement. */
  lemma FlagsCombine(a: bool, b: bool)
    ensures XorLane(SignFlag(a), SignFlag(b)) == SignFlag(a != b)
  {
  }
}
