/** The integer stage shared by `sin256_ps`, `cos256_ps` and `sincos256_ps`.
    From the truncated octant count t = (int)(|x| * 4/pi) the kernels compute
    the even count j = (t + 1) & ~1, and from j the sign flags and the
    polynomial-selection mask.  Each is proved against a reference table
    indexed by the quadrant of j, and the SSE2 emulation of every stage is
    proved to give the lanes of the AVX2 form. */
module Quadrant {
  import opened Binary32
  import opened Simd
  import opened Shims
  import opened Constants

  // ---------------------------------------------------------------------------
  // The reference table.

  /** Round an integer up to the next even one (wrapping modulo 2^32). */
  function RoundUpToEven(t: Lane): (j: Lane)
    ensures j & 1 == 0
    ensures j == t || j == t + 1
  {
    EvenAfterIncrement(t);
    if t & 1 == 0 then t else t + 1
  }

  lemma EvenAfterIncrement(t: Lane)
    ensures t & 1 != 0 ==> (t + 1) & 1 == 0
  {
  }

  /** The quadrant of an even octant count j: j/2 modulo 4, bits 2..1 of j. */
  function QuadrantOf(j: Lane): (q: bv32)
    ensures q < 4
  {
    (j >> 1) & 3
  }

  /** sin(r + q*pi/2) is -sin or -cos of r in quadrants 2 and 3. */
  predicate SinNegated(q: bv32) {
    q == 2 || q == 3
  }

  /** sin(r + q*pi/2) is +-sin r in the even quadrants and +-cos r in the odd ones. */
  predicate SinUsesSinePolynomial(q: bv32) {
    q == 0 || q == 2
  }

  /** cos(r + q*pi/2) is negative-signed in quadrants 1 and 2. */
  predicate CosNegated(q: bv32) {
    q == 1 || q == 2
  }

  /** cos(r + q*pi/2) is +-cos r in the even quadrants and +-sin r in the odd ones. */
  predicate CosUsesSinePolynomial(q: bv32) {
    q == 1 || q == 3
  }

  /** The sign-bit flag a kernel XORs into its result. */
  function SignFlag(negate: bool): Lane {
    if negate then SignBit else 0
  }

  // ---------------------------------------------------------------------------
  // The bit operations of one lane, against the table.

  /** `(t + 1) & ~1` */
  lemma SnapLane(t: Lane)
    ensures AndLane(AddLane(t, Pi32One), Pi32Inv1) == RoundUpToEven(t)
  {
    SnapEven(t);
    SnapOdd(t);
  }

  lemma SnapEven(t: Lane)
    ensures t & 1 == 0 ==> (t + 1) & 0xFFFF_FFFE == t
  {
  }

  lemma SnapOdd(t: Lane)
    ensures t & 1 != 0 ==> (t + 1) & 0xFFFF_FFFE == t + 1
  {
  }

  /** `(j & 4) << 29`: the sine's swap-sign flag. */
  lemma SinFlagLane(j: Lane)
    ensures ShiftLeftLane(AndLane(j, Pi32Four), 29) == SignFlag(SinNegated(QuadrantOf(j)))
  {
    SinFlagBits(j);
  }

  lemma SinFlagBits(j: Lane)
    ensures (j & 4) << 29 == (if (j >> 1) & 3 == 2 || (j >> 1) & 3 == 3 then 0x8000_0000 else 0)
  {
  }

  /** `cmpeq(j & 2, 0)`: the polynomial-selection mask of the sine. */
  lemma SinMaskLane(j: Lane)
    ensures EqMaskLane(AndLane(j, Pi32Two), Pi32Zero) == MaskOf(SinUsesSinePolynomial(QuadrantOf(j)))
  {
    SinMaskBits(j);
  }

  lemma SinMaskBits(j: Lane)
    ensures (j & 2 == 0) == ((j >> 1) & 3 == 0 || (j >> 1) & 3 == 2)
  {
  }

  /** `(~(j - 2) & 4) << 29`: the cosine's sign flag. */
  lemma CosFlagLane(j: Lane)
    ensures ShiftLeftLane(AndNotLane(SubLane(j, Pi32Two), Pi32Four), 29) == SignFlag(CosNegated(QuadrantOf(j)))
  {
    CosFlagBits(j);
  }

  lemma CosFlagBits(j: Lane)
    ensures (!(j - 2) & 4) << 29 == (if (j >> 1) & 3 == 1 || (j >> 1) & 3 == 2 then 0x8000_0000 else 0)
  {
  }

  /** `cmpeq((j - 2) & 2, 0)`: the polynomial-selection mask of the cosine. */
  lemma CosMaskLane(j: Lane)
    ensures EqMaskLane(AndLane(SubLane(j, Pi32Two), Pi32Two), Pi32Zero) == MaskOf(CosUsesSinePolynomial(QuadrantOf(j)))
  {
    CosMaskBits(j);
  }

  lemma CosMaskBits(j: Lane)
    ensures ((j - 2) & 2 == 0) == ((j >> 1) & 3 == 1 || (j >> 1) & 3 == 3)
  {
  }

  // ---------------------------------------------------------------------------
  // The octant stage of each kernel, in both builds.

  /** The integer results of an octant stage: the even count j (converted back
      to float for the reduction), the sign flag and the polynomial-selection
      mask, as the kernel casts them to `__m256`. */
  datatype Octant = Octant(j: Vec, sign: Vec, polyMask: Vec)

  /** The even count of every lane, as lines 464-467 compute it. */
  lemma SnapLanes(t: Vec, j: seq<Lane>)
    requires |j| == 8
    requires forall i :: 0 <= i < 8 ==> j[i] == AndLane(AddLane(t[i], Pi32One), Pi32Inv1)
    ensures forall i :: 0 <= i < 8 ==> j[i] == RoundUpToEven(t[i])
  {
    forall i | 0 <= i < 8
      ensures j[i] == RoundUpToEven(t[i])
    {
      SnapLane(t[i]);
    }
  }

  lemma SinLanes(j: Vec, sign: seq<Lane>, mask: seq<Lane>)
    requires |sign| == |mask| == 8
    requires forall i :: 0 <= i < 8 ==> sign[i] == ShiftLeftLane(AndLane(j[i], Pi32Four), 29)
    requires forall i :: 0 <= i < 8 ==> mask[i] == EqMaskLane(AndLane(j[i], Pi32Two), Pi32Zero)
    ensures forall i :: 0 <= i < 8 ==>
      sign[i] == SignFlag(SinNegated(QuadrantOf(j[i]))) &&
      mask[i] == MaskOf(SinUsesSinePolynomial(QuadrantOf(j[i])))
  {
    forall i | 0 <= i < 8
      ensures sign[i] == SignFlag(SinNegated(QuadrantOf(j[i])))
      ensures mask[i] == MaskOf(SinUsesSinePolynomial(QuadrantOf(j[i])))
    {
      SinFlagLane(j[i]);
      SinMaskLane(j[i]);
    }
  }

  lemma CosLanes(j: Vec, sign: seq<Lane>, mask: seq<Lane>)
    requires |sign| == |mask| == 8
    requires forall i :: 0 <= i < 8 ==> sign[i] == ShiftLeftLane(AndNotLane(SubLane(j[i], Pi32Two), Pi32Four), 29)
    requires forall i :: 0 <= i < 8 ==> mask[i] == EqMaskLane(AndLane(SubLane(j[i], Pi32Two), Pi32Two), Pi32Zero)
    ensures forall i :: 0 <= i < 8 ==>
      sign[i] == SignFlag(CosNegated(QuadrantOf(j[i]))) &&
      mask[i] == MaskOf(CosUsesSinePolynomial(QuadrantOf(j[i])))
  {
    forall i | 0 <= i < 8
      ensures sign[i] == SignFlag(CosNegated(QuadrantOf(j[i])))
      ensures mask[i] == MaskOf(CosUsesSinePolynomial(QuadrantOf(j[i])))
    {
      CosFlagLane(j[i]);
      CosMaskLane(j[i]);
    }
  }

  /** Lines 463-480 (and 691-707 of `sincos256_ps`), built with AVX2: from the
      truncated count t, the even count, the sine's sign flag and its mask. */
  function SinOctantAvx2(t: Vec): (r: Octant)
    ensures forall i :: 0 <= i < 8 ==>
      r.j[i] == RoundUpToEven(t[i]) &&
      r.sign[i] == SignFlag(SinNegated(QuadrantOf(r.j[i]))) &&
      r.polyMask[i] == MaskOf(SinUsesSinePolynomial(QuadrantOf(r.j[i])))
  {
    var j := And(CompAddEpi32(Avx2, t, Set1(Pi32One)), Set1(Pi32Inv1));
    var sign := CompSlliEpi32(Avx2, And(j, Set1(Pi32Four)), 29);
    var mask := CmpEqEpi32(And(j, Set1(Pi32Two)), Set1(Pi32Zero));
    SnapLanes(t, j);
    SinLanes(j, sign, mask);
    Octant(j, sign, mask)
  }

  /** Lines 483-508 (and 711-739 of `sincos256_ps`), built without AVX2: the
      same stage on the two halves; it gives the registers of the AVX2 build. */
  function SinOctantSse2(t: Vec): (r: Octant)
    ensures r == SinOctantAvx2(t)
  {
    var (t1, t2) := CopyImmToXmm(t);
    var j1 := And(AddEpi32(t1, Set1Xmm(Pi32One)), Set1Xmm(Pi32Inv1));
    var j2 := And(AddEpi32(t2, Set1Xmm(Pi32One)), Set1Xmm(Pi32Inv1));
    var j := CopyXmmToImm(j1, j2);
    var s1 := SlliEpi32(And(j1, Set1Xmm(Pi32Four)), 29);
    var s2 := SlliEpi32(And(j2, Set1Xmm(Pi32Four)), 29);
    var m1 := CmpEqEpi32(And(j1, Set1Xmm(Pi32Two)), Set1Xmm(Pi32Zero));
    var m2 := CmpEqEpi32(And(j2, Set1Xmm(Pi32Two)), Set1Xmm(Pi32Zero));
    var r := Octant(j, CopyXmmToImm(s1, s2), CopyXmmToImm(m1, m2));
    SameOctant(r, SinOctantAvx2(t));
    r
  }

  /** `sin256_ps`'s octant stage in either build. */
  function SinOctant(isa: Isa, t: Vec): (r: Octant)
    ensures forall i :: 0 <= i < 8 ==>
      r.j[i] == RoundUpToEven(t[i]) &&
      r.sign[i] == SignFlag(SinNegated(QuadrantOf(r.j[i]))) &&
      r.polyMask[i] == MaskOf(SinUsesSinePolynomial(QuadrantOf(r.j[i])))
  {
    match isa
    case Avx2 => SinOctantAvx2(t)
    case Sse2 => SinOctantSse2(t)
  }

  /** Lines 574-586, built with AVX2: the even count, and from j - 2 the
      cosine's sign flag and its mask. */
  function CosOctantAvx2(t: Vec): (r: Octant)
    ensures forall i :: 0 <= i < 8 ==>
      r.j[i] == RoundUpToEven(t[i]) &&
      r.sign[i] == SignFlag(CosNegated(QuadrantOf(r.j[i]))) &&
      r.polyMask[i] == MaskOf(CosUsesSinePolynomial(QuadrantOf(r.j[i])))
  {
    var j := And(CompAddEpi32(Avx2, t, Set1(Pi32One)), Set1(Pi32Inv1));
    var k := CompSubEpi32(Avx2, j, Set1(Pi32Two));
    var sign := CompSlliEpi32(Avx2, AndNot(k, Set1(Pi32Four)), 29);
    var mask := CmpEqEpi32(And(k, Set1(Pi32Two)), Set1(Pi32Zero));
    SnapLanes(t, j);
    CosLanes(j, sign, mask);
    Octant(j, sign, mask)
  }

  /** Lines 590-618, built without AVX2; it gives the registers of the AVX2
      build. */
  function CosOctantSse2(t: Vec): (r: Octant)
    ensures r == CosOctantAvx2(t)
  {
    var (t1, t2) := CopyImmToXmm(t);
    var j1 := And(AddEpi32(t1, Set1Xmm(Pi32One)), Set1Xmm(Pi32Inv1));
    var j2 := And(AddEpi32(t2, Set1Xmm(Pi32One)), Set1Xmm(Pi32Inv1));
    var j := CopyXmmToImm(j1, j2);
    var k1 := SubEpi32(j1, Set1Xmm(Pi32Two));
    var k2 := SubEpi32(j2, Set1Xmm(Pi32Two));
    var s1 := SlliEpi32(AndNot(k1, Set1Xmm(Pi32Four)), 29);
    var s2 := SlliEpi32(AndNot(k2, Set1Xmm(Pi32Four)), 29);
    var m1 := CmpEqEpi32(And(k1, Set1Xmm(Pi32Two)), Set1Xmm(Pi32Zero));
    var m2 := CmpEqEpi32(And(k2, Set1Xmm(Pi32Two)), Set1Xmm(Pi32Zero));
    var r := Octant(j, CopyXmmToImm(s1, s2), CopyXmmToImm(m1, m2));
    SameOctant(r, CosOctantAvx2(t));
    r
  }

  /** `cos256_ps`'s octant stage in either build. */
  function CosOctant(isa: Isa, t: Vec): (r: Octant)
    ensures forall i :: 0 <= i < 8 ==>
      r.j[i] == RoundUpToEven(t[i]) &&
      r.sign[i] == SignFlag(CosNegated(QuadrantOf(r.j[i]))) &&
      r.polyMask[i] == MaskOf(CosUsesSinePolynomial(QuadrantOf(r.j[i])))
  {
    match isa
    case Avx2 => CosOctantAvx2(t)
    case Sse2 => CosOctantSse2(t)
  }

  /** Lines 754-756 of `sincos256_ps`, built with AVX2: the cosine's sign flag
      from the saved even count. */
  function CosSignAvx2(j: Vec): (r: Vec)
    ensures forall i :: 0 <= i < 8 ==> r[i] == SignFlag(CosNegated(QuadrantOf(j[i])))
  {
    var k := CompSubEpi32(Avx2, j, Set1(Pi32Two));
    var r := CompSlliEpi32(Avx2, AndNot(k, Set1(Pi32Four)), 29);
    CosSignLanes(j, r);
    r
  }

  lemma CosSignLanes(j: Vec, sign: seq<Lane>)
    requires |sign| == 8
    requires forall i :: 0 <= i < 8 ==> sign[i] == ShiftLeftLane(AndNotLane(SubLane(j[i], Pi32Two), Pi32Four), 29)
    ensures forall i :: 0 <= i < 8 ==> sign[i] == SignFlag(CosNegated(QuadrantOf(j[i])))
  {
    forall i | 0 <= i < 8
      ensures sign[i] == SignFlag(CosNegated(QuadrantOf(j[i])))
    {
      CosFlagLane(j[i]);
    }
  }

  /** Lines 758-767, built without AVX2, on the halves `imm4_1`, `imm4_2` saved
      at lines 722-723 (the halves of the even count); it gives the register of
      the AVX2 build. */
  function CosSignSse2(j: Vec): (r: Vec)
    ensures r == CosSignAvx2(j)
  {
    var (j1, j2) := CopyImmToXmm(j);
    var k1 := SubEpi32(j1, Set1Xmm(Pi32Two));
    var k2 := SubEpi32(j2, Set1Xmm(Pi32Two));
    var s1 := SlliEpi32(AndNot(k1, Set1Xmm(Pi32Four)), 29);
    var s2 := SlliEpi32(AndNot(k2, Set1Xmm(Pi32Four)), 29);
    var r := CopyXmmToImm(s1, s2);
    SameLanes(r, CosSignAvx2(j));
    r
  }

  /** The cosine's sign flag of `sincos256_ps` in either build. */
  function CosSign(isa: Isa, j: Vec): (r: Vec)
    ensures forall i :: 0 <= i < 8 ==> r[i] == SignFlag(CosNegated(QuadrantOf(j[i])))
  {
    match isa
    case Avx2 => CosSignAvx2(j)
    case Sse2 => CosSignSse2(j)
  }

  /** `sincos256_ps` keeps the even count of its sine stage and derives the
      cosine's sign flag from it (lines 754-767); that flag is, bit for bit,
      the one `cos256_ps` computes for the same input, and the two kernels
      start from the same even count.  The cosine's polynomial mask is the
      complement of the sine's, so the single mask of `sincos256_ps` selects
      both results. */
  lemma SinCosFlagsAgree(isa: Isa, t: Vec)
    ensures SinOctant(isa, t).j == CosOctant(isa, t).j
    ensures CosSign(isa, SinOctant(isa, t).j) == CosOctant(isa, t).sign
    ensures forall i :: 0 <= i < 8 ==> CosOctant(isa, t).polyMask[i] == !SinOctant(isa, t).polyMask[i]
  {
    CountsAgree(isa, t);
    CosSignsAgree(isa, t);
    MasksAgree(isa, t);
  }

  lemma CountsAgree(isa: Isa, t: Vec)
    ensures SinOctant(isa, t).j == CosOctant(isa, t).j
  {
    SameLanes(SinOctant(isa, t).j, CosOctant(isa, t).j);
  }

  lemma CosSignsAgree(isa: Isa, t: Vec)
    ensures CosSign(isa, SinOctant(isa, t).j) == CosOctant(isa, t).sign
  {
    CountsAgree(isa, t);
    CosSignLanesAgree(isa, SinOctant(isa, t).j, CosOctant(isa, t));
  }

  lemma CosSignLanesAgree(isa: Isa, j: Vec, c: Octant)
    requires j == c.j
    requires forall i :: 0 <= i < 8 ==> c.sign[i] == SignFlag(CosNegated(QuadrantOf(c.j[i])))
    ensures CosSign(isa, j) == c.sign
  {
    SameLanes(CosSign(isa, j), c.sign);
  }

  lemma MasksAgree(isa: Isa, t: Vec)
    ensures forall i :: 0 <= i < 8 ==> CosOctant(isa, t).polyMask[i] == !SinOctant(isa, t).polyMask[i]
  {
    CountsAgree(isa, t);
    MaskLanesAgree(SinOctant(isa, t), CosOctant(isa, t));
  }

  lemma MaskLanesAgree(s: Octant, c: Octant)
    requires s.j == c.j
    requires forall i :: 0 <= i < 8 ==> s.polyMask[i] == MaskOf(SinUsesSinePolynomial(QuadrantOf(s.j[i])))
    requires forall i :: 0 <= i < 8 ==> c.polyMask[i] == MaskOf(CosUsesSinePolynomial(QuadrantOf(c.j[i])))
    ensures forall i :: 0 <= i < 8 ==> c.polyMask[i] == !s.polyMask[i]
  {
    forall i | 0 <= i < 8
      ensures c.polyMask[i] == !s.polyMask[i]
    {
      MasksComplement(QuadrantOf(s.j[i]));
    }
  }

  lemma MasksComplement(q: bv32)
    requires q < 4
    ensures MaskOf(CosUsesSinePolynomial(q)) == !MaskOf(SinUsesSinePolynomial(q))
  {
  }

  lemma SameLanes(a: Vec, b: Vec)
    requires forall i :: 0 <= i < 8 ==> a[i] == b[i]
    ensures a == b
  {
  }

  lemma SameOctant(a: Octant, b: Octant)
    requires forall i :: 0 <= i < 8 ==> a.j[i] == b.j[i] && a.sign[i] == b.sign[i] && a.polyMask[i] == b.polyMask[i]
    ensures a == b
  {
    SameLanes(a.j, b.j);
    SameLanes(a.sign, b.sign);
    SameLanes(a.polyMask, b.polyMask);
  }
}
