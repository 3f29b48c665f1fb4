/** The rounded binary32 arithmetic the kernels call.  Its results are not
    defined here: a build supplies them as a record of lane functions, and the
    properties proved about the kernels hold for every such record, or for every
    record that meets a stated part of IEEE 754-2019. */
module FloatArith {
  import opened Binary32

  /** One lane of each arithmetic instruction the kernels use.  `fmadd` and
      `fnmadd` are the `_mm256_comp_fmadd_ps`/`_mm256_comp_fnmadd_ps` shims,
      `a * b + c` and `c - a * b`, fused or not depending on the build. */
  datatype Fp = Fp(
    add: (Lane, Lane) -> Lane,
    sub: (Lane, Lane) -> Lane,
    mul: (Lane, Lane) -> Lane,
    div: (Lane, Lane) -> Lane,
    fmadd: (Lane, Lane, Lane) -> Lane,
    fnmadd: (Lane, Lane, Lane) -> Lane,
    floor: Lane -> Lane,
    cvttToInt: Lane -> Lane,
    cvtToFloat: Lane -> Lane)

  /** The build without FMA: the shims multiply, round, then add (or subtract)
      and round again. */
  ghost predicate MultiplyThenAdd(fp: Fp) {
    (forall a, b, c :: fp.fmadd(a, b, c) == fp.add(fp.mul(a, b), c)) &&
    (forall a, b, c :: fp.fnmadd(a, b, c) == fp.sub(c, fp.mul(a, b)))
  }

  /** Two exact subtractions of IEEE 754-2019 (sections 6.3 and 5.4.1) in the
      default rounding: taking +0 away from a number leaves it unchanged, and a
      finite number minus itself is +0. */
  ghost predicate ExactSubtraction(fp: Fp) {
    (forall v :: !IsNaN(v) ==> fp.sub(v, PosZero) == v) &&
    (forall v :: IsFinite(v) ==> fp.sub(v, v) == PosZero)
  }

  /** Adding a zero to a nonzero number leaves it unchanged (section 6.3 of
      IEEE 754-2019: the sum is exact, so only a zero result could pick a sign). */
  ghost predicate ExactZeroAddition(fp: Fp) {
    forall v, z :: IsZero(z) && !IsNaN(v) && !IsZero(v) ==> fp.add(z, v) == v && fp.add(v, z) == v
  }

  /** `roundToIntegralTowardNegative` (section 5.3.1 of IEEE 754-2019): the
      floor of a number is a number that does not compare above it. */
  ghost predicate FloorRoundsDown(fp: Fp) {
    forall v :: !IsNaN(v) ==> !IsNaN(fp.floor(v)) && !Gt(fp.floor(v), v)
  }

  /** A product with a NaN operand is a NaN (section 6.2 of IEEE 754-2019). */
  ghost predicate MultiplyPropagatesNaN(fp: Fp) {
    forall a, b {:trigger fp.mul(a, b)} :: IsNaN(a) || IsNaN(b) ==> IsNaN(fp.mul(a, b))
  }

  // ---------------------------------------------------------------------------
  // The same operations on whole registers.

  function AddPs(fp: Fp, a: seq<Lane>, b: seq<Lane>): (r: seq<Lane>)
    requires |a| == |b|
    ensures |r| == |a|
    ensures forall i :: 0 <= i < |r| ==> r[i] == fp.add(a[i], b[i])
  {
    seq(|a|, i requires 0 <= i < |a| => fp.add(a[i], b[i]))
  }

  function SubPs(fp: Fp, a: seq<Lane>, b: seq<Lane>): (r: seq<Lane>)
    requires |a| == |b|
    ensures |r| == |a|
    ensures forall i :: 0 <= i < |r| ==> r[i] == fp.sub(a[i], b[i])
  {
    seq(|a|, i requires 0 <= i < |a| => fp.sub(a[i], b[i]))
  }

  function MulPs(fp: Fp, a: seq<Lane>, b: seq<Lane>): (r: seq<Lane>)
    requires |a| == |b|
    ensures |r| == |a|
    ensures forall i :: 0 <= i < |r| ==> r[i] == fp.mul(a[i], b[i])
  {
    seq(|a|, i requires 0 <= i < |a| => fp.mul(a[i], b[i]))
  }

  function DivPs(fp: Fp, a: seq<Lane>, b: seq<Lane>): (r: seq<Lane>)
    requires |a| == |b|
    ensures |r| == |a|
    ensures forall i :: 0 <= i < |r| ==> r[i] == fp.div(a[i], b[i])
  {
    seq(|a|, i requires 0 <= i < |a| => fp.div(a[i], b[i]))
  }

  function FmaddPs(fp: Fp, a: seq<Lane>, b: seq<Lane>, c: seq<Lane>): (r: seq<Lane>)
    requires |a| == |b| == |c|
    ensures |r| == |a|
    ensures forall i :: 0 <= i < |r| ==> r[i] == fp.fmadd(a[i], b[i], c[i])
  {
    seq(|a|, i requires 0 <= i < |a| => fp.fmadd(a[i], b[i], c[i]))
  }

  function FnmaddPs(fp: Fp, a: seq<Lane>, b: seq<Lane>, c: seq<Lane>): (r: seq<Lane>)
    requires |a| == |b| == |c|
    ensures |r| == |a|
    ensures forall i :: 0 <= i < |r| ==> r[i] == fp.fnmadd(a[i], b[i], c[i])
  {
    seq(|a|, i requires 0 <= i < |a| => fp.fnmadd(a[i], b[i], c[i]))
  }

  function FloorPs(fp: Fp, a: seq<Lane>): (r: seq<Lane>)
    ensures |r| == |a|
    ensures forall i :: 0 <= i < |r| ==> r[i] == fp.floor(a[i])
  {
    seq(|a|, i requires 0 <= i < |a| => fp.floor(a[i]))
  }

  /** `_mm256_cvttps_epi32` */
  function CvttPsEpi32(fp: Fp, a: seq<Lane>): (r: seq<Lane>)
    ensures |r| == |a|
    ensures forall i :: 0 <= i < |r| ==> r[i] == fp.cvttToInt(a[i])
  {
    seq(|a|, i requires 0 <= i < |a| => fp.cvttToInt(a[i]))
  }

  /** `_mm256_cvtepi32_ps` */
  function CvtEpi32Ps(fp: Fp, a: seq<Lane>): (r: seq<Lane>)
    ensures |r| == |a|
    ensures forall i :: 0 <= i < |r| ==> r[i] == fp.cvtToFloat(a[i])
  {
    seq(|a|, i requires 0 <= i < |a| => fp.cvtToFloat(a[i]))
  }
}
