/** The x86 vector instructions the kernels use, on the bits of their lanes.
    A `__m256`/`__m256i` register is eight 32-bit lanes and a `__m128i` register
    four, lane 0 first (the lowest-addressed 32 bits).  Every instruction used here
    works lane by lane, so each is one definition over sequences of any length,
    applied at width 8 for the `_mm256_` forms and at width 4 for the `_mm_` forms. */
module Simd {
  import opened Binary32

  type Vec = v: seq<Lane> | |v| == 8 witness [0, 0, 0, 0, 0, 0, 0, 0]
  type Xmm = v: seq<Lane> | |v| == 4 witness [0, 0, 0, 0]

  /** `n` copies of one lane: the `_PS256_CONST`/`_PI32_CONST256` tables at
      width 8, `_PI32AVX_CONST` at width 4, and `_mm256_set1_ps`. */
  function Broadcast(n: nat, c: Lane): (v: seq<Lane>)
    ensures |v| == n
    ensures forall i :: 0 <= i < n ==> v[i] == c
  {
    seq(n, _ => c)
  }

  function Set1(c: Lane): Vec {
    Broadcast(8, c)
  }

  function Set1Xmm(c: Lane): Xmm {
    Broadcast(4, c)
  }

  // ---------------------------------------------------------------------------
  // Integer and bitwise lane operations (`_mm256_*_epi32`, `_mm_*_epi32`,
  // `*_si128`, `*_si256`, and the bitwise `*_ps` forms, which act on bits).

  /** PADDD and PSUBD: 32-bit addition and subtraction, wrapping modulo 2^32. */
  function AddLane(x: Lane, y: Lane): Lane {
    x + y
  }

  function SubLane(x: Lane, y: Lane): Lane {
    x - y
  }

  function AndLane(x: Lane, y: Lane): Lane {
    x & y
  }

  /** ANDNOT complements its FIRST operand. */
  function AndNotLane(x: Lane, y: Lane): Lane {
    !x & y
  }

  function OrLane(x: Lane, y: Lane): Lane {
    x | y
  }

  function XorLane(x: Lane, y: Lane): Lane {
    x ^ y
  }

  /** PCMPEQD: all ones where the lanes are equal as integers, zero elsewhere. */
  function EqMaskLane(x: Lane, y: Lane): Lane {
    MaskOf(x == y)
  }

  // ---------------------------------------------------------------------------
  // Lane masks: the compare instructions produce all ones or all zeros, and the
  // kernels use such a mask to select bits without branching.

  function MaskOf(b: bool): Lane {
    if b then AllOnes else 0
  }

  /** AND with a mask keeps the lane or clears it, in either operand order. */
  lemma AndWithMask(x: Lane, b: bool)
    ensures AndLane(x, MaskOf(b)) == (if b then x else 0)
    ensures AndLane(MaskOf(b), x) == (if b then x else 0)
  {
  }

  /** ANDNOT with a mask as its first operand selects the opposite way. */
  lemma AndNotWithMask(x: Lane, b: bool)
    ensures AndNotLane(MaskOf(b), x) == (if b then 0 else x)
  {
  }

  /** OR with a mask either sets every bit or leaves the lane unchanged. */
  lemma OrWithMask(x: Lane, b: bool)
    ensures OrLane(x, MaskOf(b)) == (if b then AllOnes else x)
  {
  }

  function AddEpi32(a: seq<Lane>, b: seq<Lane>): (r: seq<Lane>)
    requires |a| == |b|
    ensures |r| == |a|
    ensures forall i :: 0 <= i < |r| ==> r[i] == AddLane(a[i], b[i])
  {
    seq(|a|, i requires 0 <= i < |a| => AddLane(a[i], b[i]))
  }

  function SubEpi32(a: seq<Lane>, b: seq<Lane>): (r: seq<Lane>)
    requires |a| == |b|
    ensures |r| == |a|
    ensures forall i :: 0 <= i < |r| ==> r[i] == SubLane(a[i], b[i])
  {
    seq(|a|, i requires 0 <= i < |a| => SubLane(a[i], b[i]))
  }

  function And(a: seq<Lane>, b: seq<Lane>): (r: seq<Lane>)
    requires |a| == |b|
    ensures |r| == |a|
    ensures forall i :: 0 <= i < |r| ==> r[i] == AndLane(a[i], b[i])
  {
    seq(|a|, i requires 0 <= i < |a| => AndLane(a[i], b[i]))
  }

  function AndNot(a: seq<Lane>, b: seq<Lane>): (r: seq<Lane>)
    requires |a| == |b|
    ensures |r| == |a|
    ensures forall i :: 0 <= i < |r| ==> r[i] == AndNotLane(a[i], b[i])
  {
    seq(|a|, i requires 0 <= i < |a| => AndNotLane(a[i], b[i]))
  }

  function Or(a: seq<Lane>, b: seq<Lane>): (r: seq<Lane>)
    requires |a| == |b|
    ensures |r| == |a|
    ensures forall i :: 0 <= i < |r| ==> r[i] == OrLane(a[i], b[i])
  {
    seq(|a|, i requires 0 <= i < |a| => OrLane(a[i], b[i]))
  }

  function Xor(a: seq<Lane>, b: seq<Lane>): (r: seq<Lane>)
    requires |a| == |b|
    ensures |r| == |a|
    ensures forall i :: 0 <= i < |r| ==> r[i] == XorLane(a[i], b[i])
  {
    seq(|a|, i requires 0 <= i < |a| => XorLane(a[i], b[i]))
  }

  function CmpEqEpi32(a: seq<Lane>, b: seq<Lane>): (r: seq<Lane>)
    requires |a| == |b|
    ensures |r| == |a|
    ensures forall i :: 0 <= i < |r| ==> r[i] == EqMaskLane(a[i], b[i])
  {
    seq(|a|, i requires 0 <= i < |a| => EqMaskLane(a[i], b[i]))
  }

  /** PSLLD with an immediate count: only the count's low eight bits are read,
      and a count above 31 clears the lane. */
  function ShiftLeftLane(x: Lane, count: int): Lane {
    var c := count % 256;
    if c > 31 then 0 else x << c
  }

  /** PSRLD with an immediate count: a logical shift, zeros come in at the top. */
  function ShiftRightLane(x: Lane, count: int): Lane {
    var c := count % 256;
    if c > 31 then 0 else x >> c
  }

  function SlliEpi32(a: seq<Lane>, count: int): (r: seq<Lane>)
    ensures |r| == |a|
    ensures forall i :: 0 <= i < |r| ==> r[i] == ShiftLeftLane(a[i], count)
  {
    seq(|a|, i requires 0 <= i < |a| => ShiftLeftLane(a[i], count))
  }

  function SrliEpi32(a: seq<Lane>, count: int): (r: seq<Lane>)
    ensures |r| == |a|
    ensures forall i :: 0 <= i < |r| ==> r[i] == ShiftRightLane(a[i], count)
  {
    seq(|a|, i requires 0 <= i < |a| => ShiftRightLane(a[i], count))
  }

  // ---------------------------------------------------------------------------
  // Exact floating-point lane operations: ordered comparisons and MAXPS/MINPS.

  /** Predicates of `_mm256_cmp_ps`: the `_CMP_*_OS` ones the kernels use are
      ordered, so a NaN operand makes them false; `_CMP_UNORD_Q` holds exactly
      when an operand is a NaN. */
  datatype CmpPredicate = LeOs | LtOs | GtOs | EqOs | UnordQ

  predicate Holds(p: CmpPredicate, a: Lane, b: Lane) {
    match p
    case LeOs => Le(a, b)
    case LtOs => Lt(a, b)
    case GtOs => Gt(a, b)
    case EqOs => Eq(a, b)
    case UnordQ => IsNaN(a) || IsNaN(b)
  }

  /** CMPPS: all ones where the predicate holds, zero elsewhere. */
  function CmpLane(p: CmpPredicate, x: Lane, y: Lane): Lane {
    MaskOf(Holds(p, x, y))
  }

  function CmpPs(a: seq<Lane>, b: seq<Lane>, p: CmpPredicate): (r: seq<Lane>)
    requires |a| == |b|
    ensures |r| == |a|
    ensures forall i :: 0 <= i < |r| ==> r[i] == CmpLane(p, a[i], b[i])
  {
    seq(|a|, i requires 0 <= i < |a| => CmpLane(p, a[i], b[i]))
  }
  /** OR with the unordered self-compare `cmp(x, x, _CMP_UNORD_Q)` turns the
      NaN lanes of x into the all-ones NaN and leaves every other lane of y. */
  lemma OrUnordered(x: Vec, y: Vec, r: seq<Lane>)
    requires |r| == 8
    requires forall i :: 0 <= i < 8 ==> r[i] == OrLane(y[i], CmpLane(UnordQ, x[i], x[i]))
    ensures forall i :: 0 <= i < 8 && IsNaN(x[i]) ==> r[i] == AllOnes && IsNaN(r[i])
    ensures forall i :: 0 <= i < 8 && !IsNaN(x[i]) ==> r[i] == y[i]
  {
    AllOnesIsNaN();
    forall i | 0 <= i < 8
      ensures r[i] == (if IsNaN(x[i]) then AllOnes else y[i])
    {
      OrWithMask(y[i], IsNaN(x[i]));
    }
  }


  function MaxPs(a: seq<Lane>, b: seq<Lane>): (r: seq<Lane>)
    requires |a| == |b|
    ensures |r| == |a|
    ensures forall i :: 0 <= i < |r| ==> r[i] == Max(a[i], b[i])
  {
    seq(|a|, i requires 0 <= i < |a| => Max(a[i], b[i]))
  }

  function MinPs(a: seq<Lane>, b: seq<Lane>): (r: seq<Lane>)
    requires |a| == |b|
    ensures |r| == |a|
    ensures forall i :: 0 <= i < |r| ==> r[i] == Min(a[i], b[i])
  {
    seq(|a|, i requires 0 <= i < |a| => Min(a[i], b[i]))
  }

  // ---------------------------------------------------------------------------
  // The two 128-bit halves of a 256-bit register, through the `imm_xmm_union`
  // of the SSE2 build: `xmm[0]` overlays lanes 0..3 and `xmm[1]` lanes 4..7.

  /** COPY_IMM_TO_XMM */
  function CopyImmToXmm(v: Vec): (halves: (Xmm, Xmm))
    ensures halves.0 + halves.1 == v
    ensures forall i :: 0 <= i < 4 ==> halves.0[i] == v[i] && halves.1[i] == v[i + 4]
  {
    (v[..4], v[4..])
  }

  /** COPY_XMM_TO_IMM */
  function CopyXmmToImm(lo: Xmm, hi: Xmm): (v: Vec)
    ensures v[..4] == lo && v[4..] == hi
    ensures forall i :: 0 <= i < 4 ==> v[i] == lo[i] && v[i + 4] == hi[i]
  {
    lo + hi
  }

  /** Splitting and recombining through the union are inverse to each other. */
  lemma CopyRoundTrip(v: Vec, lo: Xmm, hi: Xmm)
    ensures CopyXmmToImm(CopyImmToXmm(v).0, CopyImmToXmm(v).1) == v
    ensures CopyImmToXmm(CopyXmmToImm(lo, hi)) == (lo, hi)
  {
  }
}
