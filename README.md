# avx_mathfun lane layer in Dafny

This project models the integer and bit-pattern layer of nncase's 8-lane AVX
elementary-function kernels in `src/kernels/cpu/optimized/x86_64/avx_mathfun.h`.
Those kernels are `log256_ps`, `exp256_ps`, `sin256_ps`, `cos256_ps`,
`sincos256_ps`, `tan256_ps` and `pow256_ps`, a port of Pommier's SSE
versions of the Cephes `logf`, `expf`, `sinf` and `cosf` routines.

## How the model is built

- **Lanes and registers.**
  - A lane is a `bv32` holding an IEEE 754-2019 binary32 encoding (section 3.4: 1 sign bit, 8 exponent bits, 23 trailing significand bits).
  - A `__m256`/`__m256i` register is a sequence of 8 lanes.
  - An `__m128i` half is a sequence of 4 lanes.
  - Casts between float and integer registers are the identity on bits.
- **Exact instructions.** These are defined on the bits:
  - the bitwise instructions;
  - 32-bit integer add, sub, shifts and `cmpeq` (wrapping modulo 2^32);
  - the ordered comparisons `_CMP_LE_OS`, `_CMP_LT_OS`, `_CMP_GT_OS`, `_CMP_EQ_OS`, which are false on NaN;
  - `max_ps`/`min_ps`, which return the second operand when either operand is NaN or both compare equal.
- **Rounded arithmetic.** add, sub, mul, div, the `comp_fmadd`/`comp_fnmadd` shims, floor and the two conversions form the record `FloatArith.Fp`.
  - Every kernel takes this record as a parameter, and every property holds for every such record.
  - A property that needs part of IEEE 754-2019 says so in a precondition. The available ones are `MultiplyThenAdd` (the build without FMA), `ExactSubtraction`, `ExactZeroAddition` and `MultiplyPropagatesNaN`.
- **Build choice.** Whether the build defines `__AVX2__` is the parameter `Shims.Isa`. The two builds are proved to compute the same registers.

## What is proved

- **Shims.** The SSE2 emulation of every `_mm256_comp_*` integer op (split into halves, apply, recombine) gives the lanes of the 256-bit op.
- **Quadrant logic.**
  - The snap `(j + 1) & ~1` is the even value j or j + 1.
  - The flags `(j & 4) << 29` and `(~(j - 2) & 4) << 29` are 0 or the sign bit, as the quadrant `(j >> 1) & 3` dictates.
  - The masks `cmpeq(j & 2, 0)` and `cmpeq((j - 2) & 2, 0)` are all-ones or zero as the quadrant dictates.
  - The cosine's mask is the complement of the sine's.
  - The cosine flag that `sincos256_ps` derives from its saved j is the flag `cos256_ps` computes.
- **Trig kernels.** `sin256_ps`, `cos256_ps` and `sincos256_ps` compute, lane by lane, a scalar Cephes-style reference: an even octant count, a three-part reduction, a polynomial chosen by the quadrant, and a sign.
  - The sine of `sincos256_ps` is `sin256_ps`.
  - sin is odd and cos is even, bit for bit.
- **log.**
  - The invalid mask is exactly the lanes `<= 0`.
  - The clamp gives a positive lane with a nonzero exponent field.
  - `(bits >> 23) - 127` is the unbiased exponent.
  - `(bits & ~0x7f800000) | 0.5f` keeps the sign and trailing significand and sets exponent field 126, so a normal x equals m * 2^(e+1) with m in [0.5, 1).
  - The mask, `and` and sub/add select, lane by lane, the arm of Cephes's `if (x < SQRTHF)` for the mantissa and the exponent.
  - Invalid lanes are forced to the all-ones NaN.
- **exp.**
  - The clamp is a saturation into [exp_lo, exp_hi].
  - `floor_ps` already rounds down. The compare, `and` and subtraction then take 1.0 away wherever that floor compares above the input, which an IEEE floor never does, so on a number the correction leaves the floor unchanged.
  - `(n + 127) << 23` is the encoding of 2^n for -126 <= n <= 127, +infinity for n = 128 and +0 for n = -127.
- **tan.** The guard adds `eps` exactly in the lanes whose cosine is a zero. The divisor is never a zero unless the cosine is a NaN.

## Where the code does not do what its names suggest

The model follows the code here. Three cases where it does not do what its comments promise are under "## Findings".

- **The cosine of `sincos256_ps` is not always `cos256_ps`.** `cos256_ps` writes its sine polynomial with separate `mul`/`add` (lines 647-654). `sincos256_ps` uses `comp_fmadd` (lines 788-792) and subtracts each polynomial from itself (lines 798-802). The two agree when the build multiplies and then adds, and every polynomial value is finite (`Trig.SinCosCosine`). With FMA the roundings may differ. An infinite polynomial value makes `y - y` a NaN.

## Findings

Each row names a member that models the code as written, with the input that shows the gap, and a corrected member with the intended property proved about it.

| source | as written | input that shows it | evidently intended | confidence | as-written member | corrected member |
|---|---|---|---|---|---|---|
| src/kernels/cpu/optimized/x86_64/avx_mathfun.h:251-253 | `cmp(x, 0, _CMP_LE_OS)` is false on NaN, and `max_ps(NaN, min_norm_pos)` is `min_norm_pos`, so a NaN lane is computed as log(2^-126) | every lane the quiet NaN 0x7FC00000 | a NaN lane gives NaN, like a lane `<= 0`: OR in `cmp(x, x, _CMP_UNORD_Q)` beside the invalid mask | not executed | Log.LogOfQuietNaN | Log.LogPropagatingNaN |
| src/kernels/cpu/optimized/x86_64/avx_mathfun.h:327-328 | `min_ps(NaN, exp_hi)` is `exp_hi`, so a NaN lane is computed as exp(exp_hi), about 2.4e38 | every lane the quiet NaN 0x7FC00000 | a NaN lane gives NaN: OR in `cmp(x, x, _CMP_UNORD_Q)` | not executed | Exp.ExpOfQuietNaN | Exp.ExpPropagatingNaN |
| src/kernels/cpu/optimized/x86_64/avx_mathfun.h:821-825 | the NaN `log256_ps` returns for a base `<= 0` is clamped to `exp_hi` by `exp256_ps`, so the power is about 2.4e38 whatever the exponent | every base lane -1.0, any exponent | a base `<= 0`, a NaN base or a NaN exponent gives NaN: compose the two corrected kernels | not executed | Pow.PowOfNotPositive | Pow.PowPropagatesNaN |

## Model

| member | source | states |
|---|---|---|
| Simd.CopyRoundTrip | src/kernels/cpu/optimized/x86_64/avx_mathfun.h:175-189 | splitting a 256-bit register into its two 128-bit halves and joining them back are inverse to each other |
| Simd.CopyImmToXmm | src/kernels/cpu/optimized/x86_64/avx_mathfun.h:175-181 | the low half holds lanes 0-3 and the high half lanes 4-7 of the register |
| Simd.CopyXmmToImm | src/kernels/cpu/optimized/x86_64/avx_mathfun.h:183-189 | the register's lanes 0-3 are the low half and lanes 4-7 the high half |
| Simd.AndWithMask | src/kernels/cpu/optimized/x86_64/avx_mathfun.h:545-546 | AND with a condition mask keeps the lane where the condition holds and gives 0 elsewhere |
| Simd.AndNotWithMask | src/kernels/cpu/optimized/x86_64/avx_mathfun.h:547 | ANDNOT with a condition mask gives 0 where the condition holds and keeps the lane elsewhere |
| Simd.OrWithMask | src/kernels/cpu/optimized/x86_64/avx_mathfun.h:303 | OR with a condition mask gives all-ones where the condition holds and keeps the lane elsewhere |
| Shims.SplitSlliEpi32 | src/kernels/cpu/optimized/x86_64/avx_mathfun.h:191-202 | the SSE2 emulation of `slli_epi32` on two halves gives the lanes of the 256-bit shift |
| Shims.SplitSrliEpi32 | src/kernels/cpu/optimized/x86_64/avx_mathfun.h:191-202 | the SSE2 emulation of `srli_epi32` gives the lanes of the 256-bit shift |
| Shims.SplitCmpEqEpi32 | src/kernels/cpu/optimized/x86_64/avx_mathfun.h:203-216 | the SSE2 emulation of `cmpeq_epi32` gives the lanes of the 256-bit compare |
| Shims.SplitSubEpi32 | src/kernels/cpu/optimized/x86_64/avx_mathfun.h:203-216 | the SSE2 emulation of `sub_epi32` gives the lanes of the 256-bit subtraction |
| Shims.SplitAddEpi32 | src/kernels/cpu/optimized/x86_64/avx_mathfun.h:203-216 | the SSE2 emulation of `add_epi32` gives the lanes of the 256-bit addition |
| Shims.SplitAndSi128 | src/kernels/cpu/optimized/x86_64/avx_mathfun.h:237-240 | the emulated `and` gives the lanes of the 256-bit AND |
| Shims.SplitAndNotSi128 | src/kernels/cpu/optimized/x86_64/avx_mathfun.h:237-240 | the emulated `andnot` gives the lanes of the 256-bit ANDNOT |
| Shims.CompSlliEpi32 | src/kernels/cpu/optimized/x86_64/avx_mathfun.h:218-230 | in either build, `_mm256_comp_slli_epi32` is the lane-wise shift |
| Shims.CompSrliEpi32 | src/kernels/cpu/optimized/x86_64/avx_mathfun.h:218-231 | in either build, `_mm256_comp_srli_epi32` is the lane-wise shift |
| Shims.CompCmpEqEpi32 | src/kernels/cpu/optimized/x86_64/avx_mathfun.h:223-232 | in either build, `_mm256_comp_cmpeq_epi32` is the lane-wise compare |
| Shims.CompSubEpi32 | src/kernels/cpu/optimized/x86_64/avx_mathfun.h:223-233 | in either build, `_mm256_comp_sub_epi32` is the lane-wise subtraction |
| Shims.CompAddEpi32 | src/kernels/cpu/optimized/x86_64/avx_mathfun.h:223-234 | in either build, `_mm256_comp_add_epi32` is the lane-wise addition |
| Constants.MaskTable | src/kernels/cpu/optimized/x86_64/avx_mathfun.h:141-153 | the inverse masks are the complements of the masks; `~1` is -2; the sign mask is the sign bit; the mantissa mask is the all-ones exponent field |
| Constants.MinNormPosIsSmallestNormal | src/kernels/cpu/optimized/x86_64/avx_mathfun.h:140-141 | `min_norm_pos` has exponent field 1 and a zero significand, the value 2^-126 |
| Constants.OneAndHalf | src/kernels/cpu/optimized/x86_64/avx_mathfun.h:138-139 | the encodings of 1.0 and 0.5 have those values; 0.5 has exponent field 126 |
| Constants.ExpBounds | src/kernels/cpu/optimized/x86_64/avx_mathfun.h:307-308 | `exp_lo` is `exp_hi` with the sign flipped, and it orders below it; neither is a NaN |
| Binary32.Abs | src/kernels/cpu/optimized/x86_64/avx_mathfun.h:448 | `x & inv_sign_mask` clears the sign and keeps the exponent and trailing significand |
| Binary32.SignOf | src/kernels/cpu/optimized/x86_64/avx_mathfun.h:450 | `x & sign_mask` is 0 or the sign bit, and the sign bit exactly when x is negative |
| Binary32.AbsSignSplit | src/kernels/cpu/optimized/x86_64/avx_mathfun.h:446-450 | the magnitude and sign parts share no bit, and their OR is the input |
| Binary32.FlipSign | src/kernels/cpu/optimized/x86_64/avx_mathfun.h:550 | XOR with a sign flag keeps the exponent and trailing significand, and changes the sign exactly when the flag is set |
| Binary32.FlipSignTwice | src/kernels/cpu/optimized/x86_64/avx_mathfun.h:550 | flipping the sign twice with the same flag restores the lane |
| Binary32.Max | src/kernels/cpu/optimized/x86_64/avx_mathfun.h:253 | `max_ps` returns one operand; when the second is a number the result is a number not below either; a NaN in either operand, or two operands that compare equal, give the second |
| Binary32.Min | src/kernels/cpu/optimized/x86_64/avx_mathfun.h:327 | `min_ps` returns one operand; when the second is a number the result is a number not above either; a NaN in either operand, or two operands that compare equal, give the second |
| Binary32.LeZero | src/kernels/cpu/optimized/x86_64/avx_mathfun.h:251 | the ordered `x <= 0` holds exactly for the zeros and the negative numbers |
| Binary32.EqZero | src/kernels/cpu/optimized/x86_64/avx_mathfun.h:814 | the ordered `x == 0` holds exactly for the two zeros |
| Log.InvalidMask | src/kernels/cpu/optimized/x86_64/avx_mathfun.h:251 | the mask is all-ones exactly in the lanes that are `<= 0` |
| Log.ClampToNormal | src/kernels/cpu/optimized/x86_64/avx_mathfun.h:253 | each lane is kept when above `min_norm_pos` and becomes `min_norm_pos` otherwise, NaN included; each result is positive with a nonzero exponent field |
| Log.UnbiasedExponent | src/kernels/cpu/optimized/x86_64/avx_mathfun.h:256-263 | for a lane with a clear sign bit, the result as a signed integer is the exponent field minus 127 |
| Log.Mantissa | src/kernels/cpu/optimized/x86_64/avx_mathfun.h:259-260 | the sign and trailing significand are kept and the exponent field becomes 126 |
| Log.SplitValue | src/kernels/cpu/optimized/x86_64/avx_mathfun.h:256-266 | a positive normal x is m * 2^(e+1), where m is the mantissa lane in [0.5, 1) and e the unbiased exponent |
| Log.ClampedSplit | src/kernels/cpu/optimized/x86_64/avx_mathfun.h:253-266 | on the clamped input, every normal lane splits into an exponent in [-126, 127] and a mantissa in [0.5, 1) |
| Log.SqrtHalfAdjust | src/kernels/cpu/optimized/x86_64/avx_mathfun.h:275-279 | the mask, and and sub/add select, lane by lane, the arm of Cephes's `if (x < SQRTHF)` (x + x - 1 and e - 1 below it, x - 1 and e otherwise), in the kernel's order of operations |
| Log.Log | src/kernels/cpu/optimized/x86_64/avx_mathfun.h:245-305 | every lane `<= 0` is the all-ones NaN; every other lane is the logarithm computed from the clamped input |
| Log.BuildsAgree | src/kernels/cpu/optimized/x86_64/avx_mathfun.h:245-305 | the AVX2 and SSE2 builds compute the same logarithm |
| Log.LogOfNaN | src/kernels/cpu/optimized/x86_64/avx_mathfun.h:251-253 | a NaN lane gives the same result as `min_norm_pos` |
| Log.LogOfQuietNaN | src/kernels/cpu/optimized/x86_64/avx_mathfun.h:251-253 | the quiet NaN is outside the invalid mask, clamps to `min_norm_pos`, and its logarithm is that of `min_norm_pos` |
| Log.LogPropagatingNaN | src/kernels/cpu/optimized/x86_64/avx_mathfun.h:242-253 | every lane `<= 0` or NaN is the all-ones NaN; every lane that is a number is the kernel's |
| Exp.ClampLane | src/kernels/cpu/optimized/x86_64/avx_mathfun.h:327-328 | `max(min(x, hi), lo)` is the saturation (NaN gives hi), and its result lies in [lo, hi] |
| Exp.ClampExp | src/kernels/cpu/optimized/x86_64/avx_mathfun.h:327-328 | every lane is saturated into [exp_lo, exp_hi] |
| Exp.FloorCorrected | src/kernels/cpu/optimized/x86_64/avx_mathfun.h:337-343 | the compare, and and subtraction give, lane by lane, the floor minus one where the floor compares above the input |
| Exp.PowerOfTwo | src/kernels/cpu/optimized/x86_64/avx_mathfun.h:362-366 | when n + 127 fits in 8 bits, the lane is the encoding with sign 0, exponent field n + 127 and a zero significand |
| Exp.ScaleMeaning | src/kernels/cpu/optimized/x86_64/avx_mathfun.h:362-366 | that encoding is 2^n for -126 <= n <= 127, +infinity exactly for n = 128 and +0 exactly for n = -127 |
| Exp.CorrectionIsInert | src/kernels/cpu/optimized/x86_64/avx_mathfun.h:334-343 | with an IEEE floor and exact subtraction of +0, the corrected floor of every number lane is `floor_ps` itself: the correction kept from the commented-out truncating conversion does nothing |
| Exp.ExpSaturates | src/kernels/cpu/optimized/x86_64/avx_mathfun.h:321-368 | the result depends on the input only through its saturated value |
| Exp.BoundsSaturateToThemselves | src/kernels/cpu/optimized/x86_64/avx_mathfun.h:307-308 | exp_hi and exp_lo saturate to themselves |
| Exp.BuildsAgree | src/kernels/cpu/optimized/x86_64/avx_mathfun.h:321-368 | the AVX2 and SSE2 builds compute the same exponential |
| Exp.ExpOfQuietNaN | src/kernels/cpu/optimized/x86_64/avx_mathfun.h:327-328 | the quiet NaN clamps to `exp_hi`, and its exponential is that of `exp_hi` |
| Exp.ExpPropagatingNaN | src/kernels/cpu/optimized/x86_64/avx_mathfun.h:321-328 | every NaN lane is the all-ones NaN; every lane that is a number is the kernel's |
| Pow.BuildsAgree | src/kernels/cpu/optimized/x86_64/avx_mathfun.h:821-825 | the AVX2 and SSE2 builds compute the same power |
| Pow.PowPropagatesNaN | src/kernels/cpu/optimized/x86_64/avx_mathfun.h:821-825 | with a NaN-propagating multiply, the intended power is the all-ones NaN in every lane whose base is `<= 0` or NaN or whose exponent is NaN |
| Pow.PowPropagatingNaNElsewhere | src/kernels/cpu/optimized/x86_64/avx_mathfun.h:821-825 | when no base lane is NaN, the intended power equals `pow256_ps` in every lane whose product `b * log(a)` is not NaN |
| Pow.PowOfNotPositive | src/kernels/cpu/optimized/x86_64/avx_mathfun.h:821-825 | with a NaN-propagating multiply, a base `<= 0` in every lane gives `exp256_ps(exp_hi)`, not NaN |
| Quadrant.RoundUpToEven | src/kernels/cpu/optimized/x86_64/avx_mathfun.h:464-467 | the snapped count is even, and it is j or j + 1 |
| Quadrant.SnapLane | src/kernels/cpu/optimized/x86_64/avx_mathfun.h:466-467 | `(j + 1) & ~1` is the even count |
| Quadrant.SinFlagLane | src/kernels/cpu/optimized/x86_64/avx_mathfun.h:471-472 | `(j & 4) << 29` is the sign bit exactly in quadrants 2 and 3, and 0 otherwise |
| Quadrant.SinMaskLane | src/kernels/cpu/optimized/x86_64/avx_mathfun.h:479-480 | `cmpeq(j & 2, 0)` is all-ones exactly in quadrants 0 and 2, and 0 otherwise |
| Quadrant.CosFlagLane | src/kernels/cpu/optimized/x86_64/avx_mathfun.h:579-583 | `(~(j - 2) & 4) << 29` is the sign bit exactly in quadrants 1 and 2, and 0 otherwise |
| Quadrant.CosMaskLane | src/kernels/cpu/optimized/x86_64/avx_mathfun.h:585-586 | `cmpeq((j - 2) & 2, 0)` is all-ones exactly in quadrants 1 and 3, and 0 otherwise |
| Quadrant.SinOctantAvx2 | src/kernels/cpu/optimized/x86_64/avx_mathfun.h:463-480 | every lane gets the even count, the sine's sign flag of its quadrant and the sine's polynomial mask |
| Quadrant.SinOctantSse2 | src/kernels/cpu/optimized/x86_64/avx_mathfun.h:483-508 | the SSE2 build gives the registers of the AVX2 build |
| Quadrant.SinOctant | src/kernels/cpu/optimized/x86_64/avx_mathfun.h:461-509 | in either build, the even count, sign flag and mask of every lane |
| Quadrant.CosOctantAvx2 | src/kernels/cpu/optimized/x86_64/avx_mathfun.h:574-586 | every lane gets the even count, the cosine's sign flag of its quadrant and the cosine's polynomial mask |
| Quadrant.CosOctantSse2 | src/kernels/cpu/optimized/x86_64/avx_mathfun.h:590-618 | the SSE2 build gives the registers of the AVX2 build |
| Quadrant.CosOctant | src/kernels/cpu/optimized/x86_64/avx_mathfun.h:572-619 | in either build, the even count, sign flag and mask of every lane |
| Quadrant.CosSignAvx2 | src/kernels/cpu/optimized/x86_64/avx_mathfun.h:754-756 | the cosine's sign flag of every lane's quadrant, from the saved even count |
| Quadrant.CosSignSse2 | src/kernels/cpu/optimized/x86_64/avx_mathfun.h:758-767 | the SSE2 build gives the register of the AVX2 build |
| Quadrant.CosSign | src/kernels/cpu/optimized/x86_64/avx_mathfun.h:753-768 | in either build, the cosine's sign flag of every lane |
| Quadrant.SinCosFlagsAgree | src/kernels/cpu/optimized/x86_64/avx_mathfun.h:698-767 | sincos's even count is cos256's, its cosine flag is bit for bit cos256's flag, and the cosine mask is the complement of the sine mask |
| Quadrant.MasksComplement | src/kernels/cpu/optimized/x86_64/avx_mathfun.h:579-586 | in every quadrant the cosine's mask is the bitwise complement of the sine's |
| Trig.Magnitudes | src/kernels/cpu/optimized/x86_64/avx_mathfun.h:448 | every lane is the input's magnitude |
| Trig.SignBits | src/kernels/cpu/optimized/x86_64/avx_mathfun.h:450 | every lane is the input's sign bit |
| Trig.Blend | src/kernels/cpu/optimized/x86_64/avx_mathfun.h:545-548 | under a mask of all-ones or 0 lanes, each lane is the polynomial the mask picks plus the +0 the other leaves |
| Trig.PickLane | src/kernels/cpu/optimized/x86_64/avx_mathfun.h:545-548 | `andnot(mask, y) + and(mask, y2)` under a condition mask is the pick of that condition |
| Trig.PickIsChosen | src/kernels/cpu/optimized/x86_64/avx_mathfun.h:548 | with IEEE addition, the pick is exactly the chosen polynomial when that is a nonzero number |
| Trig.Sin | src/kernels/cpu/optimized/x86_64/avx_mathfun.h:436-553 | every lane is the scalar sine: the quadrant's polynomial on the reduced argument, negated when the input's sign differs from the quadrant's |
| Trig.Cos | src/kernels/cpu/optimized/x86_64/avx_mathfun.h:556-665 | every lane is the scalar cosine: the quadrant's polynomial, negated in quadrants 1 and 2 whatever the input's sign |
| Trig.SinCos | src/kernels/cpu/optimized/x86_64/avx_mathfun.h:669-807 | the first result is the scalar sine in every lane; the second is each polynomial minus the sine's share of it, summed, with the cosine's sign |
| Trig.SinCosSine | src/kernels/cpu/optimized/x86_64/avx_mathfun.h:667-668 | the sine of `sincos256_ps` is `sin256_ps` |
| Trig.SinCosCosine | src/kernels/cpu/optimized/x86_64/avx_mathfun.h:667-668 | the cosine of `sincos256_ps` is `cos256_ps` for a multiply-then-add build with exact subtraction when both polynomials are finite |
| Trig.FusedSineIsUnfused | src/kernels/cpu/optimized/x86_64/avx_mathfun.h:647-654 | without FMA the two spellings of the sine polynomial agree |
| Trig.LeftoverIsPick | src/kernels/cpu/optimized/x86_64/avx_mathfun.h:796-802 | what the polynomials leave after the sine's pick is the cosine's pick in every quadrant, for finite polynomials |
| Trig.SinIsOdd | src/kernels/cpu/optimized/x86_64/avx_mathfun.h:446-550 | negating every input lane negates every lane of the sine, bit for bit |
| Trig.CosIsEven | src/kernels/cpu/optimized/x86_64/avx_mathfun.h:566-567 | negating every input lane leaves the cosine unchanged |
| Trig.BuildsAgree | src/kernels/cpu/optimized/x86_64/avx_mathfun.h:461-768 | the AVX2 and SSE2 builds compute the same sine, cosine and sincos |
| Tan.TanEpsIsPositiveNormal | src/kernels/cpu/optimized/x86_64/avx_mathfun.h:812 | `eps` is a positive normal number, neither NaN nor zero |
| Tan.GuardedDivisor | src/kernels/cpu/optimized/x86_64/avx_mathfun.h:814-816 | each lane is the cosine plus `eps` where the cosine is a zero, and plus +0 elsewhere |
| Tan.Tan | src/kernels/cpu/optimized/x86_64/avx_mathfun.h:809-819 | every lane is the sincos sine over the guarded sincos cosine |
| Tan.BuildsAgree | src/kernels/cpu/optimized/x86_64/avx_mathfun.h:809-819 | the AVX2 and SSE2 builds compute the same tangent |
| Tan.GuardNeverZero | src/kernels/cpu/optimized/x86_64/avx_mathfun.h:814-816 | with IEEE addition, a zero cosine becomes `eps` and a nonzero one is unchanged, so a non-NaN cosine never gives a zero divisor |
| Tan.TanDividesByCosine | src/kernels/cpu/optimized/x86_64/avx_mathfun.h:813-817 | the sine is divided by the cosine itself, or by `eps` where the cosine is a zero |

## Left out

- The rounded float arithmetic is left out: add, sub, mul, div, fused and unfused multiply-add, floor, and the float/int conversions. It is the uninterpreted record `Fp`, so no accuracy or value claim is made about any polynomial, reduction or result.
- The FMA shims `_mm256_comp_fmadd_ps`/`_mm256_comp_fnmadd_ps` and the helpers `_mm256_fmadd_1_ps`/`_mm256_fmrsub_1_ps` (lines 70-100) are float rounding only. They enter the model as `fp.fmadd`/`fp.fnmadd`. The non-FMA build is the precondition `MultiplyThenAdd`.
- The horizontal reductions `_mm256_reduce_add_ps`/`_mm256_reduce_max_ps` (lines 102-120) are left out. They are float add and max across lanes.
- `tanh256_ps` (lines 371-411) is left out: it is a rational function built only from float operations and a min/max clamp.
- The alignment, inline and include macros (lines 32-68) are left out.
- src/runtime/stackvm/ops/tensor.slice.cpp is not part of this model. It is VM dispatch into a kernel whose code is not available.
- Exp.Exp, Exp.ExpOfClamped, Log.LogOfNormal, Pow.Pow and Pow.PowPropagatingNaN are compositions of the stages above. They carry no contract of their own, because without a float semantics there is nothing further to state about their values.
- Exp.ScaleMeaning: the requirement "n + 127 fits in the exponent byte" is stated on the 32-bit lane. Its converse, from the integer range of n back to the bit condition, is not proved.
- Trig.SinCosCosine: it is stated only for the build without FMA and for finite polynomial values. With FMA the two kernels round the sine polynomial differently. For a polynomial value that is infinite, `y - y` is a NaN.
