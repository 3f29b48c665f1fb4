/** The `_mm256_comp_*` integer shims.  A build with AVX2 runs the 256-bit
    instruction itself; a build without it copies the register into its two
    128-bit halves, runs the SSE2 instruction on each half and copies the halves
    back (the AVX2_BITOP_USING_SSE2 and AVX2_INTOP_USING_SSE2 macros).  Each
    emulation is proved to give the eight lanes of the 256-bit instruction. */
module Shims {
  import opened Binary32
  import opened Simd

  /** Whether the build defines `__AVX2__`. */
  datatype Isa = Avx2 | Sse2

  // ---------------------------------------------------------------------------
  // The emulations of the SSE2 build.

  /** `_mm256_comp_slli_epi32` without AVX2. */
  function SplitSlliEpi32(x: Vec, count: int): (r: Vec)
    ensures r == SlliEpi32(x, count)
  {
    var (x1, x2) := CopyImmToXmm(x);
    CopyXmmToImm(SlliEpi32(x1, count), SlliEpi32(x2, count))
  }

  /** `_mm256_comp_srli_epi32` without AVX2. */
  function SplitSrliEpi32(x: Vec, count: int): (r: Vec)
    ensures r == SrliEpi32(x, count)
  {
    var (x1, x2) := CopyImmToXmm(x);
    CopyXmmToImm(SrliEpi32(x1, count), SrliEpi32(x2, count))
  }

  /** `_mm256_comp_cmpeq_epi32` without AVX2. */
  function SplitCmpEqEpi32(x: Vec, y: Vec): (r: Vec)
    ensures r == CmpEqEpi32(x, y)
  {
    var (x1, x2) := CopyImmToXmm(x);
    var (y1, y2) := CopyImmToXmm(y);
    CopyXmmToImm(CmpEqEpi32(x1, y1), CmpEqEpi32(x2, y2))
  }

  /** `_mm256_comp_sub_epi32` without AVX2. */
  function SplitSubEpi32(x: Vec, y: Vec): (r: Vec)
    ensures r == SubEpi32(x, y)
  {
    var (x1, x2) := CopyImmToXmm(x);
    var (y1, y2) := CopyImmToXmm(y);
    CopyXmmToImm(SubEpi32(x1, y1), SubEpi32(x2, y2))
  }

  /** `_mm256_comp_add_epi32` without AVX2. */
  function SplitAddEpi32(x: Vec, y: Vec): (r: Vec)
    ensures r == AddEpi32(x, y)
  {
    var (x1, x2) := CopyImmToXmm(x);
    var (y1, y2) := CopyImmToXmm(y);
    CopyXmmToImm(AddEpi32(x1, y1), AddEpi32(x2, y2))
  }

  /** `_mm256_comp_and_si128`, defined only without AVX2: the lanes of
      `_mm256_and_si256`. */
  function SplitAndSi128(x: Vec, y: Vec): (r: Vec)
    ensures r == And(x, y)
  {
    var (x1, x2) := CopyImmToXmm(x);
    var (y1, y2) := CopyImmToXmm(y);
    CopyXmmToImm(And(x1, y1), And(x2, y2))
  }

  /** `_mm256_comp_andnot_si128`, defined only without AVX2: the lanes of
      `_mm256_andnot_si256`. */
  function SplitAndNotSi128(x: Vec, y: Vec): (r: Vec)
    ensures r == AndNot(x, y)
  {
    var (x1, x2) := CopyImmToXmm(x);
    var (y1, y2) := CopyImmToXmm(y);
    CopyXmmToImm(AndNot(x1, y1), AndNot(x2, y2))
  }

  // ---------------------------------------------------------------------------
  // The shims as the kernels call them, in either build.

  function CompSlliEpi32(isa: Isa, x: Vec, count: int): (r: Vec)
    ensures r == SlliEpi32(x, count)
  {
    match isa
    case Avx2 => SlliEpi32(x, count)
    case Sse2 => SplitSlliEpi32(x, count)
  }

  function CompSrliEpi32(isa: Isa, x: Vec, count: int): (r: Vec)
    ensures r == SrliEpi32(x, count)
  {
    match isa
    case Avx2 => SrliEpi32(x, count)
    case Sse2 => SplitSrliEpi32(x, count)
  }

  function CompCmpEqEpi32(isa: Isa, x: Vec, y: Vec): (r: Vec)
    ensures r == CmpEqEpi32(x, y)
  {
    match isa
    case Avx2 => CmpEqEpi32(x, y)
    case Sse2 => SplitCmpEqEpi32(x, y)
  }

  function CompSubEpi32(isa: Isa, x: Vec, y: Vec): (r: Vec)
    ensures r == SubEpi32(x, y)
  {
    match isa
    case Avx2 => SubEpi32(x, y)
    case Sse2 => SplitSubEpi32(x, y)
  }

  function CompAddEpi32(isa: Isa, x: Vec, y: Vec): (r: Vec)
    ensures r == AddEpi32(x, y)
  {
    match isa
    case Avx2 => AddEpi32(x, y)
    case Sse2 => SplitAddEpi32(x, y)
  }
}
