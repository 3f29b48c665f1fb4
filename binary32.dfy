/** The IEEE 754 binary32 encoding of one 32-bit lane (section 3.4 of IEEE 754-2019):
    one sign bit, an 8-bit biased exponent field and a 23-bit trailing significand.
    A lane is only its 32 bits; reading it as a float or as a signed 32-bit integer
    is a change of view, never a conversion.  Ordered comparisons and the AVX
    min/max instructions are exact on these encodings and are defined here on bits. */
module Binary32 {

  type Lane = bv32

  const SignBit: Lane := 0x8000_0000
  const AllOnes: Lane := 0xFFFF_FFFF
  /** +0.0 */
  const PosZero: Lane := 0
  /** The default quiet NaN of the x86 floating-point unit. */
  const QuietNaN: Lane := 0x7FC0_0000

  function Sign(b: Lane): (s: bv32)
    ensures s <= 1
  {
    b >> 31
  }

  function Exponent(b: Lane): (e: bv32)
    ensures e <= 255
  {
    (b >> 23) & 0xFF
  }

  function Fraction(b: Lane): (f: bv32)
    ensures f < 0x80_0000
  {
    b & 0x7F_FFFF
  }

  /** The encoding with the given sign, biased exponent and trailing significand. */
  function Encode(s: bv32, e: bv32, f: bv32): (b: Lane)
    requires s <= 1 && e <= 255 && f < 0x80_0000
    ensures Sign(b) == s && Exponent(b) == e && Fraction(b) == f
  {
    EncodeFieldsBack(s, e, f);
    (s << 31) | (e << 23) | f
  }

  lemma EncodeFieldsBack(s: bv32, e: bv32, f: bv32)
    requires s <= 1 && e <= 255 && f < 0x80_0000
    ensures Sign((s << 31) | (e << 23) | f) == s
    ensures Exponent((s << 31) | (e << 23) | f) == e
    ensures Fraction((s << 31) | (e << 23) | f) == f
  {
    EncodeSign(s, e, f);
    EncodeExponent(s, e, f);
    EncodeFraction(s, e, f);
  }

  lemma EncodeSign(s: bv32, e: bv32, f: bv32)
    requires s <= 1 && e <= 255 && f < 0x80_0000
    ensures Sign((s << 31) | (e << 23) | f) == s
  {
  }

  lemma EncodeExponent(s: bv32, e: bv32, f: bv32)
    requires s <= 1 && e <= 255 && f < 0x80_0000
    ensures Exponent((s << 31) | (e << 23) | f) == e
  {
  }

  lemma EncodeFraction(s: bv32, e: bv32, f: bv32)
    requires s <= 1 && e <= 255 && f < 0x80_0000
    ensures Fraction((s << 31) | (e << 23) | f) == f
  {
  }

  /** The three fields determine the lane. */
  lemma EncodeFields(b: Lane)
    ensures Encode(Sign(b), Exponent(b), Fraction(b)) == b
  {
  }

  /** Everything but the sign bit. */
  function Magnitude(b: Lane): bv32 {
    b & 0x7FFF_FFFF
  }

  predicate IsNaN(b: Lane) {
    Exponent(b) == 255 && Fraction(b) != 0
  }

  predicate IsInf(b: Lane) {
    Exponent(b) == 255 && Fraction(b) == 0
  }

  predicate IsFinite(b: Lane) {
    Exponent(b) != 255
  }

  /** The all-ones lane, the mask the kernels OR in to force a NaN, is a NaN;
      so is the default quiet NaN. */
  lemma AllOnesIsNaN()
    ensures IsNaN(AllOnes) && IsNaN(QuietNaN)
  {
  }

  /** +0.0 or -0.0 */
  predicate IsZero(b: Lane) {
    Magnitude(b) == 0
  }

  predicate IsNormal(b: Lane) {
    1 <= Exponent(b) <= 254
  }

  /** v * 2^k, by doubling or halving |k| times. */
  ghost function Times2To(k: int, v: real): real
    decreases if k < 0 then -k else k
  {
    if k == 0 then v
    else if k > 0 then 2.0 * Times2To(k - 1, v)
    else Times2To(k + 1, v) / 2.0
  }

  /** Scaling commutes with doubling its operand. */
  lemma {:induction false} TimesTwoInside(k: int, v: real)
    ensures Times2To(k, 2.0 * v) == 2.0 * Times2To(k, v)
    decreases if k < 0 then -k else k
  {
    if k > 0 {
      TimesTwoInside(k - 1, v);
    } else if k < 0 {
      TimesTwoInside(k + 1, v);
    }
  }

  /** Moving a factor 2 from the operand to the exponent. */
  lemma ShiftFactor(k: int, v: real)
    ensures Times2To(k + 1, v) == Times2To(k, 2.0 * v)
  {
    TimesTwoInside(k, v);
    if k < -1 {
      assert Times2To(k + 1, v) == Times2To(k + 2, v) / 2.0;
    }
  }

  /** The real number a finite encoding stands for. */
  ghost function Value(b: Lane): real
    requires IsFinite(b)
  {
    ValueOfFields(Sign(b) as int, Exponent(b) as int, Fraction(b) as int)
  }

  /** The value of the fields read as integers: (-1)^s * 2^(e-127) * 1.f for a
      normal exponent, (-1)^s * 2^-126 * 0.f for the zero exponent. */
  ghost function ValueOfFields(s: int, e: int, f: int): real
  {
    var magnitude :=
      if e == 0 then Times2To(e - 126, FractionValue(f))
      else Times2To(e - 127, 1.0 + FractionValue(f));
    if s == 1 then -magnitude else magnitude
  }

  /** A trailing significand read as the binary fraction 0.f. */
  ghost function FractionValue(f: int): real {
    f as real / 8388608.0
  }

  /** The value seen through the integer fields. */
  lemma ValueFields(b: Lane)
    requires IsFinite(b)
    ensures Value(b) == ValueOfFields(Sign(b) as int, Exponent(b) as int, Fraction(b) as int)
  {
  }

  /** A trailing significand is below 2^23, so 0.f is below one. */
  lemma FractionBound(f: bv32)
    requires f < 0x80_0000
    ensures 0 <= f as int < 8388608
  {
    FractionWidth(f);
    Bv23Bound(f as bv23);
  }

  lemma FractionWidth(f: bv32)
    requires f < 0x80_0000
    ensures (f as bv23) as int == f as int
  {
  }

  lemma Bv23Bound(g: bv23)
    ensures g as int < 8388608
  {
  }

  /** The lane read as a two's-complement 32-bit integer (the `__m256i` view). */
  function Int32(b: Lane): int {
    if b < 0x8000_0000 then b as int else b as int - 0x1_0000_0000
  }

  // ---------------------------------------------------------------------------
  // Ordered comparison.  Apart from NaN, binary32 values are ordered by sign and
  // then by magnitude bits, and the two zeros are equal; so the order of numbers
  // is the unsigned order of a key that puts 2^31 at zero, adds the magnitude
  // bits of a positive encoding and subtracts those of a negative one.  Every
  // comparison involving a NaN is false.

  function OrderKey(b: Lane): bv32 {
    if Sign(b) == 0 then 0x8000_0000 + Magnitude(b) else 0x8000_0000 - Magnitude(b)
  }

  predicate Eq(a: Lane, b: Lane) {
    !IsNaN(a) && !IsNaN(b) && OrderKey(a) == OrderKey(b)
  }

  predicate Lt(a: Lane, b: Lane) {
    !IsNaN(a) && !IsNaN(b) && OrderKey(a) < OrderKey(b)
  }

  predicate Le(a: Lane, b: Lane) {
    Lt(a, b) || Eq(a, b)
  }

  predicate Gt(a: Lane, b: Lane) {
    Lt(b, a)
  }

  /** The ordering is strict: irreflexive and asymmetric. */
  lemma LtIrreflexive(a: Lane)
    ensures !Lt(a, a)
  {
  }

  lemma LtAsymmetric(a: Lane, b: Lane)
    ensures Lt(a, b) ==> !Lt(b, a)
  {
    KeyAsymmetric(a, b);
  }

  lemma KeyAsymmetric(a: Lane, b: Lane)
    ensures OrderKey(a) < OrderKey(b) ==> !(OrderKey(b) < OrderKey(a))
  {
    UnsignedAsymmetric(OrderKey(a), OrderKey(b));
  }

  lemma UnsignedAsymmetric(x: bv32, y: bv32)
    ensures x < y ==> !(y < x)
  {
  }

  lemma PosZeroFacts()
    ensures OrderKey(PosZero) == 0x8000_0000
    ensures !IsNaN(PosZero) && IsZero(PosZero) && Sign(PosZero) == 0
  {
  }

  /** `x <= 0.0` holds exactly for the two zeros and every negative non-NaN. */
  lemma LeZero(a: Lane)
    ensures Le(a, PosZero) <==> IsZero(a) || (Sign(a) == 1 && !IsNaN(a))
  {
    LtZero(a);
    EqZero(a);
  }

  /** `x < 0.0` holds exactly for the negative non-NaN encodings other than -0. */
  lemma LtZero(a: Lane)
    ensures Lt(a, PosZero) <==> Sign(a) == 1 && Magnitude(a) != 0 && !IsNaN(a)
  {
    PosZeroFacts();
    KeyBelowZero(a);
  }

  /** `x == 0.0` holds exactly for the two zeros. */
  lemma EqZero(a: Lane)
    ensures Eq(a, PosZero) <==> IsZero(a)
  {
    PosZeroFacts();
    KeyAtZero(a);
    ZeroNotNaN(a);
  }

  lemma ZeroNotNaN(a: Lane)
    ensures Magnitude(a) == 0 ==> !IsNaN(a)
  {
  }

  lemma KeyBelowZero(a: Lane)
    ensures OrderKey(a) < OrderKey(PosZero) <==> Sign(a) == 1 && Magnitude(a) != 0
  {
    PosZeroFacts();
    KeyBelowHalf(a);
  }

  lemma KeyBelowHalf(a: Lane)
    ensures OrderKey(a) < 0x8000_0000 <==> Sign(a) == 1 && Magnitude(a) != 0
  {
  }

  lemma KeyAtZero(a: Lane)
    ensures OrderKey(a) == OrderKey(PosZero) <==> Magnitude(a) == 0
  {
    PosZeroFacts();
    KeyAtHalf(a);
  }

  lemma KeyAtHalf(a: Lane)
    ensures OrderKey(a) == 0x8000_0000 <==> Magnitude(a) == 0
  {
  }

  /** Distinct non-NaN encodings compare equal only when they are the two zeros. */
  lemma EqOnlyZeros(a: Lane, b: Lane)
    requires Eq(a, b) && a != b
    ensures IsZero(a) && IsZero(b)
  {
    KeyInjective(a, b);
  }

  /** Only the two zeros share a key. */
  lemma KeyInjective(a: Lane, b: Lane)
    requires OrderKey(a) == OrderKey(b)
    ensures a == b || (Magnitude(a) == 0 && Magnitude(b) == 0)
  {
    if Sign(a) == Sign(b) {
      SameSignKeys(a, b);
    } else if Sign(a) == 0 {
      OppositeSignKeys(a, b);
    } else {
      OppositeSignKeys(b, a);
    }
  }

  lemma SameSignKeys(a: Lane, b: Lane)
    requires OrderKey(a) == OrderKey(b) && Sign(a) == Sign(b)
    ensures a == b
  {
    SameSignMagnitudes(a, b);
    SignMagnitudeDetermine(a, b);
  }

  lemma SameSignMagnitudes(a: Lane, b: Lane)
    requires OrderKey(a) == OrderKey(b) && Sign(a) == Sign(b)
    ensures Magnitude(a) == Magnitude(b)
  {
    if Sign(a) == 0 {
      AddCancels(Magnitude(a), Magnitude(b));
    } else {
      SubCancels(Magnitude(a), Magnitude(b));
    }
  }

  lemma OppositeSignKeys(a: Lane, b: Lane)
    requires OrderKey(a) == OrderKey(b) && Sign(a) == 0 && Sign(b) == 1
    ensures Magnitude(a) == 0 && Magnitude(b) == 0
  {
    OppositeKeys(Magnitude(a), Magnitude(b));
  }

  lemma AddCancels(m: bv32, n: bv32)
    requires 0x8000_0000 + m == 0x8000_0000 + n
    ensures m == n
  {
  }

  lemma SubCancels(m: bv32, n: bv32)
    requires 0x8000_0000 - m == 0x8000_0000 - n
    ensures m == n
  {
  }

  lemma SignMagnitudeDetermine(a: Lane, b: Lane)
    requires Sign(a) == Sign(b) && Magnitude(a) == Magnitude(b)
    ensures a == b
  {
  }

  lemma OppositeKeys(m: bv32, n: bv32)
    requires m < 0x8000_0000 && n < 0x8000_0000 && 0x8000_0000 + m == 0x8000_0000 - n
    ensures m == 0 && n == 0
  {
  }

  /** MAXPS: the first operand when it is greater, otherwise the second; so a NaN
      in either operand, or two equal operands, give the second. */
  function Max(a: Lane, b: Lane): (r: Lane)
    ensures r == a || r == b
    ensures !IsNaN(b) ==> !IsNaN(r) && !Lt(r, a) && !Lt(r, b)
    ensures IsNaN(a) || IsNaN(b) ==> r == b
    ensures !Lt(a, b) && !Lt(b, a) ==> r == b
  {
    LtAsymmetric(a, b);
    LtIrreflexive(b);
    if Gt(a, b) then a else b
  }

  /** MINPS: the first operand when it is smaller, otherwise the second; so a
      NaN in either operand, or two equal operands, give the second. */
  function Min(a: Lane, b: Lane): (r: Lane)
    ensures r == a || r == b
    ensures !IsNaN(b) ==> !IsNaN(r) && !Gt(r, a) && !Gt(r, b)
    ensures IsNaN(a) || IsNaN(b) ==> r == b
    ensures !Lt(a, b) && !Lt(b, a) ==> r == b
  {
    LtAsymmetric(a, b);
    LtIrreflexive(b);
    if Lt(a, b) then a else b
  }

  // ---------------------------------------------------------------------------
  // The sign/magnitude split used by sin, cos and sincos.

  /** `x & 0x7FFFFFFF`: clears the sign bit and nothing else. */
  function Abs(b: Lane): (r: Lane)
    ensures Sign(r) == 0
    ensures Exponent(r) == Exponent(b) && Fraction(r) == Fraction(b)
  {
    AbsSign(b);
    AbsExponent(b);
    AbsFraction(b);
    b & 0x7FFF_FFFF
  }

  lemma AbsSign(b: Lane)
    ensures Sign(b & 0x7FFF_FFFF) == 0
  {
  }

  lemma AbsExponent(b: Lane)
    ensures Exponent(b & 0x7FFF_FFFF) == Exponent(b)
  {
  }

  lemma AbsFraction(b: Lane)
    ensures Fraction(b & 0x7FFF_FFFF) == Fraction(b)
  {
  }

  /** `x & 0x80000000`: keeps the sign bit and nothing else. */
  function SignOf(b: Lane): (r: Lane)
    ensures r == 0 || r == SignBit
    ensures r == SignBit <==> Sign(b) == 1
  {
    SignOfFlag(b);
    b & 0x8000_0000
  }

  lemma SignOfFlag(b: Lane)
    ensures b & 0x8000_0000 == 0 || b & 0x8000_0000 == SignBit
    ensures b & 0x8000_0000 == SignBit <==> Sign(b) == 1
  {
  }

  /** The two halves are disjoint and OR back to the lane. */
  lemma AbsSignSplit(b: Lane)
    ensures Abs(b) & SignOf(b) == 0
    ensures Abs(b) | SignOf(b) == b
  {
  }

  /** XOR with a sign flag: changes the sign bit exactly when the flag is set,
      and no other bit. */
  function FlipSign(b: Lane, flag: Lane): (r: Lane)
    requires flag == 0 || flag == SignBit
    ensures Magnitude(r) == Magnitude(b)
    ensures Exponent(r) == Exponent(b) && Fraction(r) == Fraction(b)
    ensures Sign(r) == Sign(b) <==> flag == 0
  {
    FlipKeepsMagnitude(b, flag);
    FlipKeepsExponent(b, flag);
    FlipKeepsFraction(b, flag);
    FlipSetsSign(b, flag);
    b ^ flag
  }

  lemma FlipKeepsMagnitude(b: Lane, flag: Lane)
    requires flag == 0 || flag == SignBit
    ensures Magnitude(b ^ flag) == Magnitude(b)
  {
  }

  lemma FlipKeepsExponent(b: Lane, flag: Lane)
    requires flag == 0 || flag == SignBit
    ensures Exponent(b ^ flag) == Exponent(b)
  {
  }

  lemma FlipKeepsFraction(b: Lane, flag: Lane)
    requires flag == 0 || flag == SignBit
    ensures Fraction(b ^ flag) == Fraction(b)
  {
  }

  lemma FlipSetsSign(b: Lane, flag: Lane)
    requires flag == 0 || flag == SignBit
    ensures Sign(b ^ flag) == Sign(b) <==> flag == 0
  {
  }

  /** Flipping twice with the same flag restores the lane. */
  lemma FlipSignTwice(b: Lane, flag: Lane)
    requires flag == 0 || flag == SignBit
    ensures FlipSign(FlipSign(b, flag), flag) == b
  {
  }

  /** Two sign flags combine by XOR into a sign flag. */
  lemma SignFlagsCombine(f: Lane, g: Lane)
    requires f == 0 || f == SignBit
    requires g == 0 || g == SignBit
    ensures f ^ g == 0 || f ^ g == SignBit
    ensures (f ^ g == SignBit) <==> (f == SignBit) != (g == SignBit)
  {
  }

  // ---------------------------------------------------------------------------
  // The integer view of a biased exponent.

  /** A lane whose biased value `n + 127` (mod 2^32) fits in eight bits holds a
      signed integer in [-127, 128], and that biased value is the integer plus 127. */
  lemma BiasedFitsInByte(n: Lane)
    requires n + 0x7F <= 0xFF
    ensures -127 <= Int32(n) <= 128
    ensures (n + 0x7F) as int == Int32(n) + 127
  {
  }

  /** Removing the bias from an 8-bit exponent field gives its signed meaning. */
  lemma Unbias(e: Lane)
    requires e <= 0xFF
    ensures Int32(e - 0x7F) == e as int - 127
  {
  }
}
