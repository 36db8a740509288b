/** The per-bit-depth constants chosen once when the filter is created: the
    peak sample value and the three fixed-point coefficients the angle
    classifier compares against (src/blurdetect.cpp:500-556). */
module BitDepth {

  /** peak: the largest sample value; scaleCoef: the fixed-point unit that gy is
      multiplied by; scaleCoef1, scaleCoef2: tan(pi/8) and tan(3pi/8) in that unit. */
  datatype Profile = Profile(peak: nat, scaleCoef: int, scaleCoef1: int, scaleCoef2: int)

  const Int32Min: int := -0x8000_0000
  const Int32Max: int := 0x7fff_ffff

  /** v is representable in the source's 32-bit signed int. */
  predicate FitsInt32(v: int) {
    Int32Min <= v <= Int32Max
  }

  function Pow2(n: nat): (r: nat)
    ensures r >= 1
  {
    if n == 0 then 1 else 2 * Pow2(n - 1)
  }

  /** Shifting by a then by b is shifting by a + b. */
  lemma {:induction false} Pow2Add(a: nat, b: nat)
    ensures Pow2(a + b) == Pow2(a) * Pow2(b)
  {
    if a > 0 {
      Pow2Add(a - 1, b);
      calc {
        Pow2(a + b);
        2 * Pow2(a - 1 + b);
        2 * (Pow2(a - 1) * Pow2(b));
        (2 * Pow2(a - 1)) * Pow2(b);
      }
    }
  }

  /** The bit depths a planar 8..16-bit clip can have. */
  predicate SupportedBits(bits: int) {
    bits == 8 || bits == 10 || bits == 12 || bits == 14 || bits == 16
  }

  /** The switch on the clip's bits per component as written; every depth other
      than 8, 10, 12 and 14 takes the 16-bit branch. The 12-bit tan(3pi/8)
      coefficient 9887 is not the rounded value its comment promises; see
      TwelveBitCoefficientMisrounded. */
  function ProfileAsWritten(bits: int): (p: Profile)
    ensures p.peak > 0 && 0 < p.scaleCoef1 < p.scaleCoef < p.scaleCoef2
    ensures NearestTanPi8(p.scaleCoef1, p.scaleCoef)
    ensures bits != 12 ==> NearestTan3Pi8(p.scaleCoef2, p.scaleCoef)
  {
    if bits == 8 then Profile(255, 65536, 27146, 158218)
    else if bits == 10 then Profile(1023, 16384, 6786, 39554)
    else if bits == 12 then Profile(4095, 4096, 1697, 9887)
    else if bits == 14 then Profile(16383, 1024, 424, 2472)
    else Profile(65535, 256, 106, 618)
  }

  /** The profile the rest of the model uses: the switch with the 12-bit
      tan(3pi/8) coefficient rounded as for every other depth. */
  function ProfileFor(bits: int): (p: Profile)
    ensures p.peak == ProfileAsWritten(bits).peak
    ensures p.scaleCoef == ProfileAsWritten(bits).scaleCoef
    ensures p.scaleCoef1 == ProfileAsWritten(bits).scaleCoef1
    ensures bits != 12 ==> p == ProfileAsWritten(bits)
  {
    if bits == 12 then Profile(4095, 4096, 1697, 9889) else ProfileAsWritten(bits)
  }

  /** c1 is the integer nearest to (sqrt(2) - 1) * c, that is
      |c1 + c - sqrt(2) * c| <= 1/2, squared so that it stays in integers. */
  predicate NearestTanPi8(c1: int, c: int) {
    var lo, hi := 2 * (c1 + c) - 1, 2 * (c1 + c) + 1;
    0 <= lo && lo * lo <= 8 * c * c <= hi * hi
  }

  /** c2 is the integer nearest to (sqrt(2) + 1) * c, that is
      |c2 - c - sqrt(2) * c| <= 1/2. */
  predicate NearestTan3Pi8(c2: int, c: int) {
    var lo, hi := 2 * (c2 - c) - 1, 2 * (c2 - c) + 1;
    0 <= lo && lo * lo <= 8 * c * c <= hi * hi
  }

  /** The coefficients keep the classifier's bands non-empty and ordered. */
  predicate WellFormed(p: Profile) {
    p.peak > 0 && 0 < p.scaleCoef1 < p.scaleCoef < p.scaleCoef2
  }

  /** For each supported depth the peak is 2^bits - 1, the fixed-point unit is
      1 << (16 - (bits - 8)), so that unit * 2^bits is always 2^24, and both
      coefficients are the rounded tangents. */
  lemma ProfileMatchesBitDepth(bits: int)
    requires SupportedBits(bits)
    ensures ProfileFor(bits).peak == Pow2(bits) - 1
    ensures ProfileFor(bits).scaleCoef == Pow2(16 - (bits - 8))
    ensures NearestTanPi8(ProfileFor(bits).scaleCoef1, ProfileFor(bits).scaleCoef)
    ensures NearestTan3Pi8(ProfileFor(bits).scaleCoef2, ProfileFor(bits).scaleCoef)
    ensures WellFormed(ProfileFor(bits))
    ensures ProfileFor(bits).scaleCoef * (ProfileFor(bits).peak + 1) == Pow2(24)
  {
    Pow2Add(16 - (bits - 8), bits);
    assert Pow2(8) == 256 && Pow2(10) == 1024 && Pow2(12) == 4096;
    assert Pow2(14) == 16384 && Pow2(16) == 65536;
  }

  /** Every depth, including the default branch, yields a well-formed profile. */
  lemma ProfileWellFormed(bits: int)
    ensures WellFormed(ProfileFor(bits))
  {
  }

  /** The 12-bit coefficient as written is not the rounded tan(3pi/8) * 4096
      (9888.6...), which the corrected profile's 9889 is. */
  lemma TwelveBitCoefficientMisrounded()
    ensures ProfileAsWritten(12).scaleCoef == 4096
    ensures !NearestTan3Pi8(ProfileAsWritten(12).scaleCoef2, 4096)
    ensures NearestTan3Pi8(ProfileFor(12).scaleCoef2, 4096)
  {
  }

  /** With |gx|, |gy| <= 4 * peak, the products the classifier forms, and their
      negations, stay inside a 32-bit signed int at every depth, for the
      corrected profile and for the switch as written, so the model's
      unbounded integers compute what the source's int arithmetic computes. */
  lemma ClassifierArithmeticFitsInt32(bits: int, gx: int, gy: int)
    requires var p := ProfileFor(bits); -4 * p.peak <= gx <= 4 * p.peak && -4 * p.peak <= gy <= 4 * p.peak
    ensures var p := ProfileFor(bits);
      FitsInt32(-gx) && FitsInt32(-gy) &&
      FitsInt32(gy * p.scaleCoef) && FitsInt32(-gy * p.scaleCoef) &&
      FitsInt32(p.scaleCoef1 * gx) && FitsInt32(-(p.scaleCoef1 * gx)) &&
      FitsInt32(p.scaleCoef2 * gx) && FitsInt32(-(p.scaleCoef2 * gx))
    ensures var q := ProfileAsWritten(bits);
      FitsInt32(gy * q.scaleCoef) && FitsInt32(-gy * q.scaleCoef) &&
      FitsInt32(q.scaleCoef1 * gx) && FitsInt32(-(q.scaleCoef1 * gx)) &&
      FitsInt32(q.scaleCoef2 * gx) && FitsInt32(-(q.scaleCoef2 * gx))
  {
  }
}
