/** Quantised gradient directions: the fixed-point angle classifier
    (src/blurdetect.cpp:38-71) and the two per-direction offset tables that
    non-maximum suppression (:184-187) and the edge-width walk (:236-243) use. */
module Directions {
  import opened BitDepth

  /** The four orientations in the source's enum order; DIRECTION_45UP is 0,
      which is also what a value-initialised direction buffer holds. */
  datatype Direction = Up45 | Down45 | Horizontal | Vertical

  /** The band test on the scaled, sign-normalised gradient: sy against the
      open bands cut by tan(pi/8) * gx and tan(3pi/8) * gx. */
  function Band(sy: int, tanPi8Gx: int, tan3Pi8Gx: int): Direction {
    if sy > -tan3Pi8Gx && sy < -tanPi8Gx then Up45
    else if sy > -tanPi8Gx && sy < tanPi8Gx then Horizontal
    else if sy > tanPi8Gx && sy < tan3Pi8Gx then Down45
    else Vertical
  }

  /** Buckets the gradient angle atan(gy / gx) in fixed point: the sign is
      normalised so that gx > 0, gy is scaled by the depth's unit and compared
      against tan(pi/8) * gx and tan(3pi/8) * gx in that unit. A zero gx, a
      slope outside the three open bands, and a slope exactly on a band edge all
      give Vertical. */
  function RoundedDirection(gx: int, gy: int, p: Profile): (d: Direction)
    ensures gx == 0 ==> d == Vertical
  {
    if gx != 0 then
      var ax := if gx < 0 then -gx else gx;
      var ay := if gx < 0 then -gy else gy;
      Band(ay * p.scaleCoef, p.scaleCoef1 * ax, p.scaleCoef2 * ax)
    else
      Vertical
  }

  /** Reference classification of a real slope against the tangent thresholds
      t1 = tan(pi/8) and t3 = tan(3pi/8), open bands, everything else vertical. */
  function SlopeBucket(slope: real, t1: real, t3: real): Direction {
    if -t3 < slope < -t1 then Up45
    else if -t1 < slope < t1 then Horizontal
    else if t1 < slope < t3 then Down45
    else Vertical
  }

  /** Comparing ay * sc with c * ax is comparing the slopes ay / ax and c / sc. */
  lemma CrossCompare(ay: int, ax: int, c: int, sc: int)
    requires ax > 0 && sc > 0
    ensures (ay * sc < c * ax) <==> ((ay as real) / (ax as real) < (c as real) / (sc as real))
    ensures (ay * sc > c * ax) <==> ((ay as real) / (ax as real) > (c as real) / (sc as real))
  {
    var ra, rx, rc, rs := ay as real, ax as real, c as real, sc as real;
    var k := rx * rs;
    assert k > 0.0;
    assert (ay * sc) as real == ra * rs && (c * ax) as real == rc * rx;
    assert ra / rx * k == ra * rs;
    assert rc / rs * k == rc * rx;
  }

  lemma BandMatchesSlope(sy: int, t1: int, t3: int, s: real, r1: real, r3: real)
    requires (sy < t1 <==> s < r1) && (sy > t1 <==> s > r1)
    requires (sy < -t1 <==> s < -r1) && (sy > -t1 <==> s > -r1)
    requires (sy < t3 <==> s < r3) && (sy > -t3 <==> s > -r3)
    ensures Band(sy, t1, t3) == SlopeBucket(s, r1, r3)
  {
  }

  lemma NegatedQuotient(a: int, b: int)
    requires b != 0
    ensures ((-a) as real) / ((-b) as real) == (a as real) / (b as real)
  {
    var ra, rb := a as real, b as real;
    assert (-ra) / (-rb) * rb == ra;
  }

  /** The fixed-point comparisons decide exactly what comparing the real slope
      gy / gx against scaleCoef1 / scaleCoef and scaleCoef2 / scaleCoef decides. */
  lemma FixedPointMatchesSlope(gx: int, gy: int, p: Profile)
    requires gx != 0 && p.scaleCoef > 0
    ensures RoundedDirection(gx, gy, p) ==
      SlopeBucket((gy as real) / (gx as real),
                  (p.scaleCoef1 as real) / (p.scaleCoef as real),
                  (p.scaleCoef2 as real) / (p.scaleCoef as real))
  {
    if gx < 0 {
      NegatedQuotient(gy, gx);
      NormalisedMatchesSlope(-gx, -gy, p.scaleCoef, p.scaleCoef1, p.scaleCoef2);
    } else {
      NormalisedMatchesSlope(gx, gy, p.scaleCoef, p.scaleCoef1, p.scaleCoef2);
    }
  }

  /** The band test on a gradient with ax > 0 against the slope ay / ax. */
  lemma NormalisedMatchesSlope(ax: int, ay: int, sc: int, c1: int, c3: int)
    requires ax > 0 && sc > 0
    ensures Band(ay * sc, c1 * ax, c3 * ax) ==
      SlopeBucket((ay as real) / (ax as real), (c1 as real) / (sc as real), (c3 as real) / (sc as real))
  {
    var s := (ay as real) / (ax as real);
    var r1, r3 := (c1 as real) / (sc as real), (c3 as real) / (sc as real);
    assert (ay * sc < c1 * ax <==> s < r1) && (ay * sc > c1 * ax <==> s > r1) by {
      CrossCompare(ay, ax, c1, sc);
    }
    assert (ay * sc < -(c1 * ax) <==> s < -r1) && (ay * sc > -(c1 * ax) <==> s > -r1) by {
      CrossCompare(ay, ax, -c1, sc);
      assert ((-c1) as real) / (sc as real) == -r1;
      assert (-c1) * ax == -(c1 * ax);
    }
    assert ay * sc < c3 * ax <==> s < r3 by {
      CrossCompare(ay, ax, c3, sc);
    }
    assert ay * sc > -(c3 * ax) <==> s > -r3 by {
      CrossCompare(ay, ax, -c3, sc);
      assert ((-c3) as real) / (sc as real) == -r3;
      assert (-c3) * ax == -(c3 * ax);
    }
    BandMatchesSlope(ay * sc, c1 * ax, c3 * ax, s, r1, r3);
  }

  /** Negating both gradients (turning the angle by 180 degrees) keeps the bucket. */
  lemma HalfTurnInvariant(gx: int, gy: int, p: Profile)
    ensures RoundedDirection(-gx, -gy, p) == RoundedDirection(gx, gy, p)
  {
  }

  /** Up45 and Down45 exchanged, the other two kept. */
  function Mirrored(d: Direction): Direction {
    match d
    case Up45 => Down45
    case Down45 => Up45
    case Horizontal => Horizontal
    case Vertical => Vertical
  }

  /** Reflecting the gradient vertically (gy to -gy) exchanges the diagonals. */
  lemma ReflectionSwapsDiagonals(gx: int, gy: int, p: Profile)
    requires p.scaleCoef1 >= 0
    ensures RoundedDirection(gx, -gy, p) == Mirrored(RoundedDirection(gx, gy, p))
  {
    if gx != 0 {
      var ay := if gx < 0 then -gy else gy;
      assert (-ay) * p.scaleCoef == -(ay * p.scaleCoef);
      var ax := if gx < 0 then -gx else gx;
      MulNonNegative(p.scaleCoef1, ax);
      BandReflection(ay * p.scaleCoef, p.scaleCoef1 * ax, p.scaleCoef2 * ax);
    }
  }

  lemma BandReflection(sy: int, t1: int, t3: int)
    requires 0 <= t1
    ensures Band(-sy, t1, t3) == Mirrored(Band(sy, t1, t3))
  {
  }

  /** A horizontal-only gradient (gy = 0, gx != 0) is classified Horizontal. */
  lemma NoVerticalGradientIsHorizontal(gx: int, p: Profile)
    requires gx != 0 && p.scaleCoef1 > 0
    ensures RoundedDirection(gx, 0, p) == Horizontal
  {
    var ax := if gx < 0 then -gx else gx;
    MulPositive(p.scaleCoef1, ax);
  }

  lemma MulNonNegative(a: int, b: int)
    requires a >= 0 && b >= 0
    ensures a * b >= 0
  {
  }

  lemma MulPositive(a: int, b: int)
    requires a > 0 && b > 0
    ensures a * b > 0
  {
  }

  /** The unit step the edge-width walk takes for each direction (dX, dY). */
  function WalkStep(d: Direction): (int, int) {
    match d
    case Horizontal => (1, 0)
    case Vertical => (0, 1)
    case Up45 => (1, -1)
    case Down45 => (1, 1)
  }

  /** The (ay, ax, by, bx) arguments suppression passes for each direction:
      neighbour A at (x + ax, y + ay), neighbour B at (x + bx, y + by). */
  function SuppressionOffsets(d: Direction): (int, int, int, int) {
    match d
    case Up45 => (1, -1, -1, 1)
    case Down45 => (-1, -1, 1, 1)
    case Horizontal => (0, -1, 0, 1)
    case Vertical => (-1, 0, 1, 0)
  }

  /** The two tables agree: suppression compares a pixel with the neighbours one
      walk step behind and one step ahead of it, with unit steps. */
  lemma SuppressionFlanksWalkStep(d: Direction)
    ensures var (dx, dy) := WalkStep(d);
      SuppressionOffsets(d) == (-dy, -dx, dy, dx) &&
      -1 <= dx <= 1 && -1 <= dy <= 1 && (dx, dy) != (0, 0)
  {
  }

  /** At 12 bits the misrounded tan(3pi/8) coefficient moves the band edge
      below a slope that lies inside the Down45 band: gy / gx = 6035 / 2500 is
      below sqrt(2) + 1, since (6035 - 2500)^2 < 2 * 2500^2, yet the profile as
      written classifies it Vertical; the corrected profile gives Down45. */
  lemma TwelveBitMisclassifiesSteepDiagonal()
    ensures (6035 - 2500) * (6035 - 2500) < 2 * 2500 * 2500
    ensures 6035 <= 4 * ProfileFor(12).peak
    ensures RoundedDirection(2500, 6035, ProfileAsWritten(12)) == Vertical
    ensures RoundedDirection(2500, 6035, ProfileFor(12)) == Down45
  {
  }
}
