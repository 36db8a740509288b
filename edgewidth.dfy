/** The edge-width measurement (src/blurdetect.cpp:223-291): from an edge
    pixel, walk against and along its rounded direction for as long as the
    smoothed samples keep rising (or falling) away from the edge, at most
    `radius` steps each way. The width is the sum of the two step counts,
    scaled by 0.7 for the diagonal directions; a walk that would leave the
    plane makes the width zero. */
module EdgeWidth {
  import opened Plane
  import opened Directions

  /** How one walk ends: it stepped outside the plane, or it stopped after
      `steps` steps. */
  datatype Walk = Escaped | Stopped(steps: nat)

  /** The walk from pixel (cx, cy), which is step k of the walk, by (dx, dy) per
      step. The step to (cx + dx, cy + dy) is taken while the signed
      difference tmp = (sample here - sample there) * sign stays positive
      (backward walk) or negative (forward walk); a walk that has taken
      `radius` steps stops. */
  function WalkFrom(s: seq<nat>, w: nat, h: nat, cx: int, cy: int, dx: int, dy: int, sign: int,
                    radius: int, k: nat, forward: bool): (r: Walk)
    requires Shaped(s, w, h) && InPlane(w, h, cx, cy)
    decreases radius - k
  {
    if k >= radius then Stopped(k)
    else if !InPlane(w, h, cx + dx, cy + dy) then Escaped
    else
      var tmp := (At(s, w, h, cx, cy) as int - At(s, w, h, cx + dx, cy + dy)) * sign;
      if (forward && tmp >= 0) || (!forward && tmp <= 0) then Stopped(k)
      else WalkFrom(s, w, h, cx + dx, cy + dy, dx, dy, sign, radius, k + 1, forward)
  }

  /** A walk that stops has taken at least k and at most max(k, radius) steps. */
  lemma {:induction false} WalkBounded(s: seq<nat>, w: nat, h: nat, cx: int, cy: int, dx: int, dy: int, sign: int,
                                       radius: int, k: nat, forward: bool)
    requires Shaped(s, w, h) && InPlane(w, h, cx, cy)
    ensures WalkFrom(s, w, h, cx, cy, dx, dy, sign, radius, k, forward).Stopped? ==>
      k <= WalkFrom(s, w, h, cx, cy, dx, dy, sign, radius, k, forward).steps <= if k <= radius then radius else k
    decreases radius - k
  {
    if k < radius && InPlane(w, h, cx + dx, cy + dy) {
      WalkBounded(s, w, h, cx + dx, cy + dy, dx, dy, sign, radius, k + 1, forward);
    }
  }

  predicate Diagonal(d: Direction) {
    d == Up45 || d == Down45
  }

  /** 1 when the edge pixel is brighter than its neighbour one step back,
      else -1. */
  function Sign(s: seq<nat>, w: nat, h: nat, x: int, y: int, d: Direction): int
    requires Shaped(s, w, h) && InPlane(w, h, x, y)
    requires InPlane(w, h, x - WalkStep(d).0, y - WalkStep(d).1)
  {
    if At(s, w, h, x, y) > At(s, w, h, x - WalkStep(d).0, y - WalkStep(d).1) then 1 else -1
  }

  /** The two walks from an edge pixel with direction d. */
  function BackWalk(s: seq<nat>, w: nat, h: nat, x: int, y: int, d: Direction, radius: int): Walk
    requires Shaped(s, w, h) && InPlane(w, h, x, y)
    requires InPlane(w, h, x - WalkStep(d).0, y - WalkStep(d).1)
  {
    WalkFrom(s, w, h, x, y, -WalkStep(d).0, -WalkStep(d).1, Sign(s, w, h, x, y, d), radius, 0, false)
  }

  function ForwardWalk(s: seq<nat>, w: nat, h: nat, x: int, y: int, d: Direction, radius: int): Walk
    requires Shaped(s, w, h) && InPlane(w, h, x, y)
    requires InPlane(w, h, x - WalkStep(d).0, y - WalkStep(d).1)
  {
    WalkFrom(s, w, h, x, y, WalkStep(d).0, WalkStep(d).1, Sign(s, w, h, x, y, d), radius, 0, true)
  }

  /** The edge width at (x, y): zero when either walk escapes, otherwise the
      total step count, times 0.7 on the diagonals. The source reads the
      neighbour one step back before any bounds check, so that neighbour
      must lie in the plane. */
  function EdgeWidthOf(s: seq<nat>, w: nat, h: nat, x: int, y: int, d: Direction, radius: int): real
    requires Shaped(s, w, h) && InPlane(w, h, x, y)
    requires InPlane(w, h, x - WalkStep(d).0, y - WalkStep(d).1)
  {
    var back, fwd := BackWalk(s, w, h, x, y, d, radius), ForwardWalk(s, w, h, x, y, d, radius);
    if back.Escaped? || fwd.Escaped? then 0.0
    else
      var raw := (back.steps + fwd.steps) as real;
      if Diagonal(d) then raw * 0.7 else raw
  }

  /** Each walk takes between 0 and radius steps, so the width lies in
      [0, 2 * radius]; it is zero exactly when a walk escapes or both walks stop
      at once. */
  lemma EdgeWidthBounds(s: seq<nat>, w: nat, h: nat, x: int, y: int, d: Direction, radius: int)
    requires Shaped(s, w, h) && InPlane(w, h, x, y) && 0 <= radius
    requires InPlane(w, h, x - WalkStep(d).0, y - WalkStep(d).1)
    ensures BackWalk(s, w, h, x, y, d, radius).Stopped? ==> BackWalk(s, w, h, x, y, d, radius).steps <= radius
    ensures ForwardWalk(s, w, h, x, y, d, radius).Stopped? ==> ForwardWalk(s, w, h, x, y, d, radius).steps <= radius
    ensures 0.0 <= EdgeWidthOf(s, w, h, x, y, d, radius) <= (2 * radius) as real
    ensures EdgeWidthOf(s, w, h, x, y, d, radius) == 0.0 <==>
      (BackWalk(s, w, h, x, y, d, radius).Escaped? || ForwardWalk(s, w, h, x, y, d, radius).Escaped? ||
       BackWalk(s, w, h, x, y, d, radius).steps + ForwardWalk(s, w, h, x, y, d, radius).steps == 0)
  {
    var (dx, dy) := WalkStep(d);
    var sign := Sign(s, w, h, x, y, d);
    WalkBounded(s, w, h, x, y, -dx, -dy, sign, radius, 0, false);
    WalkBounded(s, w, h, x, y, dx, dy, sign, radius, 0, true);
  }

  /** A non-zero width is at least 0.7, so the pooling's `> 0.001` test keeps
      exactly the non-zero widths. */
  lemma NonZeroWidthIsAtLeastSevenTenths(s: seq<nat>, w: nat, h: nat, x: int, y: int, d: Direction, radius: int)
    requires Shaped(s, w, h) && InPlane(w, h, x, y)
    requires InPlane(w, h, x - WalkStep(d).0, y - WalkStep(d).1)
    ensures EdgeWidthOf(s, w, h, x, y, d, radius) != 0.0 ==> EdgeWidthOf(s, w, h, x, y, d, radius) >= 0.7
    ensures EdgeWidthOf(s, w, h, x, y, d, radius) > 0.001 <==> EdgeWidthOf(s, w, h, x, y, d, radius) != 0.0
  {
  }

  /** On a flat plane the width is zero: both walks stop before their first
      step, unless one escapes. */
  lemma FlatPlaneHasNoWidth(s: seq<nat>, w: nat, h: nat, x: int, y: int, d: Direction, radius: int, c: nat)
    requires Shaped(s, w, h) && InPlane(w, h, x, y)
    requires InPlane(w, h, x - WalkStep(d).0, y - WalkStep(d).1)
    requires forall q :: 0 <= q < |s| ==> s[q] == c
    ensures EdgeWidthOf(s, w, h, x, y, d, radius) == 0.0
  {
    var (dx, dy) := WalkStep(d);
    IndexOf(w, h, x, y);
    IndexOf(w, h, x - dx, y - dy);
    if InPlane(w, h, x + dx, y + dy) {
      IndexOf(w, h, x + dx, y + dy);
    }
  }

  /** k * u for a unit step u, without a product. */
  function Offset(k: int, u: int): int {
    if u == 1 then k else if u == -1 then -k else 0
  }

  lemma UnitTimes(k: int, u: int)
    requires -1 <= u <= 1
    ensures k * u == Offset(k, u)
  {
  }

  /** One unfolding of a walk that has steps left. */
  lemma WalkNext(s: seq<nat>, w: nat, h: nat, cx: int, cy: int, dx: int, dy: int, sign: int,
                 radius: int, k: nat, forward: bool, tmp: int)
    requires Shaped(s, w, h) && InPlane(w, h, cx, cy) && k < radius
    requires InPlane(w, h, cx + dx, cy + dy)
    requires tmp == (At(s, w, h, cx, cy) as int - At(s, w, h, cx + dx, cy + dy)) * sign
    ensures WalkFrom(s, w, h, cx, cy, dx, dy, sign, radius, k, forward) ==
      if (forward && tmp >= 0) || (!forward && tmp <= 0) then Stopped(k)
      else WalkFrom(s, w, h, cx + dx, cy + dy, dx, dy, sign, radius, k + 1, forward)
  {
  }

  /** One of the source's two search loops, from (i, j) by (dx, dy) per step:
      the pixel at step k is (i + k * dx, j + k * dy). It gives Escaped where
      the source returns 0, and otherwise the final k. */
  method Search(src: array<nat>, i: int, j: int, dx: int, dy: int, sign: int, w: nat, h: nat,
                radius: int, forward: bool) returns (r: Walk)
    requires src.Length == w * h && InPlane(w, h, i, j) && -1 <= dx <= 1 && -1 <= dy <= 1
    ensures r == WalkFrom(src[..], w, h, i, j, dx, dy, sign, radius, 0, forward)
  {
    ghost var S := src[..];
    ghost var walk := WalkFrom(S, w, h, i, j, dx, dy, sign, radius, 0, forward);
    ghost var cx, cy := i, j;
    var k := 0;
    while k < radius
      invariant 0 <= k && (k <= radius || k == 0)
      invariant cx == i + Offset(k, dx) && cy == j + Offset(k, dy)
      invariant InPlane(w, h, cx, cy)
      invariant walk == WalkFrom(S, w, h, cx, cy, dx, dy, sign, radius, k, forward)
    {
      UnitTimes(k, dx);
      UnitTimes(k, dy);
      var x, y := i + k * dx, j + k * dy;
      if x + dx < 0 || x + dx >= w || y + dy < 0 || y + dy >= h {
        assert walk == Escaped;
        return Escaped;
      }
      var tmp := SignedStep(src, w, h, x, y, dx, dy, sign);
      WalkNext(S, w, h, cx, cy, dx, dy, sign, radius, k, forward, tmp);
      if (forward && tmp >= 0) || (!forward && tmp <= 0) {
        break;
      }
      k := k + 1;
      cx, cy := x + dx, y + dy;
    }
    return Stopped(k);
  }

  /** The signed difference between the pixel at (x, y) and the next one along
      (dx, dy), as the search loops compute it. */
  method SignedStep(src: array<nat>, w: nat, h: nat, x: int, y: int, dx: int, dy: int, sign: int)
    returns (tmp: int)
    requires src.Length == w * h && InPlane(w, h, x, y) && InPlane(w, h, x + dx, y + dy)
    ensures tmp == (At(src[..], w, h, x, y) as int - At(src[..], w, h, x + dx, y + dy)) * sign
  {
    IndexOf(w, h, x, y);
    IndexOf(w, h, x + dx, y + dy);
    tmp := (src[Index(w, x, y)] as int - src[Index(w, x + dx, y + dy)]) * sign;
  }

  /** The source's edge_width on the smoothed plane src: the backward search,
      then the forward one, each giving zero if it leaves the plane. */
  method EdgeWidthAt(src: array<nat>, i: int, j: int, d: Direction, w: nat, h: nat, radius: int)
    returns (width: real)
    requires src.Length == w * h && InPlane(w, h, i, j)
    requires InPlane(w, h, i - WalkStep(d).0, j - WalkStep(d).1)
    ensures width == EdgeWidthOf(src[..], w, h, i, j, d, radius)
  {
    width := 0.0;
    var dX, dY;
    match d {
      case Horizontal => dX, dY := 1, 0;
      case Vertical => dX, dY := 0, 1;
      case Up45 => dX, dY := 1, -1;
      case Down45 => dX, dY := 1, 1;
    }
    IndexOf(w, h, i, j);
    IndexOf(w, h, i - dX, j - dY);
    var sign := if src[Index(w, i, j)] > src[Index(w, i - dX, j - dY)] then 1 else -1;
    assert (dX, dY) == WalkStep(d);
    assert sign == Sign(src[..], w, h, i, j, d);

    var back := Search(src, i, j, -dX, -dY, sign, w, h, radius, false);
    assert back == BackWalk(src[..], w, h, i, j, d, radius);
    if back.Escaped? {
      width := 0.0;
      return;
    }
    width := width + back.steps as real;

    var fwd := Search(src, i, j, dX, dY, sign, w, h, radius, true);
    assert fwd == ForwardWalk(src[..], w, h, i, j, d, radius);
    if fwd.Escaped? {
      width := 0.0;
      return;
    }
    width := width + fwd.steps as real;
    assert width == (back.steps + fwd.steps) as real;

    if d == Up45 || d == Down45 {
      width := width * 0.7;
    }
  }
}
