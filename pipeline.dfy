/** One plane through the whole measurement, as the frame callback runs it
    (src/blurdetect.cpp:387-409): value-initialised work buffers, smoothing,
    gradients and directions, suppression, the in-place double threshold,
    and the pooled score. */
module Pipeline {
  import opened Plane
  import opened BitDepth
  import opened Directions
  import opened Gauss
  import opened Gradient
  import opened Suppression
  import opened Threshold
  import opened Pooling

  /** A value-initialised buffer of n samples. */
  function Zeros(n: nat): (r: seq<nat>)
    ensures |r| == n && AllZero(r)
  {
    seq(n, _ => 0)
  }

  /** The edge plane the pooling reads: the thresholded suppressed gradients. */
  function EdgePlane(smooth: seq<nat>, w: nat, h: nat, p: Profile, low: int, high: int): (r: seq<nat>)
    requires Shaped(smooth, w, h)
    ensures Shaped(r, w, h)
  {
    var grads := Gradients(smooth, w, h, Zeros(w * h));
    var dirs := DirectionsOf(smooth, w, h, p, seq(w * h, _ => Up45));
    Thresholded(Suppressed(grads, dirs, w, h, p.peak, Zeros(w * h)), w, h, low, high)
  }

  /** The blur score of one host plane. */
  function PlaneScore(src: seq<nat>, pitch: nat, w: nat, h: nat, p: Profile, low: int, high: int,
                      radius: int, pct: int, blockWidth: int, blockHeight: int): real
    requires Strided(src, pitch, w, h)
    requires BlockDimOk(blockWidth, w) && BlockDimOk(blockHeight, h) && 1 <= pct <= 100
  {
    var smooth := Blurred(src, pitch, w, h);
    var dirs := DirectionsOf(smooth, w, h, p, seq(w * h, _ => Up45));
    BlurScore(EdgePlane(smooth, w, h, p, low, high), dirs, smooth, w, h, radius, pct, blockWidth, blockHeight)
  }

  /** Suppression over a zeroed buffer and then thresholding leave the border
      zero, which is what makes the unchecked neighbour read of the edge-width
      walk safe. */
  lemma EdgePlaneBorderZero(smooth: seq<nat>, w: nat, h: nat, p: Profile, low: int, high: int)
    requires Shaped(smooth, w, h)
    ensures BorderZero(EdgePlane(smooth, w, h, p, low, high), w, h)
  {
    var grads := Gradients(smooth, w, h, Zeros(w * h));
    var dirs := DirectionsOf(smooth, w, h, p, seq(w * h, _ => Up45));
    SuppressionBorderZero(grads, dirs, w, h, p.peak, Zeros(w * h));
    BorderAndBoundKept(Suppressed(grads, dirs, w, h, p.peak, Zeros(w * h)), w, h, low, high, p.peak);
  }

  /** The measurement of one plane, with the source's buffers and calls. */
  method MeasurePlane(src: array<nat>, pitch: nat, w: nat, h: nat, p: Profile, low: int, high: int,
                      radius: int, pct: int, blockWidth: int, blockHeight: int) returns (score: real)
    requires 2 <= w && 4 <= h && Strided(src[..], pitch, w, h)
    requires BlockDimOk(blockWidth, w) && BlockDimOk(blockHeight, h) && 1 <= pct <= 100
    ensures score == PlaneScore(src[..], pitch, w, h, p, low, high, radius, pct, blockWidth, blockHeight)
  {
    var bufsize := w * h;
    var filterbuf := new nat[bufsize](_ => 0);
    var gradients := new nat[bufsize](_ => 0);
    var directions := new Direction[bufsize](_ => Up45);
    var tmpbuf := new nat[bufsize](_ => 0);
    assert gradients[..] == Zeros(w * h);
    assert directions[..] == seq(w * h, _ => Up45);
    assert tmpbuf[..] == Zeros(w * h);

    GaussianBlur(filterbuf, src, pitch, w, h);
    ghost var smooth := filterbuf[..];
    Sobel(gradients, directions, filterbuf, p, w, h);
    NonMaximumSuppression(tmpbuf, directions, gradients, w, h, p.peak);
    DoubleThreshold(tmpbuf, tmpbuf, w, h, low, high);
    assert tmpbuf[..] == EdgePlane(smooth, w, h, p, low, high);
    EdgePlaneBorderZero(smooth, w, h, p, low, high);
    score := CalculateBlur(directions, tmpbuf, filterbuf, w, h, radius, pct, blockWidth, blockHeight);
  }

  /** Whatever the plane, the score is 0 or lies in [0.7, 2 * radius]. */
  lemma PlaneScoreBounds(src: seq<nat>, pitch: nat, w: nat, h: nat, p: Profile, low: int, high: int,
                         radius: int, pct: int, blockWidth: int, blockHeight: int)
    requires Strided(src, pitch, w, h) && 0 <= radius
    requires BlockDimOk(blockWidth, w) && BlockDimOk(blockHeight, h) && 1 <= pct <= 100
    ensures var score := PlaneScore(src, pitch, w, h, p, low, high, radius, pct, blockWidth, blockHeight);
      score == 0.0 || 0.7 <= score <= (2 * radius) as real
  {
    var smooth := Blurred(src, pitch, w, h);
    var dirs := DirectionsOf(smooth, w, h, p, seq(w * h, _ => Up45));
    BlurScoreBounds(EdgePlane(smooth, w, h, p, low, high), dirs, smooth, w, h, radius, pct, blockWidth, blockHeight);
  }

  /** A flat plane has no edges and scores 0. */
  lemma FlatPlaneScoresZero(src: seq<nat>, pitch: nat, w: nat, h: nat, p: Profile, low: int, high: int,
                            radius: int, pct: int, blockWidth: int, blockHeight: int, c: nat)
    requires Strided(src, pitch, w, h) && FlatSource(src, pitch, w, h, c)
    requires BlockDimOk(blockWidth, w) && BlockDimOk(blockHeight, h) && 1 <= pct <= 100
    ensures PlaneScore(src, pitch, w, h, p, low, high, radius, pct, blockWidth, blockHeight) == 0.0
  {
    var smooth := Blurred(src, pitch, w, h);
    FlatPlaneUnchanged(src, pitch, w, h, c);
    var pd := seq(w * h, _ => Up45);
    var grads := Gradients(smooth, w, h, Zeros(w * h));
    var dirs := DirectionsOf(smooth, w, h, p, pd);
    forall q | 0 <= q < w * h
      ensures grads[q] == 0
    {
      CoordsOf(w, h, q);
      var x, y := ColOf(q, w), RowOf(q, w);
      OnlyInteriorWritten(smooth, w, h, p, Zeros(w * h), pd, x, y);
      if Interior(w, h, x, y) {
        FlatPlaneNoGradient(smooth, w, h, p, c, x, y);
      }
    }
    FlatGradientSuppressed(grads, dirs, w, h, p.peak, Zeros(w * h), 0);
    var edges := EdgePlane(smooth, w, h, p, low, high);
    OutputIsInputOrZero(Suppressed(grads, dirs, w, h, p.peak, Zeros(w * h)), w, h, low, high);
    NoEdgesScoreZero(edges, dirs, smooth, w, h, radius, pct, blockWidth, blockHeight);
  }
}
