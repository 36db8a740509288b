/** The Sobel stage (src/blurdetect.cpp:73-99): for every interior pixel of the
    smoothed plane it stores the gradient magnitude |gx| + |gy| and the rounded
    direction; border cells of both output buffers keep what they held. */
module Gradient {
  import opened Plane
  import opened BitDepth
  import opened Directions

  /** The horizontal Sobel response at an interior pixel, in the source's term order. */
  function Gx(s: seq<nat>, w: nat, h: nat, x: int, y: int): int
    requires Shaped(s, w, h) && Interior(w, h, x, y)
  {
    -1 * (At(s, w, h, x - 1, y - 1) as int) + 1 * At(s, w, h, x + 1, y - 1)
    - 2 * At(s, w, h, x - 1, y) + 2 * At(s, w, h, x + 1, y)
    - 1 * At(s, w, h, x - 1, y + 1) + 1 * At(s, w, h, x + 1, y + 1)
  }

  /** The vertical Sobel response at an interior pixel, in the source's term order. */
  function Gy(s: seq<nat>, w: nat, h: nat, x: int, y: int): int
    requires Shaped(s, w, h) && Interior(w, h, x, y)
  {
    -1 * (At(s, w, h, x - 1, y - 1) as int) + 1 * At(s, w, h, x - 1, y + 1)
    - 2 * At(s, w, h, x, y - 1) + 2 * At(s, w, h, x, y + 1)
    - 1 * At(s, w, h, x + 1, y - 1) + 1 * At(s, w, h, x + 1, y + 1)
  }

  /** The gradient magnitude the stage stores. */
  function Magnitude(s: seq<nat>, w: nat, h: nat, x: int, y: int): nat
    requires Shaped(s, w, h) && Interior(w, h, x, y)
  {
    Abs(Gx(s, w, h, x, y)) + Abs(Gy(s, w, h, x, y))
  }

  /** The gradient buffer's cell after the pass: the magnitude inside, the
      previous content on the border. */
  function GradientAt(s: seq<nat>, w: nat, h: nat, prior: seq<nat>, x: int, y: int): nat
    requires Shaped(s, w, h) && Shaped(prior, w, h) && InPlane(w, h, x, y)
  {
    if Interior(w, h, x, y) then Magnitude(s, w, h, x, y) else At(prior, w, h, x, y)
  }

  /** The direction buffer's cell after the pass. */
  function DirectionAt(s: seq<nat>, w: nat, h: nat, p: Profile, prior: seq<Direction>, x: int, y: int): Direction
    requires Shaped(s, w, h) && Shaped(prior, w, h) && InPlane(w, h, x, y)
  {
    if Interior(w, h, x, y) then RoundedDirection(Gx(s, w, h, x, y), Gy(s, w, h, x, y), p)
    else At(prior, w, h, x, y)
  }

  /** The whole gradient buffer after the pass. */
  function Gradients(s: seq<nat>, w: nat, h: nat, prior: seq<nat>): (r: seq<nat>)
    requires Shaped(s, w, h) && Shaped(prior, w, h)
    ensures Shaped(r, w, h)
  {
    seq(w * h, q requires 0 <= q < w * h =>
      CoordsOf(w, h, q);
      GradientAt(s, w, h, prior, ColOf(q, w), RowOf(q, w)))
  }

  /** The whole direction buffer after the pass. */
  function DirectionsOf(s: seq<nat>, w: nat, h: nat, p: Profile, prior: seq<Direction>): (r: seq<Direction>)
    requires Shaped(s, w, h) && Shaped(prior, w, h)
    ensures Shaped(r, w, h)
  {
    seq(w * h, q requires 0 <= q < w * h =>
      CoordsOf(w, h, q);
      DirectionAt(s, w, h, p, prior, ColOf(q, w), RowOf(q, w)))
  }

  /** The stage writes the interior and nothing else: inside, the gradient
      buffer holds the magnitude and the direction buffer the rounded
      direction; every border cell keeps its previous value. */
  lemma OnlyInteriorWritten(s: seq<nat>, w: nat, h: nat, p: Profile, pg: seq<nat>, pd: seq<Direction>, x: int, y: int)
    requires Shaped(s, w, h) && Shaped(pg, w, h) && Shaped(pd, w, h) && InPlane(w, h, x, y)
    ensures Interior(w, h, x, y) ==> At(Gradients(s, w, h, pg), w, h, x, y) == Magnitude(s, w, h, x, y)
    ensures Interior(w, h, x, y) ==>
      At(DirectionsOf(s, w, h, p, pd), w, h, x, y) == RoundedDirection(Gx(s, w, h, x, y), Gy(s, w, h, x, y), p)
    ensures !Interior(w, h, x, y) ==> At(Gradients(s, w, h, pg), w, h, x, y) == At(pg, w, h, x, y)
    ensures !Interior(w, h, x, y) ==> At(DirectionsOf(s, w, h, p, pd), w, h, x, y) == At(pd, w, h, x, y)
  {
    IndexOf(w, h, x, y);
  }

  /** Every sample is at most peak. */
  predicate SamplesAtMost(s: seq<nat>, peak: nat) {
    forall q :: 0 <= q < |s| ==> s[q] <= peak
  }

  lemma SampleAtMost(s: seq<nat>, w: nat, h: nat, peak: nat, x: int, y: int)
    requires Shaped(s, w, h) && SamplesAtMost(s, peak) && InPlane(w, h, x, y)
    ensures At(s, w, h, x, y) <= peak
  {
    IndexOf(w, h, x, y);
  }

  /** With samples in [0, peak] both responses lie in [-4 * peak, 4 * peak],
      the bound the classifier's fixed-point arithmetic is sized for. The
      magnitude is at most 6 * peak: in each of the four sign combinations of
      gx and gy the two corners shared by both responses cancel. */
  lemma ResponsesBounded(s: seq<nat>, w: nat, h: nat, peak: nat, x: int, y: int)
    requires Shaped(s, w, h) && Interior(w, h, x, y) && SamplesAtMost(s, peak)
    ensures -4 * peak <= Gx(s, w, h, x, y) <= 4 * peak
    ensures -4 * peak <= Gy(s, w, h, x, y) <= 4 * peak
    ensures Magnitude(s, w, h, x, y) <= 6 * peak
  {
    SampleAtMost(s, w, h, peak, x - 1, y - 1);
    SampleAtMost(s, w, h, peak, x, y - 1);
    SampleAtMost(s, w, h, peak, x + 1, y - 1);
    SampleAtMost(s, w, h, peak, x - 1, y);
    SampleAtMost(s, w, h, peak, x + 1, y);
    SampleAtMost(s, w, h, peak, x - 1, y + 1);
    SampleAtMost(s, w, h, peak, x, y + 1);
    SampleAtMost(s, w, h, peak, x + 1, y + 1);
  }

  /** A plane of one value has no gradient: zero magnitude, Vertical direction. */
  lemma FlatPlaneNoGradient(s: seq<nat>, w: nat, h: nat, p: Profile, c: nat, x: int, y: int)
    requires Shaped(s, w, h) && Interior(w, h, x, y)
    requires forall q :: 0 <= q < |s| ==> s[q] == c
    ensures Gx(s, w, h, x, y) == 0 && Gy(s, w, h, x, y) == 0
    ensures Magnitude(s, w, h, x, y) == 0
    ensures RoundedDirection(Gx(s, w, h, x, y), Gy(s, w, h, x, y), p) == Vertical
  {
    IndexOf(w, h, x - 1, y - 1);
    IndexOf(w, h, x, y - 1);
    IndexOf(w, h, x + 1, y - 1);
    IndexOf(w, h, x - 1, y);
    IndexOf(w, h, x + 1, y);
    IndexOf(w, h, x - 1, y + 1);
    IndexOf(w, h, x, y + 1);
    IndexOf(w, h, x + 1, y + 1);
  }

  /** Run on a value-initialised (all-zero) gradient buffer, the pass leaves
      every border cell zero. */
  lemma ZeroedBorderStaysZero(s: seq<nat>, w: nat, h: nat, pg: seq<nat>)
    requires Shaped(s, w, h) && Shaped(pg, w, h) && AllZero(pg)
    ensures BorderZero(Gradients(s, w, h, pg), w, h)
  {
    forall x, y | InPlane(w, h, x, y) && !Interior(w, h, x, y)
      ensures At(Gradients(s, w, h, pg), w, h, x, y) == 0
    {
      OnlyInteriorWritten(s, w, h, Profile(1, 1, 0, 2), pg, seq(w * h, _ => Up45), x, y);
      IndexOf(w, h, x, y);
    }
  }

  /** The source's flat-buffer expressions for gx and gy around column x of the
      row starting at r are the responses at (x, y). */
  lemma ResponsesMatchSource(s: seq<nat>, w: nat, h: nat, x: int, y: int, r: int)
    requires Shaped(s, w, h) && Interior(w, h, x, y) && r == RowStart(y, w)
    ensures w <= r && r + w + w <= |s|
    ensures Gx(s, w, h, x, y) ==
      -1 * (s[r - w + (x - 1)] as int) + 1 * s[r - w + (x + 1)]
      - 2 * s[r + (x - 1)] + 2 * s[r + (x + 1)]
      - 1 * s[r + w + (x - 1)] + 1 * s[r + w + (x + 1)]
    ensures Gy(s, w, h, x, y) ==
      -1 * (s[r - w + (x - 1)] as int) + 1 * s[r + w + (x - 1)]
      - 2 * s[r - w + x] + 2 * s[r + w + x]
      - 1 * s[r - w + (x + 1)] + 1 * s[r + w + (x + 1)]
  {
    RowNeighbours(y, w);
    RowsFit(w, h, y + 2);
  }

  /** The pass's result in both buffers, cell by cell. */
  ghost predicate Targets(G: seq<nat>, D: seq<Direction>, s: seq<nat>, w: nat, h: nat, p: Profile,
                          pg: seq<nat>, pd: seq<Direction>)
    requires Shaped(s, w, h) && Shaped(pg, w, h) && Shaped(pd, w, h)
  {
    |G| == w * h && |D| == w * h &&
    forall y, x {:trigger Index(w, x, y)} | 0 <= y < h && 0 <= x < w ::
      Index(w, x, y) < w * h &&
      G[Index(w, x, y)] == GradientAt(s, w, h, pg, x, y) && D[Index(w, x, y)] == DirectionAt(s, w, h, p, pd, x, y)
  }

  lemma AllTargets(s: seq<nat>, w: nat, h: nat, p: Profile, pg: seq<nat>, pd: seq<Direction>)
    requires Shaped(s, w, h) && Shaped(pg, w, h) && Shaped(pd, w, h)
    ensures Targets(Gradients(s, w, h, pg), DirectionsOf(s, w, h, p, pd), s, w, h, p, pg, pd)
  {
    forall y, x | 0 <= y < h && 0 <= x < w
      ensures Index(w, x, y) < w * h
      ensures Gradients(s, w, h, pg)[Index(w, x, y)] == GradientAt(s, w, h, pg, x, y)
      ensures DirectionsOf(s, w, h, p, pd)[Index(w, x, y)] == DirectionAt(s, w, h, p, pd, x, y)
    {
      GradientCell(s, w, h, pg, x, y);
      DirectionCell(s, w, h, p, pd, x, y);
    }
  }

  lemma GradientCell(s: seq<nat>, w: nat, h: nat, pg: seq<nat>, x: int, y: int)
    requires Shaped(s, w, h) && Shaped(pg, w, h) && InPlane(w, h, x, y)
    ensures Index(w, x, y) < w * h
    ensures Gradients(s, w, h, pg)[Index(w, x, y)] == GradientAt(s, w, h, pg, x, y)
  {
    IndexOf(w, h, x, y);
  }

  lemma DirectionCell(s: seq<nat>, w: nat, h: nat, p: Profile, pd: seq<Direction>, x: int, y: int)
    requires Shaped(s, w, h) && Shaped(pd, w, h) && InPlane(w, h, x, y)
    ensures Index(w, x, y) < w * h
    ensures DirectionsOf(s, w, h, p, pd)[Index(w, x, y)] == DirectionAt(s, w, h, p, pd, x, y)
  {
    IndexOf(w, h, x, y);
  }

  /** Both buffers hold the pass's result below index k and their previous
      content from k on. */
  predicate Finished(g: seq<nat>, d: seq<Direction>, G: seq<nat>, D: seq<Direction>,
                     pg: seq<nat>, pd: seq<Direction>, k: int)
  {
    Agrees(g, G, 0, k) && Agrees(g, pg, k, |g|) && Agrees(d, D, 0, k) && Agrees(d, pd, k, |d|)
  }

  /** A border cell the pass does not write already holds its result in both
      buffers. */
  lemma KeptCell(g: seq<nat>, d: seq<Direction>, s: seq<nat>, w: nat, h: nat, p: Profile,
                 pg: seq<nat>, pd: seq<Direction>, G: seq<nat>, D: seq<Direction>, x: int, y: int, row: int)
    requires Shaped(s, w, h) && Shaped(pg, w, h) && Shaped(pd, w, h) && |g| == w * h && |d| == w * h
    requires Targets(G, D, s, w, h, p, pg, pd)
    requires InPlane(w, h, x, y) && !Interior(w, h, x, y) && row == RowStart(y, w)
    requires Finished(g, d, G, D, pg, pd, row + x)
    ensures Finished(g, d, G, D, pg, pd, row + x + 1)
  {
    assert Index(w, x, y) == row + x;
    assert G[row + x] == pg[row + x] && D[row + x] == pd[row + x];
    AgreesKeepPrior(g, G, pg, row + x);
    AgreesKeepPrior(d, D, pd, row + x);
  }

  /** The first and last rows are left as they were, which is their result. */
  lemma KeptRow(g: seq<nat>, d: seq<Direction>, s: seq<nat>, w: nat, h: nat, p: Profile,
                pg: seq<nat>, pd: seq<Direction>, G: seq<nat>, D: seq<Direction>, y: int, row: int)
    requires Shaped(s, w, h) && Shaped(pg, w, h) && Shaped(pd, w, h) && |g| == w * h && |d| == w * h
    requires Targets(G, D, s, w, h, p, pg, pd)
    requires 0 <= y < h && (y == 0 || y == h - 1) && row == RowStart(y, w)
    requires Finished(g, d, G, D, pg, pd, row)
    ensures Finished(g, d, G, D, pg, pd, row + w)
  {
    var x := 0;
    while x < w
      invariant 0 <= x <= w
      invariant Finished(g, d, G, D, pg, pd, row + x)
    {
      KeptCell(g, d, s, w, h, p, pg, pd, G, D, x, y, row);
      x := x + 1;
    }
  }

  /** The Sobel pass: fills the interior of mag and dir from the smoothed plane
      src and leaves their border cells as they were. */
  method Sobel(mag: array<nat>, dir: array<Direction>, src: array<nat>, p: Profile, w: nat, h: nat)
    requires mag != src && src.Length == w * h && mag.Length == w * h && dir.Length == w * h
    modifies mag, dir
    ensures mag[..] == Gradients(src[..], w, h, old(mag[..]))
    ensures dir[..] == DirectionsOf(src[..], w, h, p, old(dir[..]))
  {
    ghost var S, G0, D0 := src[..], mag[..], dir[..];
    AllTargets(S, w, h, p, G0, D0);
    SobelPass(mag, dir, src, p, w, h, S, G0, D0, Gradients(S, w, h, G0), DirectionsOf(S, w, h, p, D0));
  }

  /** The row loop of the pass, against its result G and D. */
  method SobelPass(mag: array<nat>, dir: array<Direction>, src: array<nat>, p: Profile, w: nat, h: nat,
                   ghost S: seq<nat>, ghost G0: seq<nat>, ghost D0: seq<Direction>,
                   ghost G: seq<nat>, ghost D: seq<Direction>)
    requires mag != src && src.Length == w * h && mag.Length == w * h && dir.Length == w * h
    requires src[..] == S && mag[..] == G0 && dir[..] == D0 && Targets(G, D, S, w, h, p, G0, D0)
    modifies mag, dir
    ensures mag[..] == G && dir[..] == D
  {
    if h == 0 {
      AgreesWhole(mag[..], G);
      AgreesWhole(dir[..], D);
      return;
    }
    RowsFit(w, h, 1);
    KeptRow(mag[..], dir[..], S, w, h, p, G0, D0, G, D, 0, 0);
    var j, row := InteriorRows(mag, dir, src, p, w, h, S, G0, D0, G, D);
    if h >= 2 {
      KeptRow(mag[..], dir[..], S, w, h, p, G0, D0, G, D, j, row);
      RowNeighbours(j, w);
      row := row + w;
    }
    RowStartIsProduct(h, w);
    assert h * w == w * h;
    AgreesWhole(mag[..], G);
    AgreesWhole(dir[..], D);
  }

  /** Rows 1 .. h - 2, after row 0 is finished. */
  method InteriorRows(mag: array<nat>, dir: array<Direction>, src: array<nat>, p: Profile, w: nat, h: nat,
                      ghost S: seq<nat>, ghost G0: seq<nat>, ghost D0: seq<Direction>,
                      ghost G: seq<nat>, ghost D: seq<Direction>) returns (j: nat, row: nat)
    requires mag != src && src.Length == w * h && mag.Length == w * h && dir.Length == w * h
    requires src[..] == S && Shaped(G0, w, h) && Shaped(D0, w, h) && Targets(G, D, S, w, h, p, G0, D0)
    requires 1 <= h && w <= w * h
    requires Finished(mag[..], dir[..], G, D, G0, D0, w)
    modifies mag, dir
    ensures j == if h >= 2 then h - 1 else 1
    ensures row == RowStart(j, w) && row <= w * h
    ensures Finished(mag[..], dir[..], G, D, G0, D0, row)
  {
    j, row := 1, w;
    while j < h - 1
      invariant 1 <= j && (j <= h - 1 || j == 1) && row == RowStart(j, w) && row <= w * h
      invariant src[..] == S
      invariant Finished(mag[..], dir[..], G, D, G0, D0, row)
    {
      RowsFit(w, h, j + 1);
      SobelRow(mag, dir, src, p, w, h, j, row, S, G0, D0, G, D);
      RowNeighbours(j, w);
      j, row := j + 1, row + w;
    }
  }

  /** The gradient magnitude and rounded direction at interior pixel (i, j),
      read from the flat buffer around the row starting at `row`. */
  method SobelAt(src: array<nat>, p: Profile, w: nat, h: nat, i: nat, j: nat, row: nat) returns (m: nat, dr: Direction)
    requires src.Length == w * h && Interior(w, h, i, j) && row == RowStart(j, w)
    ensures m == Magnitude(src[..], w, h, i, j)
    ensures dr == RoundedDirection(Gx(src[..], w, h, i, j), Gy(src[..], w, h, i, j), p)
  {
    ResponsesMatchSource(src[..], w, h, i, j, row);
    var gx := -1 * (src[row - w + (i - 1)] as int) + 1 * src[row - w + (i + 1)]
      - 2 * src[row + (i - 1)] + 2 * src[row + (i + 1)]
      - 1 * src[row + w + (i - 1)] + 1 * src[row + w + (i + 1)];
    var gy := -1 * (src[row - w + (i - 1)] as int) + 1 * src[row + w + (i - 1)]
      - 2 * src[row - w + i] + 2 * src[row + w + i]
      - 1 * src[row - w + (i + 1)] + 1 * src[row + w + (i + 1)];
    m := Abs(gx) + Abs(gy);
    dr := RoundedDirection(gx, gy, p);
  }

  /** The pass at interior pixel (i, j) extends the finished prefix of both
      buffers by one cell. */
  method SobelStep(mag: array<nat>, dir: array<Direction>, src: array<nat>, p: Profile, w: nat, h: nat,
                   i: nat, j: nat, row: nat, ghost S: seq<nat>, ghost G0: seq<nat>, ghost D0: seq<Direction>,
                   ghost G: seq<nat>, ghost D: seq<Direction>)
    requires mag != src && src.Length == w * h && mag.Length == w * h && dir.Length == w * h
    requires src[..] == S && Shaped(G0, w, h) && Shaped(D0, w, h) && |G| == w * h && |D| == w * h
    requires Interior(w, h, i, j) && row == RowStart(j, w) && Index(w, i, j) < w * h
    requires G[Index(w, i, j)] == GradientAt(S, w, h, G0, i, j)
    requires D[Index(w, i, j)] == DirectionAt(S, w, h, p, D0, i, j)
    requires Finished(mag[..], dir[..], G, D, G0, D0, row + i)
    modifies mag, dir
    ensures Finished(mag[..], dir[..], G, D, G0, D0, row + i + 1)
  {
    var m, dr := SobelAt(src, p, w, h, i, j, row);
    ghost var g1, d1 := mag[..], dir[..];
    AgreesWrite(g1, G, row + i, m);
    AgreesSuffixWrite(g1, G0, row + i, w * h, m);
    AgreesWrite(d1, D, row + i, dr);
    AgreesSuffixWrite(d1, D0, row + i, w * h, dr);
    mag[row + i] := m;
    dir[row + i] := dr;
    assert mag[..] == g1[row + i := m] && dir[..] == d1[row + i := dr];
  }

  /** One interior row j: columns 1 .. w - 2 are written, the others kept. */
  method SobelRow(mag: array<nat>, dir: array<Direction>, src: array<nat>, p: Profile, w: nat, h: nat,
                  j: nat, row: nat, ghost S: seq<nat>, ghost G0: seq<nat>, ghost D0: seq<Direction>,
                  ghost G: seq<nat>, ghost D: seq<Direction>)
    requires mag != src && src.Length == w * h && mag.Length == w * h && dir.Length == w * h
    requires src[..] == S && Shaped(G0, w, h) && Shaped(D0, w, h) && Targets(G, D, S, w, h, p, G0, D0)
    requires 1 <= j < h - 1 && row == RowStart(j, w)
    requires Finished(mag[..], dir[..], G, D, G0, D0, row)
    modifies mag, dir
    ensures Finished(mag[..], dir[..], G, D, G0, D0, row + w)
  {
    if w == 0 {
      return;
    }
    KeptCell(mag[..], dir[..], S, w, h, p, G0, D0, G, D, 0, j, row);
    var i := 1;
    while i < w - 1
      invariant 1 <= i && (i <= w - 1 || i == 1) && i <= w
      invariant src[..] == S
      invariant Finished(mag[..], dir[..], G, D, G0, D0, row + i)
    {
      SobelStep(mag, dir, src, p, w, h, i, j, row, S, G0, D0, G, D);
      i := i + 1;
    }
    if w >= 2 {
      KeptCell(mag[..], dir[..], S, w, h, p, G0, D0, G, D, w - 1, j, row);
    }
  }
}
