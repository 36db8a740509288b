/** Non-maximum suppression (src/blurdetect.cpp:158-191): an interior gradient
    survives, clipped to peak, only when it is strictly larger than both
    neighbours across its rounded direction. Every other cell of the
    destination keeps what it held, which the pipeline makes zero. */
module Suppression {
  import opened Plane
  import opened Directions

  /** The gradient at (x, y) beats both neighbours the direction's offset
      table names. */
  predicate StrictMaximum(g: seq<nat>, w: nat, h: nat, x: int, y: int, d: Direction)
    requires Shaped(g, w, h) && Interior(w, h, x, y)
  {
    var (aY, aX, bY, bX) := SuppressionOffsets(d);
    At(g, w, h, x, y) > At(g, w, h, x + aX, y + aY) && At(g, w, h, x, y) > At(g, w, h, x + bX, y + bY)
  }

  /** The destination cell after the pass. */
  function SuppressedAt(g: seq<nat>, dirs: seq<Direction>, w: nat, h: nat, peak: nat, prior: seq<nat>, x: int, y: int): nat
    requires Shaped(g, w, h) && Shaped(dirs, w, h) && Shaped(prior, w, h) && InPlane(w, h, x, y)
  {
    if Interior(w, h, x, y) && StrictMaximum(g, w, h, x, y, At(dirs, w, h, x, y))
    then Min(At(g, w, h, x, y), peak)
    else At(prior, w, h, x, y)
  }

  /** The whole destination after the pass. */
  function Suppressed(g: seq<nat>, dirs: seq<Direction>, w: nat, h: nat, peak: nat, prior: seq<nat>): (r: seq<nat>)
    requires Shaped(g, w, h) && Shaped(dirs, w, h) && Shaped(prior, w, h)
    ensures Shaped(r, w, h)
  {
    seq(w * h, q requires 0 <= q < w * h =>
      CoordsOf(w, h, q);
      SuppressedAt(g, dirs, w, h, peak, prior, ColOf(q, w), RowOf(q, w)))
  }

  lemma SuppressedIndex(g: seq<nat>, dirs: seq<Direction>, w: nat, h: nat, peak: nat, prior: seq<nat>, x: int, y: int)
    requires Shaped(g, w, h) && Shaped(dirs, w, h) && Shaped(prior, w, h) && InPlane(w, h, x, y)
    ensures Index(w, x, y) < w * h
    ensures Suppressed(g, dirs, w, h, peak, prior)[Index(w, x, y)] == SuppressedAt(g, dirs, w, h, peak, prior, x, y)
  {
    IndexOf(w, h, x, y);
  }

  /** The pass as a law on each pixel, over a zeroed destination: border cells
      are zero, a pixel that is not a strict maximum across its direction is
      zero, and a strict maximum is kept clipped to peak. */
  lemma SuppressionLaw(g: seq<nat>, dirs: seq<Direction>, w: nat, h: nat, peak: nat, prior: seq<nat>, x: int, y: int)
    requires Shaped(g, w, h) && Shaped(dirs, w, h) && Shaped(prior, w, h) && AllZero(prior) && InPlane(w, h, x, y)
    ensures var r := At(Suppressed(g, dirs, w, h, peak, prior), w, h, x, y);
      (!Interior(w, h, x, y) ==> r == 0) &&
      (Interior(w, h, x, y) && !StrictMaximum(g, w, h, x, y, At(dirs, w, h, x, y)) ==> r == 0) &&
      (Interior(w, h, x, y) && StrictMaximum(g, w, h, x, y, At(dirs, w, h, x, y)) ==> r == Min(At(g, w, h, x, y), peak))
  {
    SuppressedIndex(g, dirs, w, h, peak, prior, x, y);
    IndexOf(w, h, x, y);
  }

  /** Over a zeroed destination every output is at most peak and at most the
      gradient it came from. */
  lemma SuppressionBounded(g: seq<nat>, dirs: seq<Direction>, w: nat, h: nat, peak: nat, prior: seq<nat>)
    requires Shaped(g, w, h) && Shaped(dirs, w, h) && Shaped(prior, w, h) && AllZero(prior)
    ensures Bounded(Suppressed(g, dirs, w, h, peak, prior), peak)
    ensures forall q :: 0 <= q < w * h ==> Suppressed(g, dirs, w, h, peak, prior)[q] <= g[q]
  {
    forall q | 0 <= q < w * h
      ensures Suppressed(g, dirs, w, h, peak, prior)[q] <= peak
      ensures Suppressed(g, dirs, w, h, peak, prior)[q] <= g[q]
    {
      CoordsOf(w, h, q);
      var x, y := ColOf(q, w), RowOf(q, w);
      SuppressionLaw(g, dirs, w, h, peak, prior, x, y);
    }
  }

  /** Over a zeroed destination the output is zero on the border. */
  lemma SuppressionBorderZero(g: seq<nat>, dirs: seq<Direction>, w: nat, h: nat, peak: nat, prior: seq<nat>)
    requires Shaped(g, w, h) && Shaped(dirs, w, h) && Shaped(prior, w, h) && AllZero(prior)
    ensures BorderZero(Suppressed(g, dirs, w, h, peak, prior), w, h)
  {
    forall x, y | InPlane(w, h, x, y) && !Interior(w, h, x, y)
      ensures At(Suppressed(g, dirs, w, h, peak, prior), w, h, x, y) == 0
    {
      SuppressionLaw(g, dirs, w, h, peak, prior, x, y);
    }
  }

  /** A flat gradient plane has no strict maximum anywhere, so nothing survives. */
  lemma FlatGradientSuppressed(g: seq<nat>, dirs: seq<Direction>, w: nat, h: nat, peak: nat, prior: seq<nat>, c: nat)
    requires Shaped(g, w, h) && Shaped(dirs, w, h) && Shaped(prior, w, h) && AllZero(prior)
    requires forall q :: 0 <= q < |g| ==> g[q] == c
    ensures AllZero(Suppressed(g, dirs, w, h, peak, prior))
  {
    forall q | 0 <= q < w * h ensures Suppressed(g, dirs, w, h, peak, prior)[q] == 0 {
      CoordsOf(w, h, q);
      var x, y := ColOf(q, w), RowOf(q, w);
      SuppressionLaw(g, dirs, w, h, peak, prior, x, y);
      if Interior(w, h, x, y) {
        FlatNoMaximum(g, dirs, w, h, c, x, y);
      }
    }
  }

  /** On a flat gradient plane no pixel beats its neighbours. */
  lemma FlatNoMaximum(g: seq<nat>, dirs: seq<Direction>, w: nat, h: nat, c: nat, x: int, y: int)
    requires Shaped(g, w, h) && Shaped(dirs, w, h) && Interior(w, h, x, y)
    requires forall q :: 0 <= q < |g| ==> g[q] == c
    ensures !StrictMaximum(g, w, h, x, y, At(dirs, w, h, x, y))
  {
    var (aY, aX, bY, bX) := SuppressionOffsets(At(dirs, w, h, x, y));
    IndexBounds(w, h, x, y);
    IndexBounds(w, h, x + aX, y + aY);
  }

  /** The neighbour at row offset dy (one of -1, 0, 1) and column offset dx of
      the pixel at column x of the row starting at `row`. */
  lemma NeighbourIndex(w: nat, h: nat, x: int, y: int, row: int, dy: int, dx: int)
    requires Interior(w, h, x, y) && row == RowStart(y, w) && -1 <= dy <= 1 && -1 <= dx <= 1
    ensures 0 <= row + dy * w + x + dx < w * h
    ensures row + dy * w + x + dx == Index(w, x + dx, y + dy)
  {
    RowNeighbours(y, w);
    IndexOf(w, h, x + dx, y + dy);
    if dy == -1 {
      assert dy * (w as int) == -(w as int);
    } else if dy == 1 {
      assert dy * w == w;
    } else {
      assert dy * w == 0;
    }
  }

  /** The source's COPY_MAXIMA step at column i of the row starting at `row`:
      writes min(src, peak) when the gradient beats both neighbours, and
      nothing otherwise. */
  method CopyMaxima(dst: array<nat>, src: array<nat>, w: nat, h: nat, peak: nat,
                    aY: int, aX: int, bY: int, bX: int, i: int, j: int, row: int)
    requires dst != src && dst.Length == w * h && src.Length == w * h
    requires Interior(w, h, i, j) && row == RowStart(j, w)
    requires -1 <= aY <= 1 && -1 <= aX <= 1 && -1 <= bY <= 1 && -1 <= bX <= 1
    modifies dst
    ensures row + i < w * h && row + i == Index(w, i, j)
    ensures var c := At(src[..], w, h, i, j);
      dst[..] == old(dst[..])[row + i :=
        if c > At(src[..], w, h, i + aX, j + aY) && c > At(src[..], w, h, i + bX, j + bY)
        then Min(c, peak) else old(dst[row + i])]
  {
    NeighbourIndex(w, h, i, j, row, 0, 0);
    NeighbourIndex(w, h, i, j, row, aY, aX);
    NeighbourIndex(w, h, i, j, row, bY, bX);
    if src[row + i] > src[aY * w + row + i + aX] && src[row + i] > src[bY * w + row + i + bX] {
      dst[row + i] := Min(src[row + i], peak);
    } else {
      assert dst[..] == old(dst[..])[row + i := old(dst[row + i])];
    }
  }

  /** One interior pixel: the source's switch on its direction, which picks
      the neighbour offsets COPY_MAXIMA is called with. */
  method SuppressCell(dst: array<nat>, dir: array<Direction>, src: array<nat>, w: nat, h: nat, peak: nat,
                      i: int, j: int, row: int, ghost prior: seq<nat>)
    requires dst != src && dst.Length == w * h && dir.Length == w * h && src.Length == w * h
    requires Interior(w, h, i, j) && row == RowStart(j, w) && |prior| == w * h
    requires row + i < w * h && dst[row + i] == prior[row + i]
    modifies dst
    ensures dst[..] == old(dst[..])[row + i := SuppressedAt(src[..], dir[..], w, h, peak, prior, i, j)]
  {
    IndexBounds(w, h, i, j);
    match dir[row + i] {
      case Up45 =>
        MaximaLaw(src[..], dir[..], w, h, peak, prior, i, j, 1, -1, -1, 1);
        CopyMaxima(dst, src, w, h, peak, 1, -1, -1, 1, i, j, row);
      case Down45 =>
        MaximaLaw(src[..], dir[..], w, h, peak, prior, i, j, -1, -1, 1, 1);
        CopyMaxima(dst, src, w, h, peak, -1, -1, 1, 1, i, j, row);
      case Horizontal =>
        MaximaLaw(src[..], dir[..], w, h, peak, prior, i, j, 0, -1, 0, 1);
        CopyMaxima(dst, src, w, h, peak, 0, -1, 0, 1, i, j, row);
      case Vertical =>
        MaximaLaw(src[..], dir[..], w, h, peak, prior, i, j, -1, 0, 1, 0);
        CopyMaxima(dst, src, w, h, peak, -1, 0, 1, 0, i, j, row);
    }
  }

  /** The destination cell at an interior pixel, in terms of the offsets its
      direction selects. */
  lemma MaximaLaw(g: seq<nat>, dirs: seq<Direction>, w: nat, h: nat, peak: nat, prior: seq<nat>,
                  x: int, y: int, aY: int, aX: int, bY: int, bX: int)
    requires Shaped(g, w, h) && Shaped(dirs, w, h) && Shaped(prior, w, h) && Interior(w, h, x, y)
    requires (aY, aX, bY, bX) == SuppressionOffsets(At(dirs, w, h, x, y))
    ensures InPlane(w, h, x + aX, y + aY) && InPlane(w, h, x + bX, y + bY)
    ensures var c := At(g, w, h, x, y);
      SuppressedAt(g, dirs, w, h, peak, prior, x, y) ==
        if c > At(g, w, h, x + aX, y + aY) && c > At(g, w, h, x + bX, y + bY) then Min(c, peak)
        else At(prior, w, h, x, y)
  {
  }

  /** SuppressCell at column i extends the finished prefix of the target T,
      the finished destination, by one cell. */
  method SuppressStep(dst: array<nat>, dir: array<Direction>, src: array<nat>, w: nat, h: nat, peak: nat,
                      i: int, j: int, row: int, ghost P: seq<nat>, ghost T: seq<nat>)
    requires dst != src && dst.Length == w * h && dir.Length == w * h && src.Length == w * h
    requires |P| == w * h && |T| == w * h
    requires Interior(w, h, i, j) && row == RowStart(j, w) && row + i < w * h
    requires T[row + i] == SuppressedAt(src[..], dir[..], w, h, peak, P, i, j)
    requires Agrees(dst[..], T, 0, row + i) && Agrees(dst[..], P, row + i, w * h)
    modifies dst
    ensures Agrees(dst[..], T, 0, row + i + 1)
    ensures Agrees(dst[..], P, row + i + 1, w * h)
  {
    ghost var d0 := dst[..];
    SuppressCell(dst, dir, src, w, h, peak, i, j, row, P);
    AgreesWrite(d0, T, row + i, dst[row + i]);
    AgreesSuffixWrite(d0, P, row + i, w * h, dst[row + i]);
  }

  /** The suppression pass over the gradients src and directions dir. */
  method NonMaximumSuppression(dst: array<nat>, dir: array<Direction>, src: array<nat>, w: nat, h: nat, peak: nat)
    requires dst != src && dst.Length == w * h && dir.Length == w * h && src.Length == w * h
    modifies dst
    ensures dst[..] == Suppressed(src[..], dir[..], w, h, peak, old(dst[..]))
  {
    ghost var P := dst[..];
    ghost var T := Suppressed(src[..], dir[..], w, h, peak, P);
    var j, row := 1, w;
    if h == 0 {
      AgreesWhole(dst[..], T);
      return;
    }
    RowsFit(w, h, 1);
    TargetRow(src[..], dir[..], w, h, peak, P, 0, 0);
    KeepRow(dst[..], src[..], dir[..], w, h, peak, P, T, 0, 0);
    while j < h - 1
      invariant 1 <= j && (j <= h - 1 || j == 1) && row == RowStart(j, w) && row <= w * h
      invariant Agrees(dst[..], T, 0, row) && Agrees(dst[..], P, row, w * h)
    {
      RowsFit(w, h, j + 1);
      RowNeighbours(j, w);
      TargetRow(src[..], dir[..], w, h, peak, P, j, row);
      SuppressRow(dst, dir, src, w, h, peak, j, row, P, T);
      j, row := j + 1, row + w;
    }
    if 2 <= h {
      TargetRow(src[..], dir[..], w, h, peak, P, j, row);
      KeepRow(dst[..], src[..], dir[..], w, h, peak, P, T, j, row);
      RowNeighbours(j, w);
      row := row + w;
    }
    RowStartIsProduct(h, w);
    assert h * w == w * h;
    AgreesWhole(dst[..], T);
  }

  /** Row y of the finished destination, cell by cell. */
  lemma TargetRow(g: seq<nat>, dirs: seq<Direction>, w: nat, h: nat, peak: nat, prior: seq<nat>, y: int, row: int)
    requires Shaped(g, w, h) && Shaped(dirs, w, h) && Shaped(prior, w, h) && 0 <= y < h && row == RowStart(y, w)
    ensures row + w <= w * h
    ensures forall x | 0 <= x < w :: Suppressed(g, dirs, w, h, peak, prior)[row + x] == SuppressedAt(g, dirs, w, h, peak, prior, x, y)
  {
    RowsFit(w, h, y + 1);
    RowNeighbours(y, w);
    forall x | 0 <= x < w
      ensures Suppressed(g, dirs, w, h, peak, prior)[row + x] == SuppressedAt(g, dirs, w, h, peak, prior, x, y)
    {
      SuppressedCell(g, dirs, w, h, peak, prior, x, y, row);
    }
  }

  lemma SuppressedCell(g: seq<nat>, dirs: seq<Direction>, w: nat, h: nat, peak: nat, prior: seq<nat>,
                       x: int, y: int, row: int)
    requires Shaped(g, w, h) && Shaped(dirs, w, h) && Shaped(prior, w, h) && InPlane(w, h, x, y)
    requires row == RowStart(y, w)
    ensures 0 <= row + x < w * h
    ensures Suppressed(g, dirs, w, h, peak, prior)[row + x] == SuppressedAt(g, dirs, w, h, peak, prior, x, y)
  {
    SuppressedIndex(g, dirs, w, h, peak, prior, x, y);
  }

  /** One interior row: columns 1 .. w - 2 go through the switch, the first and
      last are left alone. */
  method SuppressRow(dst: array<nat>, dir: array<Direction>, src: array<nat>, w: nat, h: nat, peak: nat,
                     j: int, row: int, ghost P: seq<nat>, ghost T: seq<nat>)
    requires dst != src && dst.Length == w * h && dir.Length == w * h && src.Length == w * h
    requires |P| == w * h && |T| == w * h
    requires 1 <= j < h - 1 && row == RowStart(j, w) && row + w <= w * h
    requires forall x | 0 <= x < w :: T[row + x] == SuppressedAt(src[..], dir[..], w, h, peak, P, x, j)
    requires Agrees(dst[..], T, 0, row) && Agrees(dst[..], P, row, w * h)
    modifies dst
    ensures Agrees(dst[..], T, 0, row + w) && Agrees(dst[..], P, row + w, w * h)
  {
    if w == 0 {
      return;
    }
    KeepCell(dst[..], src[..], dir[..], w, h, peak, P, T, 0, j, row);
    var i := 1;
    while i < w - 1
      invariant 1 <= i && (i <= w - 1 || i == 1) && i <= w
      invariant Agrees(dst[..], T, 0, row + i) && Agrees(dst[..], P, row + i, w * h)
    {
      SuppressStep(dst, dir, src, w, h, peak, i, j, row, P, T);
      i := i + 1;
    }
    if 2 <= w {
      KeepCell(dst[..], src[..], dir[..], w, h, peak, P, T, w - 1, j, row);
    }
  }

  /** A border cell still holding its previous content already holds its result. */
  lemma KeepCell(d: seq<nat>, g: seq<nat>, dirs: seq<Direction>, w: nat, h: nat, peak: nat, prior: seq<nat>,
                 T: seq<nat>, x: int, y: int, row: int)
    requires Shaped(g, w, h) && Shaped(dirs, w, h) && Shaped(prior, w, h) && |d| == w * h && |T| == w * h
    requires InPlane(w, h, x, y) && !Interior(w, h, x, y) && row == RowStart(y, w) && row + x < w * h
    requires T[row + x] == SuppressedAt(g, dirs, w, h, peak, prior, x, y)
    requires Agrees(d, T, 0, row + x) && Agrees(d, prior, row + x, w * h)
    ensures Agrees(d, T, 0, row + x + 1) && Agrees(d, prior, row + x + 1, w * h)
  {
    assert T[row + x] == prior[row + x];
    AgreesKeepPrior(d, T, prior, row + x);
  }

  /** The first and last rows are left as they were, which is their result. */
  lemma KeepRow(d: seq<nat>, g: seq<nat>, dirs: seq<Direction>, w: nat, h: nat, peak: nat, prior: seq<nat>,
                T: seq<nat>, y: int, row: int)
    requires Shaped(g, w, h) && Shaped(dirs, w, h) && Shaped(prior, w, h) && |d| == w * h && |T| == w * h
    requires 0 <= y < h && (y == 0 || y == h - 1) && row == RowStart(y, w) && row + w <= w * h
    requires forall x | 0 <= x < w :: T[row + x] == SuppressedAt(g, dirs, w, h, peak, prior, x, y)
    requires Agrees(d, T, 0, row) && Agrees(d, prior, row, w * h)
    ensures Agrees(d, T, 0, row + w) && Agrees(d, prior, row + w, w * h)
  {
    var x := 0;
    while x < w
      invariant 0 <= x <= w
      invariant Agrees(d, T, 0, row + x) && Agrees(d, prior, row + x, w * h)
    {
      KeepCell(d, g, dirs, w, h, peak, prior, T, x, y, row);
      x := x + 1;
    }
  }
}
