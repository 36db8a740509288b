/** The 5x5 Gaussian smoother (src/blurdetect.cpp:102-155). The host plane is
    read with its own row pitch; the output is a packed w x h plane. */
module Gauss {
  import opened Plane

  /** A host plane of h rows of w samples, consecutive rows pitch samples apart. */
  predicate Strided(s: seq<nat>, pitch: nat, w: nat, h: nat) {
    0 < w <= pitch && 1 <= h && RowStart(h - 1, pitch) + w <= |s|
  }

  lemma StrideIndex(s: seq<nat>, pitch: nat, w: nat, h: nat, x: int, y: int)
    requires Strided(s, pitch, w, h) && InPlane(w, h, x, y)
    ensures Index(pitch, x, y) < |s|
  {
    if y < h - 1 { RowStartMonotone(y, h - 1, pitch); }
  }

  /** The host sample at column x, row y. */
  function SrcAt(s: seq<nat>, pitch: nat, w: nat, h: nat, x: int, y: int): nat
    requires Strided(s, pitch, w, h) && InPlane(w, h, x, y)
  {
    StrideIndex(s, pitch, w, h, x, y);
    s[Index(pitch, x, y)]
  }

  /** The sigma 1.4 mask, indexed by |dy| then |dx| (it is symmetric in both). */
  const Mask: seq<seq<nat>> := [[15, 12, 5], [12, 9, 4], [5, 4, 2]]

  /** The mask weight at offset (dx, dy), -2 <= dx, dy <= 2. */
  function Weight(dx: int, dy: int): nat
    requires -2 <= dx <= 2 && -2 <= dy <= 2
  {
    Mask[Abs(dy)][Abs(dx)]
  }

  /** All 25 weights add up to the divisor 159. */
  lemma WeightsSumTo159()
    ensures (Weight(-2, -2) + Weight(-1, -2) + Weight(0, -2) + Weight(1, -2) + Weight(2, -2))
          + (Weight(-2, -1) + Weight(-1, -1) + Weight(0, -1) + Weight(1, -1) + Weight(2, -1))
          + (Weight(-2, 0) + Weight(-1, 0) + Weight(0, 0) + Weight(1, 0) + Weight(2, 0))
          + (Weight(-2, 1) + Weight(-1, 1) + Weight(0, 1) + Weight(1, 1) + Weight(2, 1))
          + (Weight(-2, 2) + Weight(-1, 2) + Weight(0, 2) + Weight(1, 2) + Weight(2, 2)) == 159
  {
  }

  /** Pixels that get the full 5x5 mask: two or more away from every edge. */
  predicate Smoothed(w: int, h: int, x: int, y: int) {
    2 <= x < w - 2 && 2 <= y < h - 2
  }

  /** The weighted sum of row y + dy of the window around (x, y). */
  function MaskRow(s: seq<nat>, pitch: nat, w: nat, h: nat, x: int, y: int, dy: int): nat
    requires Strided(s, pitch, w, h) && Smoothed(w, h, x, y) && -2 <= dy <= 2
  {
    Weight(-2, dy) * SrcAt(s, pitch, w, h, x - 2, y + dy)
    + Weight(-1, dy) * SrcAt(s, pitch, w, h, x - 1, y + dy)
    + Weight(0, dy) * SrcAt(s, pitch, w, h, x, y + dy)
    + Weight(1, dy) * SrcAt(s, pitch, w, h, x + 1, y + dy)
    + Weight(2, dy) * SrcAt(s, pitch, w, h, x + 2, y + dy)
  }

  /** The mask applied to the 5x5 window centred on (x, y). */
  function MaskSum(s: seq<nat>, pitch: nat, w: nat, h: nat, x: int, y: int): nat
    requires Strided(s, pitch, w, h) && Smoothed(w, h, x, y)
  {
    MaskRow(s, pitch, w, h, x, y, -2) + MaskRow(s, pitch, w, h, x, y, -1)
    + MaskRow(s, pitch, w, h, x, y, 0)
    + MaskRow(s, pitch, w, h, x, y, 1) + MaskRow(s, pitch, w, h, x, y, 2)
  }

  /** The smoothed sample at (x, y): the mask sum divided by 159 (truncating)
      inside, the input sample on the two outermost rows and columns. */
  function BlurredAt(s: seq<nat>, pitch: nat, w: nat, h: nat, x: int, y: int): nat
    requires Strided(s, pitch, w, h) && InPlane(w, h, x, y)
  {
    if Smoothed(w, h, x, y) then MaskSum(s, pitch, w, h, x, y) / 159
    else SrcAt(s, pitch, w, h, x, y)
  }

  /** The whole smoothed plane, packed w samples per row. */
  function Blurred(s: seq<nat>, pitch: nat, w: nat, h: nat): (r: seq<nat>)
    requires Strided(s, pitch, w, h)
    ensures Shaped(r, w, h)
  {
    seq(w * h, q requires 0 <= q < w * h =>
      CoordsOf(w, h, q);
      BlurredAt(s, pitch, w, h, ColOf(q, w), RowOf(q, w)))
  }

  lemma BlurredIndex(s: seq<nat>, pitch: nat, w: nat, h: nat, x: int, y: int)
    requires Strided(s, pitch, w, h) && InPlane(w, h, x, y)
    ensures Index(w, x, y) < w * h
    ensures Blurred(s, pitch, w, h)[Index(w, x, y)] == BlurredAt(s, pitch, w, h, x, y)
    ensures At(Blurred(s, pitch, w, h), w, h, x, y) == BlurredAt(s, pitch, w, h, x, y)
  {
    IndexOf(w, h, x, y);
  }

  /** Rows 0, 1, h-2, h-1 and columns 0, 1, w-2, w-1 are copied unchanged. */
  lemma BorderCopied(s: seq<nat>, pitch: nat, w: nat, h: nat, x: int, y: int)
    requires Strided(s, pitch, w, h) && InPlane(w, h, x, y)
    requires x < 2 || x >= w - 2 || y < 2 || y >= h - 2
    ensures At(Blurred(s, pitch, w, h), w, h, x, y) == SrcAt(s, pitch, w, h, x, y)
  {
    BlurredIndex(s, pitch, w, h, x, y);
  }

  /** Every other pixel is the mask-weighted sum of its window divided by 159. */
  lemma InteriorWeighted(s: seq<nat>, pitch: nat, w: nat, h: nat, x: int, y: int)
    requires Strided(s, pitch, w, h) && Smoothed(w, h, x, y)
    ensures At(Blurred(s, pitch, w, h), w, h, x, y) == MaskSum(s, pitch, w, h, x, y) / 159
  {
    BlurredIndex(s, pitch, w, h, x, y);
  }

  /** Every host sample of the plane equals c. */
  predicate FlatSource(s: seq<nat>, pitch: nat, w: nat, h: nat, c: nat)
    requires Strided(s, pitch, w, h)
  {
    forall x, y | 0 <= x < w && 0 <= y < h :: SrcAt(s, pitch, w, h, x, y) == c
  }

  /** Every host sample of the plane is at most m. */
  predicate SourceBounded(s: seq<nat>, pitch: nat, w: nat, h: nat, m: nat)
    requires Strided(s, pitch, w, h)
  {
    forall x, y | 0 <= x < w && 0 <= y < h :: SrcAt(s, pitch, w, h, x, y) <= m
  }

  lemma MaskRowBounds(s: seq<nat>, pitch: nat, w: nat, h: nat, x: int, y: int, dy: int, v: int, lo: nat, hi: nat)
    requires Strided(s, pitch, w, h) && Smoothed(w, h, x, y) && -2 <= dy <= 2 && v == y + dy
    requires forall u | x - 2 <= u <= x + 2 :: lo <= SrcAt(s, pitch, w, h, u, v) <= hi
    ensures var k := if dy == 0 then 49 else if dy == 1 || dy == -1 then 38 else 17;
      k * lo <= MaskRow(s, pitch, w, h, x, y, dy) <= k * hi
  {
    var a, b, c, d, e := SrcAt(s, pitch, w, h, x - 2, y + dy), SrcAt(s, pitch, w, h, x - 1, y + dy),
      SrcAt(s, pitch, w, h, x, y + dy), SrcAt(s, pitch, w, h, x + 1, y + dy), SrcAt(s, pitch, w, h, x + 2, y + dy);
    assert lo <= a <= hi && lo <= b <= hi && lo <= c <= hi && lo <= d <= hi && lo <= e <= hi;
    if Abs(dy) == 0 {
      assert MaskRow(s, pitch, w, h, x, y, dy) == 5 * a + 12 * b + 15 * c + 12 * d + 5 * e;
    } else if Abs(dy) == 1 {
      assert MaskRow(s, pitch, w, h, x, y, dy) == 4 * a + 9 * b + 12 * c + 9 * d + 4 * e;
    } else {
      assert MaskRow(s, pitch, w, h, x, y, dy) == 2 * a + 4 * b + 5 * c + 4 * d + 2 * e;
    }
  }

  lemma MaskSumBounds(s: seq<nat>, pitch: nat, w: nat, h: nat, x: int, y: int, lo: nat, hi: nat)
    requires Strided(s, pitch, w, h) && Smoothed(w, h, x, y)
    requires forall u, v | x - 2 <= u <= x + 2 && y - 2 <= v <= y + 2 ::
      lo <= SrcAt(s, pitch, w, h, u, v) <= hi
    ensures 159 * lo <= MaskSum(s, pitch, w, h, x, y) <= 159 * hi
  {
    MaskRowBounds(s, pitch, w, h, x, y, -2, y - 2, lo, hi);
    MaskRowBounds(s, pitch, w, h, x, y, -1, y - 1, lo, hi);
    MaskRowBounds(s, pitch, w, h, x, y, 0, y + 0, lo, hi);
    MaskRowBounds(s, pitch, w, h, x, y, 1, y + 1, lo, hi);
    MaskRowBounds(s, pitch, w, h, x, y, 2, y + 2, lo, hi);
  }

  lemma ScaleBetween(k: nat, v: nat, lo: nat, hi: nat)
    requires lo <= v <= hi
    ensures k * lo <= k * v <= k * hi
  {
    assert k * v - k * lo == k * (v - lo);
    assert k * hi - k * v == k * (hi - v);
  }

  /** The weights sum to 159, so a flat plane is mapped to itself. */
  lemma FlatPlaneUnchanged(s: seq<nat>, pitch: nat, w: nat, h: nat, c: nat)
    requires Strided(s, pitch, w, h) && FlatSource(s, pitch, w, h, c)
    ensures forall q :: 0 <= q < w * h ==> Blurred(s, pitch, w, h)[q] == c
  {
    forall q | 0 <= q < w * h ensures Blurred(s, pitch, w, h)[q] == c {
      CoordsOf(w, h, q);
      var x, y := ColOf(q, w), RowOf(q, w);
      if Smoothed(w, h, x, y) {
        MaskSumBounds(s, pitch, w, h, x, y, c, c);
      }
    }
  }

  /** Smoothing never leaves the input's range, so the result fits the sample
      type it is stored in. */
  lemma SmoothingBounded(s: seq<nat>, pitch: nat, w: nat, h: nat, m: nat)
    requires Strided(s, pitch, w, h) && SourceBounded(s, pitch, w, h, m)
    ensures Bounded(Blurred(s, pitch, w, h), m)
  {
    forall q | 0 <= q < w * h ensures Blurred(s, pitch, w, h)[q] <= m {
      CoordsOf(w, h, q);
      var x, y := ColOf(q, w), RowOf(q, w);
      if Smoothed(w, h, x, y) {
        MaskSumBounds(s, pitch, w, h, x, y, 0, m);
      }
    }
  }

  /** The source's grouped mask expression over the flat host buffer, rows
      r - 2 * pitch .. r + 2 * pitch, is the table mask at (x, y). */
  lemma MaskMatchesSourceGrouping(s: seq<nat>, pitch: nat, w: nat, h: nat, x: int, y: int, r: int)
    requires Strided(s, pitch, w, h) && Smoothed(w, h, x, y) && r == RowStart(y, pitch)
    requires 2 * pitch <= r && r + 2 * pitch + w <= |s|
    ensures MaskSum(s, pitch, w, h, x, y) ==
      ((s[r - 2 * pitch + (x - 2)] + s[r + 2 * pitch + (x - 2)]) * 2
      + (s[r - 2 * pitch + (x - 1)] + s[r + 2 * pitch + (x - 1)]) * 4
      + (s[r - 2 * pitch + x] + s[r + 2 * pitch + x]) * 5
      + (s[r - 2 * pitch + (x + 1)] + s[r + 2 * pitch + (x + 1)]) * 4
      + (s[r - 2 * pitch + (x + 2)] + s[r + 2 * pitch + (x + 2)]) * 2
      + (s[r - pitch + (x - 2)] + s[r + pitch + (x - 2)]) * 4
      + (s[r - pitch + (x - 1)] + s[r + pitch + (x - 1)]) * 9
      + (s[r - pitch + x] + s[r + pitch + x]) * 12
      + (s[r - pitch + (x + 1)] + s[r + pitch + (x + 1)]) * 9
      + (s[r - pitch + (x + 2)] + s[r + pitch + (x + 2)]) * 4
      + s[r + (x - 2)] * 5 + s[r + (x - 1)] * 12 + s[r + x] * 15
      + s[r + (x + 1)] * 12 + s[r + (x + 2)] * 5)
  {
    RowNeighbours(y, pitch);
    MaskRowFlat(s, pitch, w, h, x, y, -2, r - 2 * pitch);
    MaskRowFlat(s, pitch, w, h, x, y, -1, r - pitch);
    MaskRowFlat(s, pitch, w, h, x, y, 0, r);
    MaskRowFlat(s, pitch, w, h, x, y, 1, r + pitch);
    MaskRowFlat(s, pitch, w, h, x, y, 2, r + 2 * pitch);
    Regroup(MaskRow(s, pitch, w, h, x, y, -2), MaskRow(s, pitch, w, h, x, y, -1), MaskRow(s, pitch, w, h, x, y, 0),
      MaskRow(s, pitch, w, h, x, y, 1), MaskRow(s, pitch, w, h, x, y, 2),
      s[r - 2 * pitch + (x - 2)], s[r - 2 * pitch + (x - 1)], s[r - 2 * pitch + x], s[r - 2 * pitch + (x + 1)], s[r - 2 * pitch + (x + 2)],
      s[r - pitch + (x - 2)], s[r - pitch + (x - 1)], s[r - pitch + x], s[r - pitch + (x + 1)], s[r - pitch + (x + 2)],
      s[r + (x - 2)], s[r + (x - 1)], s[r + x], s[r + (x + 1)], s[r + (x + 2)],
      s[r + pitch + (x - 2)], s[r + pitch + (x - 1)], s[r + pitch + x], s[r + pitch + (x + 1)], s[r + pitch + (x + 2)],
      s[r + 2 * pitch + (x - 2)], s[r + 2 * pitch + (x - 1)], s[r + 2 * pitch + x], s[r + 2 * pitch + (x + 1)], s[r + 2 * pitch + (x + 2)]);
  }

  /** The source's term order: symmetric rows paired, weights factored out. */
  lemma Regroup(m0: int, m1: int, m2: int, m3: int, m4: int,
                a0: int, a1: int, a2: int, a3: int, a4: int, b0: int, b1: int, b2: int, b3: int, b4: int,
                c0: int, c1: int, c2: int, c3: int, c4: int, d0: int, d1: int, d2: int, d3: int, d4: int,
                e0: int, e1: int, e2: int, e3: int, e4: int)
    requires m0 == Weight(-2, -2) * a0 + Weight(-1, -2) * a1 + Weight(0, -2) * a2 + Weight(1, -2) * a3 + Weight(2, -2) * a4
    requires m1 == Weight(-2, -1) * b0 + Weight(-1, -1) * b1 + Weight(0, -1) * b2 + Weight(1, -1) * b3 + Weight(2, -1) * b4
    requires m2 == Weight(-2, 0) * c0 + Weight(-1, 0) * c1 + Weight(0, 0) * c2 + Weight(1, 0) * c3 + Weight(2, 0) * c4
    requires m3 == Weight(-2, 1) * d0 + Weight(-1, 1) * d1 + Weight(0, 1) * d2 + Weight(1, 1) * d3 + Weight(2, 1) * d4
    requires m4 == Weight(-2, 2) * e0 + Weight(-1, 2) * e1 + Weight(0, 2) * e2 + Weight(1, 2) * e3 + Weight(2, 2) * e4
    ensures m0 + m1 + m2 + m3 + m4 ==
      (a0 + e0) * 2 + (a1 + e1) * 4 + (a2 + e2) * 5 + (a3 + e3) * 4 + (a4 + e4) * 2
      + (b0 + d0) * 4 + (b1 + d1) * 9 + (b2 + d2) * 12 + (b3 + d3) * 9 + (b4 + d4) * 4
      + c0 * 5 + c1 * 12 + c2 * 15 + c3 * 12 + c4 * 5
  {
  }

  /** Row y + dy of the window, read from the flat host buffer at that row's start b. */
  lemma MaskRowFlat(s: seq<nat>, pitch: nat, w: nat, h: nat, x: int, y: int, dy: int, b: int)
    requires Strided(s, pitch, w, h) && Smoothed(w, h, x, y) && -2 <= dy <= 2 && b == RowStart(y + dy, pitch)
    ensures 0 <= b + (x - 2) && b + (x + 2) < |s|
    ensures MaskRow(s, pitch, w, h, x, y, dy) ==
      Weight(-2, dy) * s[b + (x - 2)] + Weight(-1, dy) * s[b + (x - 1)] + Weight(0, dy) * s[b + x]
      + Weight(1, dy) * s[b + (x + 1)] + Weight(2, dy) * s[b + (x + 2)]
  {
    StrideIndex(s, pitch, w, h, x + 2, y + dy);
  }

  /** memcpy of n samples from src[from..] to dst[at..]. */
  method CopyRow(dst: array<nat>, at: int, src: array<nat>, from: int, n: int)
    requires dst != src && 0 <= n && 0 <= at && at + n <= dst.Length
    requires 0 <= from && from + n <= src.Length
    modifies dst
    ensures forall q :: at <= q < at + n ==> dst[q] == src[q - at + from]
    ensures forall q :: 0 <= q < dst.Length && !(at <= q < at + n) ==> dst[q] == old(dst[q])
  {
    forall q | at <= q < at + n {
      dst[q] := src[q - at + from];
    }
  }

  /** Rows 0 .. rows - 1 of the packed buffer d hold the smoothed plane. */
  ghost predicate RowsDone(d: seq<nat>, s: seq<nat>, pitch: nat, w: nat, h: nat, rows: nat, end: nat)
    requires Strided(s, pitch, w, h) && rows <= h && |d| == w * h
  {
    forall y, x | 0 <= y < rows && 0 <= x < w ::
      Index(w, x, y) < end && Index(w, x, y) < |d| && d[Index(w, x, y)] == BlurredAt(s, pitch, w, h, x, y)
  }

  lemma AllRowsDone(d: seq<nat>, s: seq<nat>, pitch: nat, w: nat, h: nat)
    requires Strided(s, pitch, w, h) && |d| == w * h
    requires RowsDone(d, s, pitch, w, h, h, |d|)
    ensures d == Blurred(s, pitch, w, h)
  {
    forall q | 0 <= q < w * h ensures d[q] == Blurred(s, pitch, w, h)[q] {
      CoordsOf(w, h, q);
      var x, y := ColOf(q, w), RowOf(q, w);
      assert Index(w, x, y) == q;
    }
  }

  /** Columns 0 .. n - 1 of packed row j (starting at drow) hold smoothed row j. */
  ghost predicate RowPrefixDone(d: seq<nat>, s: seq<nat>, pitch: nat, w: nat, h: nat, j: nat, drow: nat, n: nat)
    requires Strided(s, pitch, w, h) && j < h && n <= w
  {
    forall x | 0 <= x < n :: drow + x < |d| && d[drow + x] == BlurredAt(s, pitch, w, h, x, j)
  }

  lemma PrefixAt(d: seq<nat>, s: seq<nat>, pitch: nat, w: nat, h: nat, j: nat, drow: nat, n: nat, x: int)
    requires Strided(s, pitch, w, h) && j < h && n <= w && 0 <= x < n
    requires RowPrefixDone(d, s, pitch, w, h, j, drow, n)
    ensures drow + x < |d| && d[drow + x] == BlurredAt(s, pitch, w, h, x, j)
  {
  }

  /** Writes at or past `end` keep the finished rows finished. */
  lemma RowsDoneFrame(d: seq<nat>, e: seq<nat>, s: seq<nat>, pitch: nat, w: nat, h: nat, rows: nat, end: nat)
    requires Strided(s, pitch, w, h) && rows <= h && |d| == w * h && |e| == |d|
    requires RowsDone(d, s, pitch, w, h, rows, end)
    requires forall q | 0 <= q < end && q < |d| :: e[q] == d[q]
    ensures RowsDone(e, s, pitch, w, h, rows, end)
  {
  }

  /** Writing the smoothed value of column n of row j extends the row's done prefix. */
  lemma Wrote(d: seq<nat>, s: seq<nat>, pitch: nat, w: nat, h: nat, j: nat, drow: nat, n: nat, v: nat)
    requires Strided(s, pitch, w, h) && j < h && n < w && drow + n < |d|
    requires RowPrefixDone(d, s, pitch, w, h, j, drow, n)
    requires v == BlurredAt(s, pitch, w, h, n, j)
    ensures RowPrefixDone(d[drow + n := v], s, pitch, w, h, j, drow, n + 1)
  {
    var e := d[drow + n := v];
    forall x | 0 <= x < n + 1 ensures drow + x < |e| && e[drow + x] == BlurredAt(s, pitch, w, h, x, j) {
      if x < n { PrefixAt(d, s, pitch, w, h, j, drow, n, x); }
    }
  }

  /** A fully written row j joins the finished rows. */
  lemma RowFinished(d: seq<nat>, s: seq<nat>, pitch: nat, w: nat, h: nat, j: nat, drow: nat)
    requires Strided(s, pitch, w, h) && j < h && |d| == w * h && drow == RowStart(j, w)
    requires RowsDone(d, s, pitch, w, h, j, drow) && RowPrefixDone(d, s, pitch, w, h, j, drow, w)
    ensures RowsDone(d, s, pitch, w, h, j + 1, drow + w)
  {
    forall y, x | 0 <= y < j + 1 && 0 <= x < w
      ensures Index(w, x, y) < drow + w && Index(w, x, y) < |d| && d[Index(w, x, y)] == BlurredAt(s, pitch, w, h, x, y)
    {
      if y == j {
        assert Index(w, x, y) == drow + x;
        PrefixAt(d, s, pitch, w, h, j, drow, w, x);
      }
    }
  }

  /** Outside the smoothed region the output is the host sample itself. */
  lemma CopiedCell(s: seq<nat>, pitch: nat, w: nat, h: nat, x: int, j: nat, srow: nat)
    requires Strided(s, pitch, w, h) && InPlane(w, h, x, j) && !Smoothed(w, h, x, j)
    requires srow == RowStart(j, pitch)
    ensures srow + x < |s| && BlurredAt(s, pitch, w, h, x, j) == s[srow + x]
  {
    StrideIndex(s, pitch, w, h, x, j);
  }

  /** Smooths the host plane src (row pitch `pitch`) into the packed plane dst. */
  method GaussianBlur(dst: array<nat>, src: array<nat>, pitch: nat, w: nat, h: nat)
    requires dst != src && 2 <= w && 4 <= h && dst.Length == w * h
    requires Strided(src[..], pitch, w, h)
    modifies dst
    ensures dst[..] == Blurred(src[..], pitch, w, h)
  {
    RowsFit(w, h, 4);
    RowNeighbours(0, w);
    RowNeighbours(0, pitch);
    CopyBorderRow(dst, src, pitch, w, h, 0, 0, 0);
    CopyBorderRow(dst, src, pitch, w, h, 1, w, pitch);
    var j, drow, srow := 2, 2 * w, 2 * pitch;
    while j < h - 2
      invariant 2 <= j <= h - 2 && drow == RowStart(j, w) && srow == RowStart(j, pitch)
      invariant RowsDone(dst[..], src[..], pitch, w, h, j, drow)
    {
      RowsFit(w, h, j + 2);
      RowNeighbours(j, w);
      SmoothRow(dst, src, pitch, w, h, j, drow, srow);
      j, drow, srow := j + 1, drow + w, srow + pitch;
    }
    RowsFit(w, h, h);
    RowNeighbours(j, w);
    RowNeighbours(j, pitch);
    CopyBorderRow(dst, src, pitch, w, h, j, drow, srow);
    CopyBorderRow(dst, src, pitch, w, h, j + 1, drow + w, srow + pitch);
    AllRowsDone(dst[..], src[..], pitch, w, h);
  }

  /** Rows 0, 1, h - 2 and h - 1 are copied through unchanged. */
  method CopyBorderRow(dst: array<nat>, src: array<nat>, pitch: nat, w: nat, h: nat, j: nat, drow: nat, srow: nat)
    requires dst != src && dst.Length == w * h && Strided(src[..], pitch, w, h)
    requires j < h && (j < 2 || j >= h - 2) && drow == RowStart(j, w) && srow == RowStart(j, pitch)
    requires drow + w <= dst.Length
    requires RowsDone(dst[..], src[..], pitch, w, h, j, drow)
    modifies dst
    ensures RowsDone(dst[..], src[..], pitch, w, h, j + 1, drow + w)
  {
    ghost var S, d0 := src[..], dst[..];
    RowBounds(S, pitch, w, h, j);
    CopyRow(dst, drow, src, srow, w);
    RowsDoneFrame(d0, dst[..], S, pitch, w, h, j, drow);
    RowCopied(dst[..], S, pitch, w, h, j, drow, srow);
    RowFinished(dst[..], S, pitch, w, h, j, drow);
  }

  /** One row with the full mask in its middle: columns 0, 1, w - 2 and w - 1
      are copied, the others get the weighted sum divided by 159. */
  method SmoothRow(dst: array<nat>, src: array<nat>, pitch: nat, w: nat, h: nat, j: nat, drow: nat, srow: nat)
    requires dst != src && 2 <= w && dst.Length == w * h && Strided(src[..], pitch, w, h)
    requires 2 <= j < h - 2 && drow == RowStart(j, w) && srow == RowStart(j, pitch)
    requires drow + w <= dst.Length
    requires RowsDone(dst[..], src[..], pitch, w, h, j, drow)
    modifies dst
    ensures RowsDone(dst[..], src[..], pitch, w, h, j + 1, drow + w)
  {
    ghost var S := src[..];
    RowBounds(S, pitch, w, h, j);
    CopiedCell(S, pitch, w, h, 0, j, srow);
    CopiedCell(S, pitch, w, h, 1, j, srow);
    Put(dst, S, pitch, w, h, j, drow, 0, src[srow]);
    Put(dst, S, pitch, w, h, j, drow, 1, src[srow + 1]);
    var i := 2;
    while i < w - 2
      invariant 2 <= i && (i <= w - 2 || i == 2)
      invariant RowsDone(dst[..], S, pitch, w, h, j, drow)
      invariant RowPrefixDone(dst[..], S, pitch, w, h, j, drow, i)
    {
      var v := SmoothCell(src, pitch, w, h, i, j, srow);
      Put(dst, S, pitch, w, h, j, drow, i, v);
      i := i + 1;
    }
    CopiedCell(S, pitch, w, h, w - 2, j, srow);
    CopiedCell(S, pitch, w, h, w - 1, j, srow);
    Put(dst, S, pitch, w, h, j, drow, w - 2, src[srow + w - 2]);
    Put(dst, S, pitch, w, h, j, drow, w - 1, src[srow + w - 1]);
    RowFinished(dst[..], S, pitch, w, h, j, drow);
  }

  /** Stores the smoothed value of column n of packed row j. */
  method Put(dst: array<nat>, ghost S: seq<nat>, pitch: nat, w: nat, h: nat, j: nat, drow: nat, n: nat, v: nat)
    requires Strided(S, pitch, w, h) && j < h && n < w && dst.Length == w * h && drow + n < dst.Length
    requires RowsDone(dst[..], S, pitch, w, h, j, drow) && RowPrefixDone(dst[..], S, pitch, w, h, j, drow, n)
    requires v == BlurredAt(S, pitch, w, h, n, j)
    modifies dst
    ensures RowsDone(dst[..], S, pitch, w, h, j, drow)
    ensures RowPrefixDone(dst[..], S, pitch, w, h, j, drow, n + 1)
  {
    ghost var d := dst[..];
    Wrote(d, S, pitch, w, h, j, drow, n, v);
    RowsDoneFrame(d, d[drow + n := v], S, pitch, w, h, j, drow);
    dst[drow + n] := v;
    assert dst[..] == d[drow + n := v];
  }

  /** One fully smoothed sample: the source's grouped mask expression over the
      host buffer around column i of the row starting at srow, divided by 159. */
  method SmoothCell(src: array<nat>, pitch: nat, w: nat, h: nat, i: nat, j: nat, srow: nat) returns (v: nat)
    requires Strided(src[..], pitch, w, h) && Smoothed(w, h, i, j) && srow == RowStart(j, pitch)
    ensures v == BlurredAt(src[..], pitch, w, h, i, j)
  {
    RowBounds(src[..], pitch, w, h, j);
    v := ((src[srow - 2 * pitch + (i - 2)] + src[srow + 2 * pitch + (i - 2)]) * 2
      + (src[srow - 2 * pitch + (i - 1)] + src[srow + 2 * pitch + (i - 1)]) * 4
      + (src[srow - 2 * pitch + i] + src[srow + 2 * pitch + i]) * 5
      + (src[srow - 2 * pitch + (i + 1)] + src[srow + 2 * pitch + (i + 1)]) * 4
      + (src[srow - 2 * pitch + (i + 2)] + src[srow + 2 * pitch + (i + 2)]) * 2
      + (src[srow - pitch + (i - 2)] + src[srow + pitch + (i - 2)]) * 4
      + (src[srow - pitch + (i - 1)] + src[srow + pitch + (i - 1)]) * 9
      + (src[srow - pitch + i] + src[srow + pitch + i]) * 12
      + (src[srow - pitch + (i + 1)] + src[srow + pitch + (i + 1)]) * 9
      + (src[srow - pitch + (i + 2)] + src[srow + pitch + (i + 2)]) * 4
      + src[srow + (i - 2)] * 5 + src[srow + (i - 1)] * 12 + src[srow + i] * 15
      + src[srow + (i + 1)] * 12 + src[srow + (i + 2)] * 5) / 159;
    MaskMatchesSourceGrouping(src[..], pitch, w, h, i, j, srow);
  }

  /** Row j of the host buffer is in range, and so are the two rows on either
      side of it that exist. */
  lemma RowBounds(s: seq<nat>, pitch: nat, w: nat, h: nat, j: nat)
    requires Strided(s, pitch, w, h) && j < h
    ensures RowStart(j, pitch) + w <= |s|
    ensures j >= 2 ==> RowStart(j, pitch) >= 2 * pitch
    ensures j + 2 < h ==> RowStart(j, pitch) + 2 * pitch + w <= |s|
  {
    RowNeighbours(j, pitch);
    StrideIndex(s, pitch, w, h, w - 1, j);
    if j + 2 < h { StrideIndex(s, pitch, w, h, w - 1, j + 2); }
  }

  /** A packed row holding a copy of host row j holds smoothed row j, since
      rows 0, 1, h-2 and h-1 are copied through. */
  lemma RowCopied(d: seq<nat>, S: seq<nat>, pitch: nat, w: nat, h: nat, j: nat, drow: nat, srow: nat)
    requires Strided(S, pitch, w, h) && |d| == w * h
    requires j < h && (j < 2 || j >= h - 2) && drow == RowStart(j, w) && srow == RowStart(j, pitch)
    requires srow + w <= |S| && drow + w <= |d|
    requires forall q :: drow <= q < drow + w ==> d[q] == S[q - drow + srow]
    ensures RowPrefixDone(d, S, pitch, w, h, j, drow, w)
  {
  }
}
