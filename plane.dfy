/** Planes are flat row-major buffers: the sample at column x of row y of a
    plane whose rows are w samples apart sits at index y * w + x. This module
    holds the coordinate predicates and the index arithmetic every stage
    shares. Row offsets are built by repeated addition (RowStart) so that the
    proofs about them stay linear; RowStartIsProduct ties them to y * w. */
module Plane {

  /** Column x, row y lies inside a plane of w columns and h rows. */
  predicate InPlane(w: int, h: int, x: int, y: int) {
    0 <= x < w && 0 <= y < h
  }

  /** At least one sample away from every edge: where a 3x3 stencil fits. */
  predicate Interior(w: int, h: int, x: int, y: int) {
    1 <= x < w - 1 && 1 <= y < h - 1
  }

  /** A buffer holding exactly one w x h plane. */
  predicate Shaped<T>(s: seq<T>, w: int, h: int) {
    0 <= w && 0 <= h && |s| == w * h
  }

  /** The offset of row y when rows are `stride` samples apart: y * stride. */
  function RowStart(y: nat, stride: nat): nat {
    if y == 0 then 0 else RowStart(y - 1, stride) + stride
  }

  lemma {:induction false} RowStartIsProduct(y: nat, stride: nat)
    ensures RowStart(y, stride) == y * stride
  {
    if y > 0 {
      RowStartIsProduct(y - 1, stride);
      assert (y - 1) * stride + stride == y * stride;
    }
  }

  /** A later row starts at least one full row further on. */
  lemma {:induction false} RowStartMonotone(y1: nat, y2: nat, stride: nat)
    requires y1 < y2
    ensures RowStart(y1, stride) + stride <= RowStart(y2, stride)
  {
    if y1 + 1 < y2 {
      RowStartMonotone(y1, y2 - 1, stride);
    }
  }

  /** Rows one and two above and below row y start one and two strides away. */
  lemma RowNeighbours(y: nat, stride: nat)
    ensures RowStart(y + 1, stride) == RowStart(y, stride) + stride
    ensures RowStart(y + 2, stride) == RowStart(y, stride) + 2 * stride
    ensures y >= 1 ==> RowStart(y - 1, stride) == RowStart(y, stride) - stride
    ensures y >= 2 ==> RowStart(y - 2, stride) == RowStart(y, stride) - 2 * stride
  {
    assert RowStart(y + 2, stride) == RowStart(y + 1, stride) + stride;
    if y >= 2 { assert RowStart(y - 1, stride) == RowStart(y - 2, stride) + stride; }
  }

  /** The flat index of column x, row y. */
  function Index(w: nat, x: nat, y: nat): nat {
    RowStart(y, w) + x
  }

  /** The row a flat index falls in. */
  function RowOf(q: nat, w: nat): nat
    requires w > 0
    decreases q
  {
    if q < w then 0 else 1 + RowOf(q - w, w)
  }

  /** The column a flat index falls in. */
  function ColOf(q: nat, w: nat): int
    requires w > 0
  {
    q - RowStart(RowOf(q, w), w)
  }

  lemma {:induction false} RowColOfIndex(w: nat, x: nat, y: nat)
    requires x < w
    ensures RowOf(Index(w, x, y), w) == y && ColOf(Index(w, x, y), w) == x
  {
    if y > 0 {
      RowColOfIndex(w, x, y - 1);
      assert Index(w, x, y) - w == Index(w, x, y - 1);
    }
  }

  lemma {:induction false} IndexBelow(w: nat, h: nat, x: nat, y: nat)
    requires x < w && y < h
    ensures Index(w, x, y) < RowStart(h, w)
  {
    RowStartMonotone(y, h, w);
  }

  lemma {:induction false} CoordsBelow(w: nat, q: nat)
    requires w > 0
    ensures 0 <= ColOf(q, w) < w && RowStart(RowOf(q, w), w) + ColOf(q, w) == q
  {
    if q >= w {
      CoordsBelow(w, q - w);
    }
  }

  lemma {:induction false} RowOfBelow(w: nat, h: nat, q: nat)
    requires w > 0 && q < RowStart(h, w)
    ensures RowOf(q, w) < h
  {
    if q >= w {
      assert h > 0;
      RowOfBelow(w, h - 1, q - w);
    }
  }

  /** The flat index of an in-plane pixel is in range and gives back its coordinates. */
  lemma IndexOf(w: int, h: int, x: int, y: int)
    requires InPlane(w, h, x, y)
    ensures 0 <= Index(w, x, y) < w * h
    ensures RowOf(Index(w, x, y), w) == y && ColOf(Index(w, x, y), w) == x
  {
    IndexBelow(w, h, x, y);
    RowStartIsProduct(h, w);
    assert h * w == w * h;
    RowColOfIndex(w, x, y);
  }

  /** The flat index of an in-plane pixel is in range. */
  lemma IndexBounds(w: int, h: int, x: int, y: int)
    requires InPlane(w, h, x, y)
    ensures 0 <= Index(w, x, y) < w * h
  {
    IndexBelow(w, h, x, y);
    RowStartIsProduct(h, w);
    assert h * w == w * h;
  }

  /** The first y rows of a w x h plane fit in its buffer. */
  lemma RowsFit(w: nat, h: nat, y: nat)
    requires y <= h
    ensures RowStart(y, w) <= w * h
  {
    if y < h { RowStartMonotone(y, h, w); }
    RowStartIsProduct(h, w);
    assert h * w == w * h;
  }

  /** Every flat index of a plane names an in-plane pixel. */
  lemma CoordsOf(w: int, h: int, q: int)
    requires 0 <= w && 0 <= h && 0 <= q < w * h
    ensures w > 0 && InPlane(w, h, ColOf(q, w), RowOf(q, w))
    ensures Index(w, ColOf(q, w), RowOf(q, w)) == q
  {
    assert w != 0;
    RowStartIsProduct(h, w);
    assert h * w == w * h;
    CoordsBelow(w, q);
    RowOfBelow(w, h, q);
  }

  /** The sample at column x, row y. */
  function At<T>(s: seq<T>, w: int, h: int, x: int, y: int): T
    requires Shaped(s, w, h) && InPlane(w, h, x, y)
  {
    IndexBounds(w, h, x, y);
    s[Index(w, x, y)]
  }

  /** Every sample of the plane is zero. */
  predicate AllZero(s: seq<nat>) {
    forall q :: 0 <= q < |s| ==> s[q] == 0
  }

  /** Every non-zero sample of the plane is an interior one. */
  ghost predicate BorderZero(s: seq<nat>, w: int, h: int)
    requires Shaped(s, w, h)
  {
    forall x, y :: InPlane(w, h, x, y) && At(s, w, h, x, y) > 0 ==> Interior(w, h, x, y)
  }

  /** Every sample is at most bound. */
  predicate Bounded(s: seq<nat>, bound: int) {
    forall q :: 0 <= q < |s| ==> s[q] <= bound
  }

  function Abs(v: int): nat {
    if v < 0 then -v else v
  }

  function Min(a: int, b: int): int {
    if a <= b then a else b
  }

  /** d and t agree on the index range lo .. hi - 1. */
  predicate Agrees<T(==)>(d: seq<T>, t: seq<T>, lo: int, hi: int) {
    0 <= lo <= hi <= |d| && hi <= |t| && forall q | lo <= q < hi :: d[q] == t[q]
  }

  /** Writing t's value at k extends the agreeing prefix by one cell. */
  lemma AgreesWrite<T>(d: seq<T>, t: seq<T>, k: int, v: T)
    requires Agrees(d, t, 0, k) && k < |d| && k < |t| && v == t[k]
    ensures Agrees(d[k := v], t, 0, k + 1)
  {
  }

  /** A cell already holding t's value extends the agreeing prefix by one cell. */
  lemma AgreesKeep<T>(d: seq<T>, t: seq<T>, k: int)
    requires Agrees(d, t, 0, k) && k < |d| && k < |t| && d[k] == t[k]
    ensures Agrees(d, t, 0, k + 1)
  {
  }

  /** Writing at k leaves the suffix from k + 1 on as it was. */
  lemma AgreesSuffixWrite<T>(d: seq<T>, t: seq<T>, k: int, hi: int, v: T)
    requires Agrees(d, t, k, hi) && k < hi
    ensures Agrees(d[k := v], t, k + 1, hi)
  {
  }

  /** A cell where t already equals the previous content moves from the
      untouched suffix to the agreeing prefix. */
  lemma AgreesKeepPrior<T>(d: seq<T>, t: seq<T>, prior: seq<T>, k: int)
    requires Agrees(d, t, 0, k) && Agrees(d, prior, k, |d|) && k < |d| && k < |t| && t[k] == prior[k]
    ensures Agrees(d, t, 0, k + 1) && Agrees(d, prior, k + 1, |d|)
  {
  }

  lemma AgreesWhole<T>(d: seq<T>, t: seq<T>)
    requires |d| == |t| && Agrees(d, t, 0, |d|)
    ensures d == t
  {
  }
}
