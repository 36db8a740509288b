/** Hysteresis thresholding (src/blurdetect.cpp:193-221). A sample above
    `high` is kept; a sample above `low` is kept when it is interior and at
    least one of its eight neighbours is above `high`; every other sample
    becomes zero. The pipeline runs it in place (:407), so the method allows
    its destination to be its source. */
module Threshold {
  import opened Plane

  /** At least one of the eight neighbours of (x, y) is above high, in the
      source's order of tests. */
  predicate StrongNeighbour(s: seq<nat>, w: nat, h: nat, high: int, x: int, y: int)
    requires Shaped(s, w, h) && Interior(w, h, x, y)
  {
    At(s, w, h, x - 1, y - 1) > high || At(s, w, h, x, y - 1) > high || At(s, w, h, x + 1, y - 1) > high ||
    At(s, w, h, x - 1, y) > high || At(s, w, h, x + 1, y) > high ||
    At(s, w, h, x - 1, y + 1) > high || At(s, w, h, x, y + 1) > high || At(s, w, h, x + 1, y + 1) > high
  }

  /** The output sample at (x, y). */
  function ThresholdAt(s: seq<nat>, w: nat, h: nat, low: int, high: int, x: int, y: int): nat
    requires Shaped(s, w, h) && InPlane(w, h, x, y)
  {
    var v := At(s, w, h, x, y);
    if v > high then v
    else if Interior(w, h, x, y) && v > low && StrongNeighbour(s, w, h, high, x, y) then v
    else 0
  }

  /** The whole output plane, every cell judged on the input plane s. */
  function Thresholded(s: seq<nat>, w: nat, h: nat, low: int, high: int): (r: seq<nat>)
    requires Shaped(s, w, h)
    ensures Shaped(r, w, h)
  {
    seq(w * h, q requires 0 <= q < w * h =>
      CoordsOf(w, h, q);
      ThresholdAt(s, w, h, low, high, ColOf(q, w), RowOf(q, w)))
  }

  lemma ThresholdedIndex(s: seq<nat>, w: nat, h: nat, low: int, high: int, x: int, y: int)
    requires Shaped(s, w, h) && InPlane(w, h, x, y)
    ensures Index(w, x, y) < w * h
    ensures Thresholded(s, w, h, low, high)[Index(w, x, y)] == ThresholdAt(s, w, h, low, high, x, y)
    ensures At(Thresholded(s, w, h, low, high), w, h, x, y) == ThresholdAt(s, w, h, low, high, x, y)
  {
    IndexOf(w, h, x, y);
  }

  /** Each output is its input or zero; an input above high is kept; a border
      input at most high is zeroed; and an output is above high exactly when
      its input is. */
  lemma CellLaw(s: seq<nat>, w: nat, h: nat, low: int, high: int, x: int, y: int)
    requires Shaped(s, w, h) && InPlane(w, h, x, y)
    ensures var r, v := ThresholdAt(s, w, h, low, high, x, y), At(s, w, h, x, y);
      (r == v || r == 0) &&
      (v > high ==> r == v) &&
      (!Interior(w, h, x, y) && v <= high ==> r == 0) &&
      (r > high <==> v > high)
  {
  }

  /** A sample at most high survives exactly when it is interior, above low,
      non-zero, and next to a sample above high. */
  lemma WeakSampleKeptIff(s: seq<nat>, w: nat, h: nat, low: int, high: int, x: int, y: int)
    requires Shaped(s, w, h) && InPlane(w, h, x, y) && At(s, w, h, x, y) <= high
    ensures ThresholdAt(s, w, h, low, high, x, y) != 0 <==>
      (Interior(w, h, x, y) && At(s, w, h, x, y) > low && At(s, w, h, x, y) != 0 &&
       StrongNeighbour(s, w, h, high, x, y))
  {
  }

  /** Every flat cell of the output is its input or zero, and the ones above
      high are exactly the inputs above high. */
  lemma OutputIsInputOrZero(s: seq<nat>, w: nat, h: nat, low: int, high: int)
    requires Shaped(s, w, h)
    ensures forall q :: 0 <= q < w * h ==>
      (Thresholded(s, w, h, low, high)[q] == s[q] || Thresholded(s, w, h, low, high)[q] == 0)
    ensures SameStrong(Thresholded(s, w, h, low, high), s, high)
  {
    forall q | 0 <= q < w * h
      ensures Thresholded(s, w, h, low, high)[q] == s[q] || Thresholded(s, w, h, low, high)[q] == 0
      ensures Thresholded(s, w, h, low, high)[q] > high <==> s[q] > high
    {
      CoordsOf(w, h, q);
      var x, y := ColOf(q, w), RowOf(q, w);
      CellLaw(s, w, h, low, high, x, y);
    }
  }

  /** Zeroed borders and bounds carry over from input to output. */
  lemma BorderAndBoundKept(s: seq<nat>, w: nat, h: nat, low: int, high: int, m: int)
    requires Shaped(s, w, h)
    ensures BorderZero(s, w, h) ==> BorderZero(Thresholded(s, w, h, low, high), w, h)
    ensures Bounded(s, m) ==> Bounded(Thresholded(s, w, h, low, high), m)
  {
    OutputIsInputOrZero(s, w, h, low, high);
    var t := Thresholded(s, w, h, low, high);
    forall x, y | InPlane(w, h, x, y)
      ensures At(t, w, h, x, y) == At(s, w, h, x, y) || At(t, w, h, x, y) == 0
    {
      IndexOf(w, h, x, y);
    }
  }

  /** Every cell above high in one plane is above high in the other, and back. */
  predicate SameStrong(a: seq<nat>, b: seq<nat>, high: int) {
    |a| == |b| && forall q | 0 <= q < |a| :: (a[q] > high <==> b[q] > high)
  }

  lemma StrongNeighbourAgrees(a: seq<nat>, b: seq<nat>, w: nat, h: nat, high: int, x: int, y: int)
    requires Shaped(a, w, h) && Shaped(b, w, h) && Interior(w, h, x, y) && SameStrong(a, b, high)
    ensures StrongNeighbour(a, w, h, high, x, y) == StrongNeighbour(b, w, h, high, x, y)
  {
    IndexOf(w, h, x - 1, y - 1);
    IndexOf(w, h, x, y - 1);
    IndexOf(w, h, x + 1, y - 1);
    IndexOf(w, h, x - 1, y);
    IndexOf(w, h, x + 1, y);
    IndexOf(w, h, x - 1, y + 1);
    IndexOf(w, h, x, y + 1);
    IndexOf(w, h, x + 1, y + 1);
  }

  /** A second pass with the same thresholds changes nothing. */
  lemma Idempotent(s: seq<nat>, w: nat, h: nat, low: int, high: int)
    requires Shaped(s, w, h)
    ensures Thresholded(Thresholded(s, w, h, low, high), w, h, low, high) == Thresholded(s, w, h, low, high)
  {
    var t := Thresholded(s, w, h, low, high);
    OutputIsInputOrZero(s, w, h, low, high);
    forall q | 0 <= q < w * h ensures Thresholded(t, w, h, low, high)[q] == t[q] {
      CoordsOf(w, h, q);
      var x, y := ColOf(q, w), RowOf(q, w);
      ThresholdedIndex(s, w, h, low, high, x, y);
      ThresholdedIndex(t, w, h, low, high, x, y);
      CellLaw(s, w, h, low, high, x, y);
      if Interior(w, h, x, y) {
        StrongNeighbourAgrees(t, s, w, h, high, x, y);
      }
    }
  }

  /** The source's eight neighbour tests on the flat buffer around column x of
      the row starting at `row`, made on a buffer that agrees with s above high. */
  lemma NeighbourTestsMatch(a: seq<nat>, s: seq<nat>, w: nat, h: nat, high: int, x: int, y: int, row: int)
    requires Shaped(s, w, h) && SameStrong(a, s, high) && Interior(w, h, x, y) && row == RowStart(y, w)
    ensures w <= row && row + w + w <= |a| && 0 < x < w - 1
    ensures StrongNeighbour(s, w, h, high, x, y) ==
      (a[row - w + x - 1] > high || a[row - w + x] > high || a[row - w + x + 1] > high ||
       a[row + x - 1] > high || a[row + x + 1] > high ||
       a[row + w + x - 1] > high || a[row + w + x] > high || a[row + w + x + 1] > high)
  {
    RowNeighbours(y, w);
    RowTests(a, s, w, h, high, x, y - 1, row - w);
    RowTests(a, s, w, h, high, x, y, row);
    RowTests(a, s, w, h, high, x, y + 1, row + w);
  }

  /** The three tests on one row: the cells left of, at and right of column x
      of the row starting at r are above high exactly when the samples are. */
  lemma RowTests(a: seq<nat>, s: seq<nat>, w: nat, h: nat, high: int, x: int, y: int, r: int)
    requires Shaped(s, w, h) && SameStrong(a, s, high) && 0 < x < w - 1 && 0 <= y < h && r == RowStart(y, w)
    ensures 0 <= r && r + w <= |a|
    ensures (a[r + x - 1] > high <==> At(s, w, h, x - 1, y) > high)
    ensures (a[r + x] > high <==> At(s, w, h, x, y) > high)
    ensures (a[r + x + 1] > high <==> At(s, w, h, x + 1, y) > high)
  {
    RowsFit(w, h, y + 1);
  }

  /** The output value for column i of row j, read from the buffer src while
      the pass is under way: the cell itself is still the input, and every
      other cell agrees with the input about which samples are above high. */
  method ThresholdValue(src: array<nat>, w: nat, h: nat, low: int, high: int, i: int, j: int, row: int,
                        ghost S: seq<nat>) returns (v: nat)
    requires Shaped(S, w, h) && SameStrong(src[..], S, high) && InPlane(w, h, i, j) && row == RowStart(j, w)
    requires row + i < |S| && src[row + i] == S[row + i]
    ensures v == ThresholdAt(S, w, h, low, high, i, j)
  {
    IndexOf(w, h, i, j);
    if src[row + i] > high {
      return src[row + i];
    }
    if !(i == 0 || i == w - 1 || j == 0 || j == h - 1) && src[row + i] > low {
      NeighbourTestsMatch(src[..], S, w, h, high, i, j, row);
      if src[row - w + i - 1] > high || src[row - w + i] > high || src[row - w + i + 1] > high ||
         src[row + i - 1] > high || src[row + i + 1] > high ||
         src[row + w + i - 1] > high || src[row + w + i] > high || src[row + w + i + 1] > high
      {
        return src[row + i];
      }
    }
    return 0;
  }

  /** Changing a cell to a value on the same side of high keeps SameStrong. */
  lemma SameStrongWrite(a: seq<nat>, b: seq<nat>, high: int, k: int, v: nat)
    requires SameStrong(a, b, high) && 0 <= k < |a| && (v > high <==> b[k] > high)
    ensures SameStrong(a[k := v], b, high)
  {
  }

  /** What holds of the two buffers once the cells before k are done. */
  ghost predicate PassInvariant(d: seq<nat>, a: seq<nat>, S: seq<nat>, w: nat, h: nat, low: int, high: int,
                                k: int, aliased: bool)
    requires Shaped(S, w, h)
  {
    Agrees(d, Thresholded(S, w, h, low, high), 0, k) && Agrees(a, S, k, w * h) &&
    SameStrong(a, S, high) && (!aliased ==> a == S) && (aliased ==> a == d)
  }

  /** One cell of the pass: the value is computed from src and stored in dst. */
  method ThresholdStep(dst: array<nat>, src: array<nat>, w: nat, h: nat, low: int, high: int,
                       i: int, j: int, row: int, ghost S: seq<nat>)
    requires Shaped(S, w, h) && dst.Length == w * h && src.Length == w * h
    requires InPlane(w, h, i, j) && row == RowStart(j, w)
    requires PassInvariant(dst[..], src[..], S, w, h, low, high, row + i, dst == src)
    modifies dst
    ensures PassInvariant(dst[..], src[..], S, w, h, low, high, row + i + 1, dst == src)
  {
    IndexOf(w, h, i, j);
    var v := ThresholdValue(src, w, h, low, high, i, j, row, S);
    ThresholdedIndex(S, w, h, low, high, i, j);
    CellLaw(S, w, h, low, high, i, j);
    ghost var d0, a0 := dst[..], src[..];
    dst[row + i] := v;
    AgreesWrite(d0, Thresholded(S, w, h, low, high), row + i, v);
    if dst == src {
      AgreesSuffixWrite(a0, S, row + i, w * h, v);
      SameStrongWrite(a0, S, high, row + i, v);
    }
  }

  /** The thresholding pass. dst may be src itself, as in the pipeline; the
      result is in both cases the plane judged on the input as it was. */
  method DoubleThreshold(dst: array<nat>, src: array<nat>, w: nat, h: nat, low: int, high: int)
    requires dst.Length == w * h && src.Length == w * h
    modifies dst
    ensures dst[..] == Thresholded(old(src[..]), w, h, low, high)
  {
    ghost var S := src[..];
    var j, row := 0, 0;
    while j < h
      invariant 0 <= j <= h && row == RowStart(j, w) && row <= w * h
      invariant PassInvariant(dst[..], src[..], S, w, h, low, high, row, dst == src)
    {
      var i := 0;
      RowsFit(w, h, j + 1);
      RowNeighbours(j, w);
      while i < w
        invariant 0 <= i <= w
        invariant PassInvariant(dst[..], src[..], S, w, h, low, high, row + i, dst == src)
      {
        ThresholdStep(dst, src, w, h, low, high, i, j, row, S);
        i := i + 1;
      }
      j, row := j + 1, row + w;
    }
    RowStartIsProduct(h, w);
    assert h * w == w * h;
    AgreesWhole(dst[..], Thresholded(S, w, h, low, high));
  }
}
