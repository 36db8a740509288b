/** Block pooling, the last stage (src/blurdetect.cpp:293-349). The plane is
    cut into complete blocks of block_width x block_height pixels. In each
    block, the edge widths of the pixels the thresholds kept are tallied. A
    block with at least one measured width and a total width of at least 2
    contributes its average width. The averages are sorted ascending, and the
    score is the mean of the lowest ceil(n * block_pct / 100) of them: the
    sharpest blocks. */
module Pooling {
  import opened Plane
  import opened Directions
  import opened EdgeWidth

  /** A block dimension of -1 stands for the whole plane dimension. */
  function EffectiveDim(bd: int, dim: int): int {
    if bd == -1 then dim else bd
  }

  /** A block dimension the pooling can divide by: a positive size, or -1 on
      a plane that is not empty. */
  predicate BlockDimOk(bd: int, dim: int) {
    bd >= 1 || (bd == -1 && dim >= 1)
  }

  /** How many widths have been measured in a block so far, and their sum. */
  datatype Tally = Tally(count: nat, total: real)

  /** The width that counts at pixel (x, y). A pixel the thresholds dropped
      (zero in `edges`) measures nothing. The in-plane test on the neighbour
      one step back always holds on a plane whose border is zero, which is
      what the pooling is given. */
  function CellWidth(edges: seq<nat>, dirs: seq<Direction>, smooth: seq<nat>, w: nat, h: nat,
                     radius: int, x: int, y: int): real
    requires Shaped(edges, w, h) && Shaped(dirs, w, h) && Shaped(smooth, w, h) && InPlane(w, h, x, y)
  {
    var d := At(dirs, w, h, x, y);
    if At(edges, w, h, x, y) > 0 && InPlane(w, h, x - WalkStep(d).0, y - WalkStep(d).1)
    then EdgeWidthOf(smooth, w, h, x, y, d, radius)
    else 0.0
  }

  /** The plane of widths: CellWidth at every pixel. */
  function Widths(edges: seq<nat>, dirs: seq<Direction>, smooth: seq<nat>, w: nat, h: nat, radius: int): (r: seq<real>)
    requires Shaped(edges, w, h) && Shaped(dirs, w, h) && Shaped(smooth, w, h)
    ensures Shaped(r, w, h)
  {
    seq(w * h, q requires 0 <= q < w * h =>
      CoordsOf(w, h, q);
      CellWidth(edges, dirs, smooth, w, h, radius, ColOf(q, w), RowOf(q, w)))
  }

  /** widths holds CellWidth at every pixel; the methods below take the plane
      in this form. */
  ghost predicate WidthsAre(widths: seq<real>, edges: seq<nat>, dirs: seq<Direction>, smooth: seq<nat>,
                            w: nat, h: nat, radius: int)
    requires Shaped(edges, w, h) && Shaped(dirs, w, h) && Shaped(smooth, w, h)
  {
    Shaped(widths, w, h) &&
    forall x, y {:trigger CellWidth(edges, dirs, smooth, w, h, radius, x, y)} | InPlane(w, h, x, y) ::
      At(widths, w, h, x, y) == CellWidth(edges, dirs, smooth, w, h, radius, x, y)
  }

  lemma WidthsAreWidths(edges: seq<nat>, dirs: seq<Direction>, smooth: seq<nat>, w: nat, h: nat, radius: int)
    requires Shaped(edges, w, h) && Shaped(dirs, w, h) && Shaped(smooth, w, h)
    ensures WidthsAre(Widths(edges, dirs, smooth, w, h, radius), edges, dirs, smooth, w, h, radius)
  {
    forall x, y | InPlane(w, h, x, y)
      ensures At(Widths(edges, dirs, smooth, w, h, radius), w, h, x, y) == CellWidth(edges, dirs, smooth, w, h, radius, x, y)
    {
      WidthsAt(edges, dirs, smooth, w, h, radius, x, y);
    }
  }

  lemma WidthsAt(edges: seq<nat>, dirs: seq<Direction>, smooth: seq<nat>, w: nat, h: nat, radius: int, x: int, y: int)
    requires Shaped(edges, w, h) && Shaped(dirs, w, h) && Shaped(smooth, w, h) && InPlane(w, h, x, y)
    ensures At(Widths(edges, dirs, smooth, w, h, radius), w, h, x, y) == CellWidth(edges, dirs, smooth, w, h, radius, x, y)
  {
    IndexOf(w, h, x, y);
  }

  /** Adds one width to a tally; widths of 0.001 or less are thrown away. */
  function Count(t: Tally, width: real): Tally {
    if width > 0.001 then Tally(t.count + 1, t.total + width) else t
  }

  /** t, then the widths of the first n pixels of row y from column x0. */
  function RowTally(widths: seq<real>, w: nat, h: nat, x0: nat, y: nat, n: nat, t: Tally): Tally
    requires Shaped(widths, w, h) && x0 + n <= w && y < h
  {
    if n == 0 then t
    else Count(RowTally(widths, w, h, x0, y, n - 1, t), At(widths, w, h, x0 + n - 1, y))
  }

  /** The tally of the first m rows of the bw-pixel-wide block whose top-left
      pixel is (x0, y0), row by row as the source visits them. */
  function BlockTally(widths: seq<real>, w: nat, h: nat, x0: nat, y0: nat, bw: nat, m: nat): Tally
    requires Shaped(widths, w, h) && x0 + bw <= w && y0 + m <= h
  {
    if m == 0 then Tally(0, 0.0)
    else RowTally(widths, w, h, x0, y0 + m - 1, bw, BlockTally(widths, w, h, x0, y0, bw, m - 1))
  }

  /** A block with too few edge pixels counts as smooth and is left out. */
  predicate Included(t: Tally) {
    t.total >= 2.0 && t.count > 0
  }

  function Average(t: Tally): real
    requires t.count > 0
  {
    t.total / t.count as real
  }

  /** The averages of the included blocks among the first n blocks of block
      row r, left to right. Block c of the row starts at column c * bw. */
  function RowAverages(widths: seq<real>, w: nat, h: nat, bw: nat, bh: nat, r: nat, n: nat): seq<real>
    requires Shaped(widths, w, h) && RowStart(n, bw) <= w && RowStart(r, bh) + bh <= h
  {
    if n == 0 then []
    else
      var t := BlockTally(widths, w, h, RowStart(n - 1, bw), RowStart(r, bh), bw, bh);
      RowAverages(widths, w, h, bw, bh, r, n - 1) + (if Included(t) then [Average(t)] else [])
  }

  /** The averages of the included blocks of the first m block rows, each of
      `cols` blocks, in the order the source stores them. */
  function Averages(widths: seq<real>, w: nat, h: nat, bw: nat, bh: nat, cols: nat, m: nat): seq<real>
    requires Shaped(widths, w, h) && RowStart(cols, bw) <= w && RowStart(m, bh) <= h
  {
    if m == 0 then []
    else Averages(widths, w, h, bw, bh, cols, m - 1) + RowAverages(widths, w, h, bw, bh, m - 1, cols)
  }

  /** dim / bd complete blocks of bd pixels fit in dim pixels. */
  lemma BlocksFit(dim: nat, bd: nat)
    requires bd >= 1
    ensures RowStart(dim / bd, bd) <= dim
  {
    RowStartIsProduct(dim / bd, bd);
  }

  /** The averages of every included complete block of the plane. */
  function BlockAverages(widths: seq<real>, w: nat, h: nat, blockWidth: int, blockHeight: int): seq<real>
    requires Shaped(widths, w, h) && BlockDimOk(blockWidth, w) && BlockDimOk(blockHeight, h)
  {
    var bw, bh := EffectiveDim(blockWidth, w), EffectiveDim(blockHeight, h);
    BlocksFit(w, bw);
    BlocksFit(h, bh);
    Averages(widths, w, h, bw, bh, w / bw, h / bh)
  }

  // ---- sorting and the percentile cut ----

  predicate Ascending(s: seq<real>) {
    forall i, j :: 0 <= i < j < |s| ==> s[i] <= s[j]
  }

  /** x inserted into s before the first element not below it. */
  function Insert(x: real, s: seq<real>): (r: seq<real>)
    ensures |r| == |s| + 1
  {
    if |s| == 0 || x <= s[0] then [x] + s else [s[0]] + Insert(x, s[1..])
  }

  /** The ascending arrangement of s, by insertion. */
  function Sort(s: seq<real>): (r: seq<real>)
    ensures |r| == |s|
  {
    if |s| == 0 then [] else Insert(s[0], Sort(s[1..]))
  }

  predicate AtLeast(s: seq<real>, c: real) {
    forall i :: 0 <= i < |s| ==> c <= s[i]
  }

  lemma {:induction false} InsertAtLeast(x: real, s: seq<real>, c: real)
    requires AtLeast(s, c) && c <= x
    ensures AtLeast(Insert(x, s), c)
  {
    if |s| > 0 && x > s[0] {
      InsertAtLeast(x, s[1..], c);
    }
  }

  lemma {:induction false} InsertKeepsOrder(x: real, s: seq<real>)
    requires Ascending(s)
    ensures Ascending(Insert(x, s))
  {
    if |s| > 0 && x > s[0] {
      InsertKeepsOrder(x, s[1..]);
      InsertAtLeast(x, s[1..], s[0]);
    }
  }

  lemma {:induction false} InsertAddsOne(x: real, s: seq<real>)
    ensures multiset(Insert(x, s)) == multiset{x} + multiset(s)
  {
    if |s| > 0 && x > s[0] {
      InsertAddsOne(x, s[1..]);
      assert s == [s[0]] + s[1..];
    }
  }

  /** Sort orders its input ascending and keeps every element, with its
      multiplicity. */
  lemma {:induction false} SortOrdersAndPermutes(s: seq<real>)
    ensures Ascending(Sort(s))
    ensures multiset(Sort(s)) == multiset(s)
  {
    if |s| > 0 {
      SortOrdersAndPermutes(s[1..]);
      InsertKeepsOrder(s[0], Sort(s[1..]));
      InsertAddsOne(s[0], Sort(s[1..]));
      assert s == [s[0]] + s[1..];
    }
  }

  /** The sum of s, added from the front as the source's final loop does. */
  function Sum(s: seq<real>): real {
    if |s| == 0 then 0.0 else Sum(s[..|s| - 1]) + s[|s| - 1]
  }

  lemma {:induction false} SumCons(x: real, s: seq<real>)
    ensures Sum([x] + s) == x + Sum(s)
  {
    if |s| > 0 {
      assert ([x] + s)[..|s|] == [x] + s[..|s| - 1];
      SumCons(x, s[..|s| - 1]);
    }
  }

  lemma {:induction false} SumInsert(x: real, s: seq<real>)
    ensures Sum(Insert(x, s)) == x + Sum(s)
  {
    if |s| == 0 || x <= s[0] {
      SumCons(x, s);
    } else {
      SumInsert(x, s[1..]);
      SumCons(s[0], Insert(x, s[1..]));
      SumCons(s[0], s[1..]);
      assert s == [s[0]] + s[1..];
    }
  }

  /** Sorting does not change the sum. */
  lemma {:induction false} SumSort(s: seq<real>)
    ensures Sum(Sort(s)) == Sum(s)
  {
    if |s| > 0 {
      SumSort(s[1..]);
      SumInsert(s[0], Sort(s[1..]));
      SumCons(s[0], s[1..]);
      assert s == [s[0]] + s[1..];
    }
  }

  /** How many of n sorted blocks are kept: ceil(n * pct / 100). */
  function KeepCount(n: nat, pct: int): nat
    requires 0 <= pct
  {
    (n * pct + 99) / 100
  }

  /** KeepCount is the ceiling of n * pct / 100; with pct in 1 .. 100 it keeps
      at least one of a non-empty set and never more than all of them, and
      pct = 100 keeps them all. */
  lemma KeepCountBounds(n: nat, pct: int)
    requires 1 <= pct <= 100
    ensures KeepCount(n, pct) * 100 >= n * pct > KeepCount(n, pct) * 100 - 100
    ensures KeepCount(n, pct) <= n
    ensures n >= 1 ==> KeepCount(n, pct) >= 1
    ensures pct == 100 ==> KeepCount(n, pct) == n
  {
    var q := n * pct;
    MulAtMost(n, pct, 100);
    var k := KeepCount(n, pct);
    assert k * 100 <= q + 99 < k * 100 + 100;
    if n >= 1 {
      MulAtMost(n, 1, pct);
      assert q >= 1;
    }
    if pct == 100 {
      assert q == n * 100;
    }
  }

  lemma MulAtMost(a: nat, b: int, c: int)
    requires b <= c
    ensures a * b <= a * c
  {
  }

  /** The mean of the sharpest pct percent of the block averages, or 0 when
      none are kept. */
  function Pool(blocks: seq<real>, pct: int): real
    requires 1 <= pct <= 100
  {
    var sorted := Sort(blocks);
    var k := KeepCount(|sorted|, pct);
    KeepCountBounds(|sorted|, pct);
    if k == 0 then 0.0 else Sum(sorted[..k]) / k as real
  }

  /** The plane's blur score. */
  function BlurScore(edges: seq<nat>, dirs: seq<Direction>, smooth: seq<nat>, w: nat, h: nat,
                     radius: int, pct: int, blockWidth: int, blockHeight: int): real
    requires Shaped(edges, w, h) && Shaped(dirs, w, h) && Shaped(smooth, w, h)
    requires BlockDimOk(blockWidth, w) && BlockDimOk(blockHeight, h) && 1 <= pct <= 100
  {
    Pool(BlockAverages(Widths(edges, dirs, smooth, w, h, radius), w, h, blockWidth, blockHeight), pct)
  }

  // ---- what the pooling promises ----

  /** Every element of s lies in [lo, hi]. */
  predicate Within(s: seq<real>, lo: real, hi: real) {
    forall i :: 0 <= i < |s| ==> lo <= s[i] <= hi
  }

  lemma WithinAppend(a: seq<real>, b: seq<real>, lo: real, hi: real)
    requires Within(a, lo, hi) && Within(b, lo, hi)
    ensures Within(a + b, lo, hi)
  {
  }

  lemma {:induction false} SumWithin(s: seq<real>, lo: real, hi: real)
    requires Within(s, lo, hi)
    ensures lo * |s| as real <= Sum(s) <= hi * |s| as real
  {
    if |s| > 0 {
      SumWithin(s[..|s| - 1], lo, hi);
    }
  }

  /** Sorting keeps the elements, so it keeps any range they lie in. */
  lemma SortWithin(s: seq<real>, lo: real, hi: real)
    requires Within(s, lo, hi)
    ensures Within(Sort(s), lo, hi)
  {
    SortOrdersAndPermutes(s);
    var r := Sort(s);
    forall i | 0 <= i < |r|
      ensures lo <= r[i] <= hi
    {
      assert r[i] in multiset(s);
      var j :| 0 <= j < |s| && s[j] == r[i];
    }
  }

  lemma DivAtMost(a: real, b: real, c: real, d: real)
    requires c > 0.0 && d > 0.0 && a * d <= b * c
    ensures a / c <= b / d
  {
    assert a / c == (a * d) / (c * d);
    assert b / d == (b * c) / (c * d);
  }

  lemma DivWithin(t: real, n: real, lo: real, hi: real)
    requires n > 0.0 && lo * n <= t <= hi * n
    ensures lo <= t / n <= hi
  {
    assert lo == (lo * n) / n;
    assert hi == (hi * n) / n;
  }

  /** In an ascending sequence the mean of the first k elements does not
      drop when the next element joins. */
  lemma PrefixMeanStep(s: seq<real>, k: nat)
    requires Ascending(s) && 1 <= k < |s|
    ensures Sum(s[..k]) / k as real <= Sum(s[..k + 1]) / (k + 1) as real
  {
    var p := s[..k];
    assert s[..k + 1][..k] == p;
    var total := Sum(p);
    assert Within(p, p[0], s[k]);
    SumWithin(p, p[0], s[k]);
    assert total * (k + 1) as real == total * k as real + total;
    assert (total + s[k]) * k as real == total * k as real + s[k] * k as real;
    DivAtMost(total, total + s[k], k as real, (k + 1) as real);
  }

  lemma {:induction false} PrefixMeanAtMostMean(s: seq<real>, k: nat)
    requires Ascending(s) && 1 <= k <= |s|
    ensures Sum(s[..k]) / k as real <= Sum(s) / |s| as real
    decreases |s| - k
  {
    if k == |s| {
      assert s[..k] == s;
    } else {
      PrefixMeanStep(s, k);
      PrefixMeanAtMostMean(s, k + 1);
    }
  }

  /** Keeping the sharpest blocks never raises the score above the mean of
      all included blocks; with block_pct = 100 it is that mean; and with no
      included block it is 0. */
  lemma PoolAtMostMean(blocks: seq<real>, pct: int)
    requires 1 <= pct <= 100
    ensures |blocks| == 0 ==> Pool(blocks, pct) == 0.0
    ensures |blocks| > 0 ==> Pool(blocks, pct) <= Sum(blocks) / |blocks| as real
    ensures |blocks| > 0 && pct == 100 ==> Pool(blocks, pct) == Sum(blocks) / |blocks| as real
  {
    if |blocks| > 0 {
      PoolIsPrefixMean(blocks, pct);
    } else {
      KeepCountBounds(0, pct);
    }
  }

  lemma PoolIsPrefixMean(blocks: seq<real>, pct: int)
    requires 1 <= pct <= 100 && |blocks| > 0
    ensures Pool(blocks, pct) <= Sum(blocks) / |blocks| as real
    ensures pct == 100 ==> Pool(blocks, pct) == Sum(blocks) / |blocks| as real
  {
    var sorted := Sort(blocks);
    var n := |sorted|;
    var k := KeepCount(n, pct);
    assert Ascending(sorted) && n == |blocks| by {
      SortOrdersAndPermutes(blocks);
      assert |multiset(sorted)| == |multiset(blocks)|;
    }
    assert 1 <= k <= n && (pct == 100 ==> k == n) by {
      KeepCountBounds(n, pct);
    }
    assert Pool(blocks, pct) == Sum(sorted[..k]) / k as real;
    assert Sum(sorted) == Sum(blocks) by {
      SumSort(blocks);
    }
    PrefixMeanAtMostMean(sorted, k);
    if pct == 100 {
      assert sorted[..k] == sorted;
    }
  }

  /** The pooled score lies within any range the block averages lie in. */
  lemma PoolWithin(blocks: seq<real>, pct: int, lo: real, hi: real)
    requires 1 <= pct <= 100 && Within(blocks, lo, hi)
    ensures |blocks| > 0 ==> lo <= Pool(blocks, pct) <= hi
  {
    var sorted := Sort(blocks);
    KeepCountBounds(|sorted|, pct);
    if |blocks| > 0 {
      SortWithin(blocks, lo, hi);
      var k := KeepCount(|sorted|, pct);
      assert Within(sorted[..k], lo, hi);
      SumWithin(sorted[..k], lo, hi);
      DivWithin(Sum(sorted[..k]), k as real, lo, hi);
    }
  }

  /** Every measured width is between 0.7 and 2 * radius: a tally of them
      keeps its total between 0.7 and 2 * radius times its count. */
  predicate TallyWithin(t: Tally, radius: int) {
    0.7 * t.count as real <= t.total <= (2 * radius) as real * t.count as real
  }

  /** Every width is 0 or lies in [0.7, 2 * radius]. */
  predicate WidthsOk(widths: seq<real>, radius: int) {
    forall q :: 0 <= q < |widths| ==> widths[q] == 0.0 || 0.7 <= widths[q] <= (2 * radius) as real
  }

  /** The measured widths are 0 or in [0.7, 2 * radius]. */
  lemma WidthsInRange(edges: seq<nat>, dirs: seq<Direction>, smooth: seq<nat>, w: nat, h: nat, radius: int)
    requires Shaped(edges, w, h) && Shaped(dirs, w, h) && Shaped(smooth, w, h) && 0 <= radius
    ensures WidthsOk(Widths(edges, dirs, smooth, w, h, radius), radius)
  {
    var r := Widths(edges, dirs, smooth, w, h, radius);
    forall q | 0 <= q < |r|
      ensures r[q] == 0.0 || 0.7 <= r[q] <= (2 * radius) as real
    {
      CoordsOf(w, h, q);
      var x, y := ColOf(q, w), RowOf(q, w);
      var d := At(dirs, w, h, x, y);
      if At(edges, w, h, x, y) > 0 && InPlane(w, h, x - WalkStep(d).0, y - WalkStep(d).1) {
        EdgeWidthBounds(smooth, w, h, x, y, d, radius);
        NonZeroWidthIsAtLeastSevenTenths(smooth, w, h, x, y, d, radius);
      }
    }
  }

  lemma CountWithin(t: Tally, width: real, radius: int)
    requires TallyWithin(t, radius) && (width == 0.0 || 0.7 <= width <= (2 * radius) as real)
    ensures TallyWithin(Count(t, width), radius)
  {
    if width > 0.001 {
      var c, r := t.count as real, (2 * radius) as real;
      assert (c + 1.0) * r == c * r + r;
      assert (t.count + 1) as real == c + 1.0;
    }
  }

  lemma {:induction false} RowTallyWithin(widths: seq<real>, w: nat, h: nat, radius: int, x0: nat, y: nat, n: nat, t: Tally)
    requires Shaped(widths, w, h) && WidthsOk(widths, radius)
    requires x0 + n <= w && y < h && TallyWithin(t, radius)
    ensures TallyWithin(RowTally(widths, w, h, x0, y, n, t), radius)
  {
    if n > 0 {
      RowTallyWithin(widths, w, h, radius, x0, y, n - 1, t);
      IndexOf(w, h, x0 + n - 1, y);
      CountWithin(RowTally(widths, w, h, x0, y, n - 1, t), At(widths, w, h, x0 + n - 1, y), radius);
    }
  }

  lemma {:induction false} BlockTallyWithin(widths: seq<real>, w: nat, h: nat, radius: int, x0: nat, y0: nat, bw: nat, m: nat)
    requires Shaped(widths, w, h) && WidthsOk(widths, radius)
    requires x0 + bw <= w && y0 + m <= h && 0 <= radius
    ensures TallyWithin(BlockTally(widths, w, h, x0, y0, bw, m), radius)
  {
    if m > 0 {
      BlockTallyWithin(widths, w, h, radius, x0, y0, bw, m - 1);
      RowTallyWithin(widths, w, h, radius, x0, y0 + m - 1, bw, BlockTally(widths, w, h, x0, y0, bw, m - 1));
    }
  }

  lemma {:induction false} RowAveragesWithin(widths: seq<real>, w: nat, h: nat, radius: int, bw: nat, bh: nat, r: nat, n: nat)
    requires Shaped(widths, w, h) && WidthsOk(widths, radius)
    requires RowStart(n, bw) <= w && RowStart(r, bh) + bh <= h && 0 <= radius
    ensures Within(RowAverages(widths, w, h, bw, bh, r, n), 0.7, (2 * radius) as real)
    ensures |RowAverages(widths, w, h, bw, bh, r, n)| <= n
  {
    if n > 0 {
      RowAveragesWithin(widths, w, h, radius, bw, bh, r, n - 1);
      var t := BlockTally(widths, w, h, RowStart(n - 1, bw), RowStart(r, bh), bw, bh);
      BlockTallyWithin(widths, w, h, radius, RowStart(n - 1, bw), RowStart(r, bh), bw, bh);
      AverageWithin(t, radius);
      WithinAppend(RowAverages(widths, w, h, bw, bh, r, n - 1), if Included(t) then [Average(t)] else [],
                   0.7, (2 * radius) as real);
    }
  }

  /** An included block's average lies in the range of the widths it averages. */
  lemma AverageWithin(t: Tally, radius: int)
    requires TallyWithin(t, radius)
    ensures Within(if Included(t) then [Average(t)] else [], 0.7, (2 * radius) as real)
  {
    if Included(t) {
      DivWithin(t.total, t.count as real, 0.7, (2 * radius) as real);
    }
  }

  lemma {:induction false} AveragesWithin(widths: seq<real>, w: nat, h: nat, radius: int, bw: nat, bh: nat, cols: nat, m: nat)
    requires Shaped(widths, w, h) && WidthsOk(widths, radius)
    requires RowStart(cols, bw) <= w && RowStart(m, bh) <= h && 0 <= radius
    ensures Within(Averages(widths, w, h, bw, bh, cols, m), 0.7, (2 * radius) as real)
    ensures |Averages(widths, w, h, bw, bh, cols, m)| <= RowStart(m, cols)
  {
    if m > 0 {
      AveragesWithin(widths, w, h, radius, bw, bh, cols, m - 1);
      RowAveragesWithin(widths, w, h, radius, bw, bh, m - 1, cols);
      WithinAppend(Averages(widths, w, h, bw, bh, cols, m - 1), RowAverages(widths, w, h, bw, bh, m - 1, cols),
                   0.7, (2 * radius) as real);
    }
  }

  /** Each included block's average width lies in [0.7, 2 * radius], and
      there are at most (w / bw) * (h / bh) of them: only complete blocks are
      looked at. With both block dimensions -1 the whole plane is one block. */
  lemma BlockAveragesBounded(widths: seq<real>, w: nat, h: nat, radius: int, blockWidth: int, blockHeight: int)
    requires Shaped(widths, w, h) && WidthsOk(widths, radius) && 0 <= radius
    requires BlockDimOk(blockWidth, w) && BlockDimOk(blockHeight, h)
    ensures Within(BlockAverages(widths, w, h, blockWidth, blockHeight), 0.7, (2 * radius) as real)
    ensures |BlockAverages(widths, w, h, blockWidth, blockHeight)| <=
      (w / EffectiveDim(blockWidth, w)) * (h / EffectiveDim(blockHeight, h))
    ensures blockWidth == -1 && blockHeight == -1 ==> |BlockAverages(widths, w, h, blockWidth, blockHeight)| <= 1
  {
    var bw, bh := EffectiveDim(blockWidth, w), EffectiveDim(blockHeight, h);
    BlocksFit(w, bw);
    BlocksFit(h, bh);
    AveragesWithin(widths, w, h, radius, bw, bh, w / bw, h / bh);
    RowStartIsProduct(h / bh, w / bw);
    assert (h / bh) * (w / bw) == (w / bw) * (h / bh);
  }

  /** The blur score is 0 when no block is included and otherwise lies in
      [0.7, 2 * radius], at most the mean of all included blocks' averages. */
  lemma BlurScoreBounds(edges: seq<nat>, dirs: seq<Direction>, smooth: seq<nat>, w: nat, h: nat,
                        radius: int, pct: int, blockWidth: int, blockHeight: int)
    requires Shaped(edges, w, h) && Shaped(dirs, w, h) && Shaped(smooth, w, h)
    requires BlockDimOk(blockWidth, w) && BlockDimOk(blockHeight, h) && 1 <= pct <= 100 && 0 <= radius
    ensures var blocks := BlockAverages(Widths(edges, dirs, smooth, w, h, radius), w, h, blockWidth, blockHeight);
      var score := BlurScore(edges, dirs, smooth, w, h, radius, pct, blockWidth, blockHeight);
      (score == 0.0 <==> |blocks| == 0) &&
      (|blocks| > 0 ==> 0.7 <= score <= (2 * radius) as real && score <= Sum(blocks) / |blocks| as real)
  {
    var widths := Widths(edges, dirs, smooth, w, h, radius);
    var blocks := BlockAverages(widths, w, h, blockWidth, blockHeight);
    WidthsInRange(edges, dirs, smooth, w, h, radius);
    BlockAveragesBounded(widths, w, h, radius, blockWidth, blockHeight);
    PoolAtMostMean(blocks, pct);
    PoolWithin(blocks, pct, 0.7, (2 * radius) as real);
  }

  /** No width is measured anywhere. */
  predicate NoWidths(widths: seq<real>) {
    forall q :: 0 <= q < |widths| ==> widths[q] == 0.0
  }

  lemma {:induction false} RowTallyUnchanged(widths: seq<real>, w: nat, h: nat, x0: nat, y: nat, n: nat, t: Tally)
    requires Shaped(widths, w, h) && NoWidths(widths) && x0 + n <= w && y < h
    ensures RowTally(widths, w, h, x0, y, n, t) == t
  {
    if n > 0 {
      RowTallyUnchanged(widths, w, h, x0, y, n - 1, t);
      IndexOf(w, h, x0 + n - 1, y);
    }
  }

  lemma {:induction false} BlockTallyEmpty(widths: seq<real>, w: nat, h: nat, x0: nat, y0: nat, bw: nat, m: nat)
    requires Shaped(widths, w, h) && NoWidths(widths) && x0 + bw <= w && y0 + m <= h
    ensures BlockTally(widths, w, h, x0, y0, bw, m) == Tally(0, 0.0)
  {
    if m > 0 {
      BlockTallyEmpty(widths, w, h, x0, y0, bw, m - 1);
      RowTallyUnchanged(widths, w, h, x0, y0 + m - 1, bw, Tally(0, 0.0));
    }
  }

  lemma {:induction false} RowAveragesEmpty(widths: seq<real>, w: nat, h: nat, bw: nat, bh: nat, r: nat, n: nat)
    requires Shaped(widths, w, h) && NoWidths(widths) && RowStart(n, bw) <= w && RowStart(r, bh) + bh <= h
    ensures RowAverages(widths, w, h, bw, bh, r, n) == []
  {
    if n > 0 {
      RowAveragesEmpty(widths, w, h, bw, bh, r, n - 1);
      BlockTallyEmpty(widths, w, h, RowStart(n - 1, bw), RowStart(r, bh), bw, bh);
    }
  }

  lemma {:induction false} AveragesEmpty(widths: seq<real>, w: nat, h: nat, bw: nat, bh: nat, cols: nat, m: nat)
    requires Shaped(widths, w, h) && NoWidths(widths) && RowStart(cols, bw) <= w && RowStart(m, bh) <= h
    ensures Averages(widths, w, h, bw, bh, cols, m) == []
  {
    if m > 0 {
      AveragesEmpty(widths, w, h, bw, bh, cols, m - 1);
      RowAveragesEmpty(widths, w, h, bw, bh, m - 1, cols);
      assert Averages(widths, w, h, bw, bh, cols, m) == [] + [];
    }
  }

  /** A plane in which the thresholds kept no pixel has no included block and
      scores 0. */
  lemma NoEdgesScoreZero(edges: seq<nat>, dirs: seq<Direction>, smooth: seq<nat>, w: nat, h: nat,
                         radius: int, pct: int, blockWidth: int, blockHeight: int)
    requires Shaped(edges, w, h) && Shaped(dirs, w, h) && Shaped(smooth, w, h) && AllZero(edges)
    requires BlockDimOk(blockWidth, w) && BlockDimOk(blockHeight, h) && 1 <= pct <= 100
    ensures BlockAverages(Widths(edges, dirs, smooth, w, h, radius), w, h, blockWidth, blockHeight) == []
    ensures BlurScore(edges, dirs, smooth, w, h, radius, pct, blockWidth, blockHeight) == 0.0
  {
    var widths := Widths(edges, dirs, smooth, w, h, radius);
    forall q | 0 <= q < |widths|
      ensures widths[q] == 0.0
    {
      CoordsOf(w, h, q);
    }
    var bw, bh := EffectiveDim(blockWidth, w), EffectiveDim(blockHeight, h);
    BlocksFit(w, bw);
    BlocksFit(h, bh);
    AveragesEmpty(widths, w, h, bw, bh, w / bw, h / bh);
  }

  // ---- the source's loops ----

  /** A non-zero pixel of a plane with a zero border has its neighbour one
      walk step back inside the plane. */
  lemma BackNeighbourInPlane(edges: seq<nat>, w: nat, h: nat, x: int, y: int, d: Direction)
    requires Shaped(edges, w, h) && BorderZero(edges, w, h) && InPlane(w, h, x, y) && At(edges, w, h, x, y) > 0
    ensures InPlane(w, h, x - WalkStep(d).0, y - WalkStep(d).1)
  {
    assert Interior(w, h, x, y);
  }

  /** One pixel of the block loops: its width is measured if the thresholds
      kept it, and counted if it is not zero. */
  method TallyPixel(dir: array<Direction>, dst: array<nat>, src: array<nat>, w: nat, h: nat, radius: int,
                    i: nat, j: nat, count: nat, total: real, ghost widths: seq<real>) returns (count': nat, total': real)
    requires dir.Length == w * h && dst.Length == w * h && src.Length == w * h
    requires BorderZero(dst[..], w, h) && InPlane(w, h, i, j)
    requires WidthsAre(widths, dst[..], dir[..], src[..], w, h, radius)
    ensures Tally(count', total') == Count(Tally(count, total), At(widths, w, h, i, j))
  {
    assert At(widths, w, h, i, j) == CellWidth(dst[..], dir[..], src[..], w, h, radius, i, j);
    count', total' := count, total;
    RowStartIsProduct(j, w);
    IndexOf(w, h, i, j);
    assert j * w + i == Index(w, i, j);
    if dst[j * w + i] > 0 {
      BackNeighbourInPlane(dst[..], w, h, i, j, dir[j * w + i]);
      var width := EdgeWidthAt(src, i, j, dir[j * w + i], w, h, radius);
      if width > 0.001 {
        count' := count' + 1;
        total' := total' + width;
      }
    }
  }

  /** One pixel row of a block: the source's ini loop. */
  method TallyRow(dir: array<Direction>, dst: array<nat>, src: array<nat>, w: nat, h: nat, radius: int,
                  x0: nat, y: nat, bw: nat, count: nat, total: real, ghost widths: seq<real>)
    returns (count': nat, total': real)
    requires dir.Length == w * h && dst.Length == w * h && src.Length == w * h
    requires BorderZero(dst[..], w, h) && x0 + bw <= w && y < h
    requires WidthsAre(widths, dst[..], dir[..], src[..], w, h, radius)
    ensures Tally(count', total') == RowTally(widths, w, h, x0, y, bw, Tally(count, total))
  {
    count', total' := count, total;
    var ini := 0;
    while ini < bw
      invariant ini <= bw
      invariant Tally(count', total') == RowTally(widths, w, h, x0, y, ini, Tally(count, total))
    {
      count', total' := TallyPixel(dir, dst, src, w, h, radius, x0 + ini, y, count', total', widths);
      ini := ini + 1;
    }
  }

  /** The tally of one block: the source's inj / ini loops. */
  method TallyBlock(dir: array<Direction>, dst: array<nat>, src: array<nat>, w: nat, h: nat, radius: int,
                    x0: nat, y0: nat, bw: nat, bh: nat, ghost widths: seq<real>) returns (count: nat, total: real)
    requires dir.Length == w * h && dst.Length == w * h && src.Length == w * h
    requires BorderZero(dst[..], w, h) && x0 + bw <= w && y0 + bh <= h
    requires WidthsAre(widths, dst[..], dir[..], src[..], w, h, radius)
    ensures Tally(count, total) == BlockTally(widths, w, h, x0, y0, bw, bh)
  {
    count, total := 0, 0.0;
    var inj := 0;
    while inj < bh
      invariant inj <= bh
      invariant Tally(count, total) == BlockTally(widths, w, h, x0, y0, bw, inj)
    {
      count, total := TallyRow(dir, dst, src, w, h, radius, x0, y0 + inj, bw, count, total, widths);
      inj := inj + 1;
    }
  }

  /** One block row of the source's blkj / blki loops: appends the average
      of each included block of row blkj, left to right. */
  method CollectRow(dir: array<Direction>, dst: array<nat>, src: array<nat>, w: nat, h: nat, radius: int,
                    bw: nat, bh: nat, bcols: nat, blkj: nat, blks: seq<real>, ghost widths: seq<real>)
    returns (blks': seq<real>)
    requires dir.Length == w * h && dst.Length == w * h && src.Length == w * h
    requires BorderZero(dst[..], w, h) && WidthsAre(widths, dst[..], dir[..], src[..], w, h, radius)
    requires RowStart(bcols, bw) <= w && RowStart(blkj, bh) + bh <= h
    ensures blks' == blks + RowAverages(widths, w, h, bw, bh, blkj, bcols)
  {
    blks' := blks;
    var blki := 0;
    while blki < bcols
      invariant blki <= bcols && RowStart(blki, bw) <= w
      invariant blks' == blks + RowAverages(widths, w, h, bw, bh, blkj, blki)
    {
      RowStartMonotone(blki, bcols, bw);
      RowStartIsProduct(blki, bw);
      RowStartIsProduct(blkj, bh);
      var count, total := TallyBlock(dir, dst, src, w, h, radius, blki * bw, blkj * bh, bw, bh, widths);
      if total >= 2.0 && count > 0 {
        blks' := blks' + [total / count as real];
      }
      blki := blki + 1;
    }
  }

  /** The source's pooling tail: sorts the block averages, keeps the first
      ceil(n * pct / 100) and averages them. */
  method MeanOfSharpest(blocks: seq<real>, pct: int) returns (score: real)
    requires 1 <= pct <= 100
    ensures score == Pool(blocks, pct)
  {
    var blks := Sort(blocks);
    KeepCountBounds(|blks|, pct);
    var blkcnt := (|blks| * pct + 99) / 100;

    var totalWidth := 0.0;
    for i := 0 to blkcnt
      invariant totalWidth == Sum(blks[..i])
    {
      assert blks[..i + 1][..i] == blks[..i];
      totalWidth := totalWidth + blks[i];
    }
    score := if blkcnt == 0 then 0.0 else totalWidth / blkcnt as real;
  }

  /** The source's calculate_blur: pools the widths of the pixels `dst` kept,
      measured on the smoothed plane `src` along the directions `dir`. */
  method CalculateBlur(dir: array<Direction>, dst: array<nat>, src: array<nat>, w: nat, h: nat, radius: int,
                       pct: int, blockWidth: int, blockHeight: int) returns (score: real)
    requires dir.Length == w * h && dst.Length == w * h && src.Length == w * h
    requires BorderZero(dst[..], w, h)
    requires BlockDimOk(blockWidth, w) && BlockDimOk(blockHeight, h) && 1 <= pct <= 100
    ensures score == BlurScore(dst[..], dir[..], src[..], w, h, radius, pct, blockWidth, blockHeight)
  {
    WidthsAreWidths(dst[..], dir[..], src[..], w, h, radius);
    score := PoolBlocks(dir, dst, src, w, h, radius, pct, blockWidth, blockHeight,
                        Widths(dst[..], dir[..], src[..], w, h, radius));
  }

  /** The body of calculate_blur against a plane of widths. */
  method PoolBlocks(dir: array<Direction>, dst: array<nat>, src: array<nat>, w: nat, h: nat, radius: int,
                    pct: int, blockWidth: int, blockHeight: int, ghost widths: seq<real>) returns (score: real)
    requires dir.Length == w * h && dst.Length == w * h && src.Length == w * h
    requires BorderZero(dst[..], w, h) && WidthsAre(widths, dst[..], dir[..], src[..], w, h, radius)
    requires BlockDimOk(blockWidth, w) && BlockDimOk(blockHeight, h) && 1 <= pct <= 100
    ensures score == Pool(BlockAverages(widths, w, h, blockWidth, blockHeight), pct)
  {
    var bw: nat := if blockWidth == -1 then w else blockWidth;
    var bh: nat := if blockHeight == -1 then h else blockHeight;
    var brows := h / bh;
    var bcols := w / bw;
    BlocksFit(w, bw);
    BlocksFit(h, bh);

    var blks: seq<real> := [];
    var blkj := 0;
    while blkj < brows
      invariant blkj <= brows && RowStart(blkj, bh) <= h
      invariant blks == Averages(widths, w, h, bw, bh, bcols, blkj)
    {
      RowStartMonotone(blkj, brows, bh);
      blks := CollectRow(dir, dst, src, w, h, radius, bw, bh, bcols, blkj, blks, widths);
      blkj := blkj + 1;
    }
    assert blks == BlockAverages(widths, w, h, blockWidth, blockHeight);
    score := MeanOfSharpest(blks, pct);
  }
}
