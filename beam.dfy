/**
 * beam_analysis: reduce an image to two axes, mask invalid pixels, threshold,
 * take the foreground's centroids and sum the masked image in a window
 * around the intensity-weighted centroid.
 */
module Beam {
  import opened Outcomes
  import opened NdArrays
  import opened Slices

  /** Counts above this are pegged pixels of the Eiger detector. */
  const SATURATION_CEILING: real := 1000000.0

  /** The foreground threshold is this fraction of the brightest valid pixel, and at least 1. */
  const THRESHOLD_FRACTION: real := 0.0001

  /** A two-axis image: `h` rows of `w` pixels. */
  datatype Image = Image(h: nat, w: nat, px: seq<seq<real>>) {
    predicate Valid() { |px| == h && forall r | 0 <= r < h :: |px[r]| == w }
  }

  /** The rows and columns of a two-axis array as an image. */
  function ToImage(x: NdArray): (img: Image)
    requires x.Valid() && |x.shape| == 2
    ensures img.Valid() && img.h == x.shape[0] && img.w == x.shape[1]
    ensures forall r, c | 0 <= r < img.h && 0 <= c < img.w :: img.px[r][c] == At(x.data, x.shape, [r, c])
  {
    Image(x.shape[0], x.shape[1],
      seq(x.shape[0], r requires 0 <= r < x.shape[0] =>
        seq(x.shape[1], c requires 0 <= c < x.shape[1] && x.Valid() && |x.shape| == 2 && r < x.shape[0] =>
          At(x.data, x.shape, [r, c]))))
  }

  // ---------------------------------------------------------------- mask

  /** A pixel is valid when it is neither a negative (masked) sentinel nor pegged. */
  predicate InRange(v: real) { 0.0 <= v <= SATURATION_CEILING }

  function MaskValue(v: real): real { if InRange(v) then v else 0.0 }

  /** `imageData * (imageData >= 0 & imageData <= 1e6)`. */
  function Mask(img: Image): (m: Image)
    requires img.Valid()
    ensures m.Valid() && m.h == img.h && m.w == img.w
    ensures forall r, c | 0 <= r < m.h && 0 <= c < m.w :: 0.0 <= m.px[r][c] <= SATURATION_CEILING
    ensures forall r, c | 0 <= r < m.h && 0 <= c < m.w ::
              m.px[r][c] == img.px[r][c] <==> InRange(img.px[r][c])
    ensures forall r, c | 0 <= r < m.h && 0 <= c < m.w && !InRange(img.px[r][c]) :: m.px[r][c] == 0.0
  {
    Image(img.h, img.w,
      seq(img.h, r requires 0 <= r < img.h =>
        seq(img.w, c requires 0 <= c < img.w && img.Valid() && r < img.h => MaskValue(img.px[r][c]))))
  }

  /** Masking a masked image changes nothing. */
  lemma MaskIdempotent(img: Image)
    requires img.Valid()
    ensures Mask(Mask(img)) == Mask(img)
  {
    var m := Mask(img);
    forall r | 0 <= r < m.h ensures Mask(m).px[r] == m.px[r] { }
  }

  // ---------------------------------------------------------------- threshold

  /** The largest element of a non-empty sequence. */
  function SeqMax(s: seq<real>): (m: real)
    requires |s| > 0
    ensures forall i | 0 <= i < |s| :: s[i] <= m
    ensures exists i | 0 <= i < |s| :: s[i] == m
  {
    if |s| == 1 then s[0]
    else
      var t := SeqMax(s[1..]);
      if s[0] >= t then s[0] else t
  }

  /** `maskedTwoDImage.max()`. */
  function ImageMax(m: Image): (mx: real)
    requires m.Valid() && m.h > 0 && m.w > 0
    ensures forall r, c | 0 <= r < m.h && 0 <= c < m.w :: m.px[r][c] <= mx
    ensures exists r, c | 0 <= r < m.h && 0 <= c < m.w :: m.px[r][c] == mx
  {
    var rowMax := seq(m.h, r requires 0 <= r < m.h && m.Valid() && m.w > 0 => SeqMax(m.px[r]));
    var mx := SeqMax(rowMax);
    assert forall r, c | 0 <= r < m.h && 0 <= c < m.w :: m.px[r][c] <= mx by {
      forall r, c | 0 <= r < m.h && 0 <= c < m.w ensures m.px[r][c] <= mx {
        assert m.px[r][c] <= rowMax[r];
      }
    }
    assert exists r, c | 0 <= r < m.h && 0 <= c < m.w :: m.px[r][c] == mx by {
      var r :| 0 <= r < m.h && rowMax[r] == mx;
      var c :| 0 <= c < m.w && m.px[r][c] == rowMax[r];
    }
    mx
  }

  /** `np.maximum(1, 0.0001 * mx)`. */
  function Threshold(mx: real): (t: real)
    ensures t >= 1.0 && t >= THRESHOLD_FRACTION * mx
    ensures t == 1.0 || t == THRESHOLD_FRACTION * mx
  {
    if 1.0 >= THRESHOLD_FRACTION * mx then 1.0 else THRESHOLD_FRACTION * mx
  }

  /** The threshold beam_analysis applies to a non-empty image. */
  function ImageThreshold(img: Image): (t: real)
    requires img.Valid() && img.h > 0 && img.w > 0
  {
    Threshold(ImageMax(Mask(img)))
  }

  // ---------------------------------------------------------------- foreground

  /** A foreground pixel: its position and its intensity. */
  datatype Pixel = Pixel(row: nat, col: nat, value: real)

  /** `p` comes before `q` in row-major order. */
  predicate Before(p: Pixel, q: Pixel) { p.row < q.row || (p.row == q.row && p.col < q.col) }

  predicate RasterOrdered(fg: seq<Pixel>)
  {
    forall i, j | 0 <= i < j < |fg| :: Before(fg[i], fg[j])
  }

  /** The pixels of row `r`, from column `c` on, whose value exceeds `t`. */
  function RowForeground(m: Image, t: real, r: nat, c: nat): (fg: seq<Pixel>)
    requires m.Valid() && r < m.h && c <= m.w
    ensures forall p | p in fg :: p.row == r && c <= p.col < m.w && p.value == m.px[r][p.col] && p.value > t
    ensures forall k | c <= k < m.w && m.px[r][k] > t :: Pixel(r, k, m.px[r][k]) in fg
    ensures RasterOrdered(fg)
    decreases m.w - c
  {
    if c == m.w then []
    else if m.px[r][c] > t then [Pixel(r, c, m.px[r][c])] + RowForeground(m, t, r, c + 1)
    else RowForeground(m, t, r, c + 1)
  }

  /** A row's pixels followed by pixels of later rows stay in row-major order. */
  lemma ConcatRows(head: seq<Pixel>, rest: seq<Pixel>, r: nat)
    requires RasterOrdered(head) && RasterOrdered(rest)
    requires forall p | p in head :: p.row == r
    requires forall p | p in rest :: r < p.row
    ensures RasterOrdered(head + rest)
  {
    forall i, j | 0 <= i < j < |head + rest| ensures Before((head + rest)[i], (head + rest)[j]) {
      if j < |head| {
        assert Before(head[i], head[j]);
      } else if i < |head| {
        assert head[i] in head && rest[j - |head|] in rest;
      } else {
        assert Before(rest[i - |head|], rest[j - |head|]);
      }
    }
  }

  /** The pixels of rows `r` and below whose value exceeds `t`, in row-major order. */
  function ForegroundFrom(m: Image, t: real, r: nat): (fg: seq<Pixel>)
    requires m.Valid() && r <= m.h
    ensures forall p | p in fg :: r <= p.row < m.h && p.col < m.w && p.value == m.px[p.row][p.col] && p.value > t
    ensures forall i, k | r <= i < m.h && 0 <= k < m.w && m.px[i][k] > t :: Pixel(i, k, m.px[i][k]) in fg
    ensures RasterOrdered(fg)
    decreases m.h - r
  {
    if r == m.h then []
    else
      var head := RowForeground(m, t, r, 0);
      var rest := ForegroundFrom(m, t, r + 1);
      ConcatRows(head, rest, r);
      head + rest
  }

  /**
   * `maskedTwoDImage > threshold_value`, read off as the one region that
   * regionprops sees: every pixel of the label, once, in row-major order.
   */
  function Foreground(m: Image, t: real): (fg: seq<Pixel>)
    requires m.Valid()
    ensures forall p | p in fg :: p.row < m.h && p.col < m.w && p.value == m.px[p.row][p.col] && p.value > t
    ensures forall r, c | 0 <= r < m.h && 0 <= c < m.w && m.px[r][c] > t :: Pixel(r, c, m.px[r][c]) in fg
    ensures RasterOrdered(fg)
  {
    ForegroundFrom(m, t, 0)
  }

  // ---------------------------------------------------------------- centroids

  datatype Dim = Row | Col

  function Coord(p: Pixel, d: Dim): nat { if d == Row then p.row else p.col }

  /** The sum of the foreground's coordinates along `d`. */
  function CoordSum(fg: seq<Pixel>, d: Dim): real
  {
    if fg == [] then 0.0 else Coord(fg[0], d) as real + CoordSum(fg[1..], d)
  }

  /** The foreground's total intensity. */
  function WeightSum(fg: seq<Pixel>): (s: real)
    ensures (forall p | p in fg :: p.value > 0.0) && fg != [] ==> s > 0.0
  {
    if fg == [] then 0.0 else fg[0].value + WeightSum(fg[1..])
  }

  /** The sum of the foreground's coordinates along `d`, each times its intensity. */
  function WeightedCoordSum(fg: seq<Pixel>, d: Dim): real
  {
    if fg == [] then 0.0 else fg[0].value * Coord(fg[0], d) as real + WeightedCoordSum(fg[1..], d)
  }

  /** A (row, column) position in pixel units. */
  datatype Point = Point(row: real, col: real)

  /** regionprops' `centroid`: the mean position of the foreground pixels. */
  function Centroid(fg: seq<Pixel>): (c: Point)
    requires fg != []
    ensures c.row * |fg| as real == CoordSum(fg, Row) && c.col * |fg| as real == CoordSum(fg, Col)
  {
    Point(CoordSum(fg, Row) / |fg| as real, CoordSum(fg, Col) / |fg| as real)
  }

  /** regionprops' `weighted_centroid`: the intensity-weighted mean position of the foreground pixels. */
  function WeightedCentroid(fg: seq<Pixel>): (c: Point)
    requires fg != [] && forall p | p in fg :: p.value > 0.0
    ensures c.row * WeightSum(fg) == WeightedCoordSum(fg, Row) && c.col * WeightSum(fg) == WeightedCoordSum(fg, Col)
  {
    Point(WeightedCoordSum(fg, Row) / WeightSum(fg), WeightedCoordSum(fg, Col) / WeightSum(fg))
  }

  /** A single-pixel foreground, such as a pencil beam, has both centroids on that pixel. */
  lemma SinglePixelCentroids(p: Pixel)
    requires p.value > 0.0
    ensures Centroid([p]) == Point(p.row as real, p.col as real)
    ensures WeightedCentroid([p]) == Point(p.row as real, p.col as real)
  {
    assert [p][1..] == [];
    assert CoordSum([p], Row) == Coord(p, Row) as real + CoordSum([], Row);
    assert CoordSum([p], Col) == Coord(p, Col) as real + CoordSum([], Col);
    assert WeightSum([p]) == p.value;
    assert WeightedCoordSum([p], Row) == p.value * p.row as real;
    assert WeightedCoordSum([p], Col) == p.value * p.col as real;
  }

  lemma {:induction false} CoordSumBounds(fg: seq<Pixel>, d: Dim, e: real)
    requires forall p | p in fg :: Coord(p, d) as real <= e
    ensures 0.0 <= CoordSum(fg, d) <= |fg| as real * e
  {
    if fg != [] {
      assert fg[0] in fg;
      CoordSumBounds(fg[1..], d, e);
      AddBound(Coord(fg[0], d) as real, CoordSum(fg[1..], d), |fg[1..]| as real, |fg| as real, e);
    }
  }

  lemma WeightedCoordSumBounds(fg: seq<Pixel>, d: Dim, e: real)
    requires forall p | p in fg :: Coord(p, d) as real <= e && p.value > 0.0
    ensures 0.0 <= WeightedCoordSum(fg, d) <= WeightSum(fg) * e
  {
    WeightedCoordSumBelow(fg, d, e);
    ScaledWeightIsProduct(fg, e);
  }

  /** Each intensity times `e`, summed term by term. */
  function ScaledWeight(fg: seq<Pixel>, e: real): real
  {
    if fg == [] then 0.0 else fg[0].value * e + ScaledWeight(fg[1..], e)
  }

  /** Summing the scaled intensities is scaling the total intensity. */
  lemma {:induction false} ScaledWeightIsProduct(fg: seq<Pixel>, e: real)
    ensures ScaledWeight(fg, e) == WeightSum(fg) * e
  {
    if fg != [] {
      ScaledWeightIsProduct(fg[1..], e);
      Distribute(fg[0].value, WeightSum(fg[1..]), e);
    }
  }

  lemma Distribute(v: real, w: real, e: real)
    ensures v * e + w * e == (v + w) * e
  {
  }

  /** With coordinates bounded by `e`, each weighted coordinate is at most its scaled intensity. */
  lemma {:induction false} WeightedCoordSumBelow(fg: seq<Pixel>, d: Dim, e: real)
    requires forall p | p in fg :: Coord(p, d) as real <= e && p.value > 0.0
    ensures 0.0 <= WeightedCoordSum(fg, d) <= ScaledWeight(fg, e)
  {
    if fg != [] {
      assert fg[0] in fg;
      WeightedCoordSumBelow(fg[1..], d, e);
      TermBound(fg[0].value, Coord(fg[0], d) as real, e);
    }
  }

  /** A non-negative weight times a coordinate in `[0, e]` lies in `[0, weight * e]`. */
  lemma TermBound(v: real, x: real, e: real)
    requires 0.0 <= v && 0.0 <= x <= e
    ensures 0.0 <= v * x <= v * e
  {
    ScaleMonotone(v, x, e);
  }

  /** One more term of at most `e` raises a bound of `n * e` to `(n + 1) * e`. */
  lemma AddBound(x: real, acc: real, n: real, m: real, e: real)
    requires m == n + 1.0 && x <= e && acc <= n * e
    ensures x + acc <= m * e
  {
    assert m * e == e + n * e;
  }

  /** Scaling by a non-negative factor keeps order. */
  lemma ScaleMonotone(v: real, x: real, y: real)
    requires 0.0 <= v && x <= y
    ensures v * x <= v * y
  {
    assert v * y - v * x == v * (y - x);
  }

  /** `0 <= a / n <= b` when `0 <= a <= n * b` and `n > 0`. */
  lemma DivBound(a: real, n: real, b: real)
    requires 0.0 < n && 0.0 <= a <= n * b
    ensures 0.0 <= a / n <= b
  {
    assert a / n * n == a;
  }

  /** The unweighted centroid of pixels inside an `h` by `w` image lies in `[0, h-1] x [0, w-1]`. */
  lemma CentroidWithin(fg: seq<Pixel>, h: nat, w: nat)
    requires fg != [] && forall p | p in fg :: p.row < h && p.col < w
    ensures 0.0 <= Centroid(fg).row <= h as real - 1.0
    ensures 0.0 <= Centroid(fg).col <= w as real - 1.0
  {
    CoordSumBounds(fg, Row, h as real - 1.0);
    CoordSumBounds(fg, Col, w as real - 1.0);
    DivBound(CoordSum(fg, Row), |fg| as real, h as real - 1.0);
    DivBound(CoordSum(fg, Col), |fg| as real, w as real - 1.0);
  }

  /** So does the intensity-weighted centroid, when every intensity is positive. */
  lemma WeightedCentroidWithin(fg: seq<Pixel>, h: nat, w: nat)
    requires fg != [] && forall p | p in fg :: p.row < h && p.col < w && p.value > 0.0
    ensures 0.0 <= WeightedCentroid(fg).row <= h as real - 1.0
    ensures 0.0 <= WeightedCentroid(fg).col <= w as real - 1.0
  {
    WeightedCoordSumBounds(fg, Row, h as real - 1.0);
    WeightedCoordSumBounds(fg, Col, w as real - 1.0);
    DivBound(WeightedCoordSum(fg, Row), WeightSum(fg), h as real - 1.0);
    DivBound(WeightedCoordSum(fg, Col), WeightSum(fg), w as real - 1.0);
  }

  // ---------------------------------------------------------------- window sum

  /** `np.sum(m[rows.lo:rows.hi, cols.lo:cols.hi])`. */
  function WindowSum(m: Image, rows: Range, cols: Range): (s: real)
    requires m.Valid() && rows.lo <= rows.hi <= m.h && cols.lo <= cols.hi <= m.w
    ensures (forall r, c | rows.lo <= r < rows.hi && cols.lo <= c < cols.hi :: 0.0 <= m.px[r][c]) ==> 0.0 <= s
    decreases rows.hi - rows.lo
  {
    if rows.lo == rows.hi then 0.0
    else Sum(m.px[rows.lo][cols.lo..cols.hi]) + WindowSum(m, Range(rows.lo + 1, rows.hi), cols)
  }

  /** The most a `rows` by `cols` block of pegged-free pixels can hold: every pixel at the ceiling. */
  function Capacity(rows: nat, cols: nat): (c: real)
    ensures 0.0 <= c
  {
    Times(rows, Times(cols, SATURATION_CEILING))
  }

  /** The capacity is the block's area times the ceiling. */
  lemma CapacityIsArea(rows: nat, cols: nat)
    ensures Capacity(rows, cols) == rows as real * (cols as real * SATURATION_CEILING)
  {
    TimesIsProduct(cols, SATURATION_CEILING);
    TimesIsProduct(rows, Times(cols, SATURATION_CEILING));
  }

  /** A block no larger in either direction holds no more. */
  lemma CapacityMonotone(rows: nat, cols: nat, rows': nat, cols': nat)
    requires rows <= rows' && cols <= cols'
    ensures Capacity(rows, cols) <= Capacity(rows', cols')
  {
    TimesMonotone(cols, SATURATION_CEILING, cols', SATURATION_CEILING);
    TimesMonotone(rows, Times(cols, SATURATION_CEILING), rows', Times(cols', SATURATION_CEILING));
  }

  /** A window of pixels in `[0, SATURATION_CEILING]` sums to between 0 and its capacity. */
  lemma {:induction false} WindowSumBounds(m: Image, rows: Range, cols: Range)
    requires m.Valid() && rows.lo <= rows.hi <= m.h && cols.lo <= cols.hi <= m.w
    requires forall r, c | 0 <= r < m.h && 0 <= c < m.w :: 0.0 <= m.px[r][c] <= SATURATION_CEILING
    ensures 0.0 <= WindowSum(m, rows, cols) <= Capacity(rows.hi - rows.lo, cols.hi - cols.lo)
    decreases rows.hi - rows.lo
  {
    if rows.lo < rows.hi {
      var line := m.px[rows.lo][cols.lo..cols.hi];
      SumBounds(line, SATURATION_CEILING);
      WindowSumBounds(m, Range(rows.lo + 1, rows.hi), cols);
    }
  }

  /** A window that is empty in either direction sums to 0. */
  lemma {:induction false} EmptyWindowSumsToZero(m: Image, rows: Range, cols: Range)
    requires m.Valid() && rows.lo <= rows.hi <= m.h && cols.lo <= cols.hi <= m.w
    requires rows.lo == rows.hi || cols.lo == cols.hi
    ensures WindowSum(m, rows, cols) == 0.0
    decreases rows.hi - rows.lo
  {
    if rows.lo < rows.hi {
      assert m.px[rows.lo][cols.lo..cols.hi] == [];
      EmptyWindowSumsToZero(m, Range(rows.lo + 1, rows.hi), cols);
    }
  }

  /** Only the pixels inside the window matter to its sum. */
  lemma {:induction false} WindowSumLocal(a: Image, b: Image, rows: Range, cols: Range)
    requires a.Valid() && b.Valid() && a.h == b.h && a.w == b.w
    requires rows.lo <= rows.hi <= a.h && cols.lo <= cols.hi <= a.w
    requires forall r, c | rows.lo <= r < rows.hi && cols.lo <= c < cols.hi :: a.px[r][c] == b.px[r][c]
    ensures WindowSum(a, rows, cols) == WindowSum(b, rows, cols)
    decreases rows.hi - rows.lo
  {
    if rows.lo < rows.hi {
      assert a.px[rows.lo][cols.lo..cols.hi] == b.px[rows.lo][cols.lo..cols.hi];
      WindowSumLocal(a, b, Range(rows.lo + 1, rows.hi), cols);
    }
  }

  // ---------------------------------------------------------------- analysis

  /** What beam_analysis returns: the unweighted centroid and the window's total counts. */
  datatype Analysis = Analysis(centre: Point, total: real)

  /** Some valid pixel of a non-empty image lies above the threshold. */
  predicate HasForeground(img: Image)
    requires img.Valid()
  {
    img.h > 0 && img.w > 0 &&
    exists r, c | 0 <= r < img.h && 0 <= c < img.w :: Mask(img).px[r][c] > ImageThreshold(img)
  }

  /** There is a foreground exactly when the brightest valid pixel of a non-empty image exceeds 1 count. */
  lemma ForegroundIffBrighterThanOne(img: Image)
    requires img.Valid() && img.h > 0 && img.w > 0
    ensures HasForeground(img) <==> ImageMax(Mask(img)) > 1.0
  {
    var m := Mask(img);
    var mx := ImageMax(m);
    var t := ImageThreshold(img);
    if mx > 1.0 {
      assert t < mx;
      var r, c :| 0 <= r < m.h && 0 <= c < m.w && m.px[r][c] == mx;
      assert m.px[r][c] > t;
    }
    if HasForeground(img) {
      var r, c :| 0 <= r < img.h && 0 <= c < img.w && m.px[r][c] > t;
      assert m.px[r][c] <= mx;
    }
  }

  /** Every foreground pixel is a valid pixel above 1 whose intensity is its raw value. */
  lemma ForegroundPixelsAreValid(img: Image, p: Pixel)
    requires img.Valid() && img.h > 0 && img.w > 0
    requires p in Foreground(Mask(img), ImageThreshold(img))
    ensures p.row < img.h && p.col < img.w
    ensures InRange(img.px[p.row][p.col]) && p.value == img.px[p.row][p.col] && p.value > 1.0
  {
  }

  /** The part of beam_analysis after the reduction loop, on a two-axis image. */
  function AnalyzeImage(img: Image, roiSize: int): (r: Result<Analysis, Failure>)
    requires img.Valid()
    ensures r == Err(EmptyImage) <==> img.h == 0 || img.w == 0
    ensures r == Err(NoForeground) <==> img.h > 0 && img.w > 0 && !HasForeground(img)
    ensures r.Ok? <==> HasForeground(img)
    ensures r.Ok? ==> 0.0 <= r.value.centre.row <= img.h as real - 1.0
    ensures r.Ok? ==> 0.0 <= r.value.centre.col <= img.w as real - 1.0
    ensures r.Ok? ==> 0.0 <= r.value.total
    ensures r.Ok? ==> var fg := Foreground(Mask(img), ImageThreshold(img));
                      fg != [] && r.value.centre == Centroid(fg)
  {
    if img.h == 0 || img.w == 0 then Err(EmptyImage)
    else
      var m := Mask(img);
      var t := Threshold(ImageMax(m));
      var fg := Foreground(m, t);
      if fg == [] then
        assert !HasForeground(img);
        Err(NoForeground)
      else
        assert fg[0] in fg;
        var wc := WeightedCentroid(fg);
        var rows, cols := Window(wc.row, roiSize, img.h), Window(wc.col, roiSize, img.w);
        CentroidWithin(fg, img.h, img.w);
        WindowSumBounds(m, rows, cols);
        Ok(Analysis(Centroid(fg), WindowSum(m, rows, cols)))
  }

  /** Pixels outside the valid range never matter: images that agree on their valid pixels analyse alike. */
  lemma InvalidPixelsIgnored(a: Image, b: Image, roiSize: int)
    requires a.Valid() && b.Valid() && a.h == b.h && a.w == b.w
    requires forall r, c | 0 <= r < a.h && 0 <= c < a.w ::
               a.px[r][c] == b.px[r][c] || (!InRange(a.px[r][c]) && !InRange(b.px[r][c]))
    ensures AnalyzeImage(a, roiSize) == AnalyzeImage(b, roiSize)
  {
    assert Mask(a) == Mask(b) by {
      forall r | 0 <= r < a.h ensures Mask(a).px[r] == Mask(b).px[r] { }
    }
  }

  /** A window at most `side` pixels high and wide sums to at most a `side` by `side` block's capacity. */
  lemma WindowSumAtMost(m: Image, rows: Range, cols: Range, side: nat)
    requires m.Valid() && rows.lo <= rows.hi <= m.h && cols.lo <= cols.hi <= m.w
    requires forall r, c | 0 <= r < m.h && 0 <= c < m.w :: 0.0 <= m.px[r][c] <= SATURATION_CEILING
    requires rows.hi - rows.lo <= side && cols.hi - cols.lo <= side
    ensures WindowSum(m, rows, cols) <= Capacity(side, side)
  {
    WindowSumBounds(m, rows, cols);
    CapacityMonotone(rows.hi - rows.lo, cols.hi - cols.lo, side, side);
  }

  /**
   * An image with a foreground analyses successfully: the centre it reports is
   * the foreground's unweighted centroid, while its total is the masked sum
   * over the window placed at the weighted centroid.
   */
  lemma TotalIsWeightedWindow(img: Image, roiSize: int)
    requires img.Valid() && HasForeground(img)
    ensures AnalyzeImage(img, roiSize).Ok?
    ensures var fg := Foreground(Mask(img), ImageThreshold(img));
            && fg != []
            && (forall p | p in fg :: p.row < img.h && p.col < img.w && p.value > 0.0)
            && AnalyzeImage(img, roiSize).value.centre == Centroid(fg)
            && AnalyzeImage(img, roiSize).value.total
               == WindowSum(Mask(img), Window(WeightedCentroid(fg).row, roiSize, img.h),
                                       Window(WeightedCentroid(fg).col, roiSize, img.w))
  {
  }

  /** A window placed at a non-negative position holds at most `2*half` by `2*half` pixels. */
  lemma PlacedWindowAtMost(m: Image, centre: Point, half: int)
    requires m.Valid() && 0 <= half && 0.0 <= centre.row && 0.0 <= centre.col
    requires forall r, c | 0 <= r < m.h && 0 <= c < m.w :: 0.0 <= m.px[r][c] <= SATURATION_CEILING
    ensures WindowSum(m, Window(centre.row, half, m.h), Window(centre.col, half, m.w)) <= Capacity(2 * half, 2 * half)
  {
    WindowWidth(centre.row, half, m.h);
    WindowWidth(centre.col, half, m.w);
    WindowSumAtMost(m, Window(centre.row, half, m.h), Window(centre.col, half, m.w), 2 * half);
  }

  /** With a non-negative half-width the total is at most the capacity of a `2*roiSize` square. */
  lemma TotalBound(img: Image, roiSize: int)
    requires img.Valid() && 0 <= roiSize && HasForeground(img)
    ensures AnalyzeImage(img, roiSize).Ok?
    ensures AnalyzeImage(img, roiSize).value.total <= Capacity(2 * roiSize, 2 * roiSize)
  {
    TotalIsWeightedWindow(img, roiSize);
    var fg := Foreground(Mask(img), ImageThreshold(img));
    WeightedCentroidWithin(fg, img.h, img.w);
    PlacedWindowAtMost(Mask(img), WeightedCentroid(fg), roiSize);
  }

  // ---------------------------------------------------------------- reduction

  /**
   * The failure when a leading axis is empty: numpy's mean is then an
   * all-NaN image, which has no foreground, unless it has no pixel at all.
   */
  function EmptyStackFailure(x: NdArray): Failure
    requires |x.shape| >= 2
  {
    var n := |x.shape|;
    if x.shape[n - 2] == 0 || x.shape[n - 1] == 0 then EmptyImage else NoForeground
  }

  /** What beam_analysis returns for an array of two or more axes. */
  function BeamResult(x: NdArray, roiSize: int): (r: Result<Analysis, Failure>)
    requires x.Valid() && |x.shape| >= 2
    ensures r.Err? ==> r.error != TooFewAxes
    ensures r.Ok? ==> 0.0 <= r.value.centre.row <= x.shape[|x.shape| - 2] as real - 1.0
    ensures r.Ok? ==> 0.0 <= r.value.centre.col <= x.shape[|x.shape| - 1] as real - 1.0
    ensures r.Ok? ==> 0.0 <= r.value.total
  {
    match Collapse(x)
    case Some(y) => AnalyzeImage(ToImage(y), roiSize)
    case None => Err(EmptyStackFailure(x))
  }

  /** One pass of the reduction loop leaves beam_analysis's outcome unchanged. */
  lemma BeamResultStep(x: NdArray, roiSize: int)
    requires x.Valid() && |x.shape| > 2 && x.shape[0] > 0
    ensures BeamResult(MeanAxis0(x), roiSize) == BeamResult(x, roiSize)
  {
    assert MeanAxis0(x).shape[|x.shape| - 3..] == x.shape[|x.shape| - 2..];
  }

  /** beam_analysis: average over axis 0 until two axes remain, then analyse the image. */
  method BeamAnalysis(imageData: NdArray, roiSize: int) returns (r: Result<Analysis, Failure>)
    requires imageData.Valid() && |imageData.shape| >= 2
    ensures r == BeamResult(imageData, roiSize)
  {
    var data := imageData;
    while |data.shape| > 2
      invariant data.Valid() && |data.shape| >= 2
      invariant BeamResult(data, roiSize) == BeamResult(imageData, roiSize)
      decreases |data.shape|
    {
      if data.shape[0] == 0 {
        return Err(EmptyStackFailure(data));
      }
      BeamResultStep(data, roiSize);
      data := MeanAxis0(data);
    }
    r := AnalyzeImage(ToImage(data), roiSize);
  }
}
