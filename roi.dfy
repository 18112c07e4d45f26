/**
 * The region-of-interest clipping the image-path handlers apply to a loaded
 * array before beam_analysis, as written and as evidently intended.
 */
module Roi {
  import opened Outcomes
  import opened NdArrays
  import opened Slices

  /** The indices `a[max(lo, 0):min(hi, len)]` keeps on an axis of length `len`. */
  function RoiRange(len: nat, lo: int, hi: int): (r: Range)
    ensures r.lo <= r.hi <= len
  {
    Slice(len, Max(lo, 0), Min(hi, len))
  }

  /** A non-negative upper bound keeps exactly `[max(lo, 0), min(hi, len))`; a negative one counts from the end. */
  lemma RoiRangeSelects(len: nat, lo: int, hi: int)
    ensures 0 <= hi ==> forall k :: RoiRange(len, lo, hi).Contains(k) <==> Max(lo, 0) <= k < Min(hi, len)
    ensures hi < 0 ==> forall k :: RoiRange(len, lo, hi).Contains(k) <==> Max(lo, 0) <= k < Min(hi, len) + len
  {
  }

  /** `a[cols.lo:cols.hi]`: slice the leading axis. */
  function SliceLeading(a: Nd, s: seq<nat>, cols: Range): (b: Nd)
    requires |s| >= 1 && Shaped(a, s) && cols.lo <= cols.hi <= s[0]
    ensures Shaped(b, [cols.hi - cols.lo] + s[1..])
    ensures forall j | 0 <= j < cols.hi - cols.lo :: b.items[j] == a.items[cols.lo + j]
  {
    var b := Axis(a.items[cols.lo..cols.hi]);
    assert ([cols.hi - cols.lo] + s[1..])[1..] == s[1..];
    b
  }

  /** Slice each of `lines` along its leading axis. */
  function SliceEach(lines: seq<Nd>, s: seq<nat>, cols: Range): (bs: seq<Nd>)
    requires |s| >= 1 && cols.lo <= cols.hi <= s[0]
    requires forall i | 0 <= i < |lines| :: Shaped(lines[i], s)
    ensures |bs| == |lines|
    ensures forall i | 0 <= i < |lines| :: bs[i] == SliceLeading(lines[i], s, cols)
  {
    if lines == [] then [] else [SliceLeading(lines[0], s, cols)] + SliceEach(lines[1..], s, cols)
  }

  /** `a[rows.lo:rows.hi, cols.lo:cols.hi]`: slice the first two axes. */
  function Slice2(a: Nd, s: seq<nat>, rows: Range, cols: Range): (b: Nd)
    requires |s| >= 2 && Shaped(a, s)
    requires rows.lo <= rows.hi <= s[0] && cols.lo <= cols.hi <= s[1]
    ensures Shaped(b, [rows.hi - rows.lo, cols.hi - cols.lo] + s[2..])
    ensures forall i | 0 <= i < rows.hi - rows.lo ::
              Shaped(a.items[rows.lo + i], s[1..]) && b.items[i] == SliceLeading(a.items[rows.lo + i], s[1..], cols)
  {
    var inner := [cols.hi - cols.lo] + s[2..];
    assert s[1..][1..] == s[2..];
    assert ([rows.hi - rows.lo] + inner)[1..] == inner;
    assert [rows.hi - rows.lo, cols.hi - cols.lo] + s[2..] == [rows.hi - rows.lo] + inner;
    var lines := a.items[rows.lo..rows.hi];
    assert forall i | 0 <= i < |lines| :: lines[i] == a.items[rows.lo + i] && Shaped(lines[i], s[1..]);
    Axis(SliceEach(lines, s[1..], cols))
  }

  /** Slice the last two axes, leaving any leading axes whole. */
  function ClipLast2(a: Nd, s: seq<nat>, rows: Range, cols: Range): (b: Nd)
    requires |s| >= 2 && Shaped(a, s)
    requires rows.lo <= rows.hi <= s[|s| - 2] && cols.lo <= cols.hi <= s[|s| - 1]
    ensures Shaped(b, s[..|s| - 2] + [rows.hi - rows.lo, cols.hi - cols.lo])
    decreases |s|
  {
    if |s| == 2 then
      assert s[..0] + [rows.hi - rows.lo, cols.hi - cols.lo] == [rows.hi - rows.lo, cols.hi - cols.lo] + s[2..];
      Slice2(a, s, rows, cols)
    else
      var t := s[..|s| - 2] + [rows.hi - rows.lo, cols.hi - cols.lo];
      assert t[1..] == s[1..][..|s| - 3] + [rows.hi - rows.lo, cols.hi - cols.lo];
      Axis(seq(s[0], k requires 0 <= k < s[0] && Shaped(a.items[k], s[1..]) => ClipLast2(a.items[k], s[1..], rows, cols)))
  }

  /**
   * The clipping as the handlers write it, `image[rowMin..rowMax, colMin..colMax]`
   * on the loaded array: it slices axes 0 and 1, whatever the array's rank.
   * An array of fewer than two axes raises IndexError at `image.shape[1]`.
   */
  function ClipLeading(image: NdArray, rowMin: int, rowMax: int, colMin: int, colMax: int): (r: Result<NdArray, Failure>)
    requires image.Valid()
    ensures r.Err? <==> |image.shape| < 2
    ensures r.Err? ==> r.error == TooFewAxes
    ensures r.Ok? ==> r.value.Valid()
    ensures r.Ok? ==>
              r.value.shape
              == [RoiRange(image.shape[0], rowMin, rowMax).hi - RoiRange(image.shape[0], rowMin, rowMax).lo,
                  RoiRange(image.shape[1], colMin, colMax).hi - RoiRange(image.shape[1], colMin, colMax).lo]
                 + image.shape[2..]
  {
    if |image.shape| < 2 then Err(TooFewAxes)
    else
      var rows := RoiRange(image.shape[0], rowMin, rowMax);
      var cols := RoiRange(image.shape[1], colMin, colMax);
      Ok(NdArray([rows.hi - rows.lo, cols.hi - cols.lo] + image.shape[2..], Slice2(image.data, image.shape, rows, cols)))
  }

  /** The rows the ROI keeps of an array whose last two axes are the image's rows and columns. */
  function RowRange(image: NdArray, rowMin: int, rowMax: int): Range
    requires |image.shape| >= 2
  {
    RoiRange(image.shape[|image.shape| - 2], rowMin, rowMax)
  }

  /** The columns the ROI keeps of such an array. */
  function ColRange(image: NdArray, colMin: int, colMax: int): Range
    requires |image.shape| >= 2
  {
    RoiRange(image.shape[|image.shape| - 1], colMin, colMax)
  }

  /** The clipping the handlers evidently intend: the ROI bounds the image's rows and columns. */
  function ClipImage(image: NdArray, rowMin: int, rowMax: int, colMin: int, colMax: int): (r: Result<NdArray, Failure>)
    requires image.Valid()
    ensures r.Err? <==> |image.shape| < 2
    ensures r.Err? ==> r.error == TooFewAxes
    ensures r.Ok? ==> r.value.Valid()
    ensures r.Ok? ==>
              r.value.shape
              == image.shape[..|image.shape| - 2]
                 + [RowRange(image, rowMin, rowMax).hi - RowRange(image, rowMin, rowMax).lo,
                    ColRange(image, colMin, colMax).hi - ColRange(image, colMin, colMax).lo]
  {
    if |image.shape| < 2 then Err(TooFewAxes)
    else
      var rows, cols := RowRange(image, rowMin, rowMax), ColRange(image, colMin, colMax);
      Ok(NdArray(image.shape[..|image.shape| - 2] + [rows.hi - rows.lo, cols.hi - cols.lo],
                 ClipLast2(image.data, image.shape, rows, cols)))
  }

  /** The index in the loaded array of index `idx` of the clipped one. */
  function Unclip(idx: seq<nat>, rows: Range, cols: Range): seq<nat>
    requires |idx| >= 2
  {
    idx[..|idx| - 2] + [rows.lo + idx[|idx| - 2], cols.lo + idx[|idx| - 1]]
  }

  /** On a two-axis array, element `[i, j]` of the slice is element `[rows.lo + i, cols.lo + j]`. */
  lemma Slice2At(a: Nd, s: seq<nat>, rows: Range, cols: Range, i: nat, j: nat)
    requires |s| == 2 && Shaped(a, s)
    requires rows.lo <= rows.hi <= s[0] && cols.lo <= cols.hi <= s[1]
    requires i < rows.hi - rows.lo && j < cols.hi - cols.lo
    ensures Shaped(Slice2(a, s, rows, cols), [rows.hi - rows.lo, cols.hi - cols.lo])
    ensures InBounds([i, j], [rows.hi - rows.lo, cols.hi - cols.lo]) && InBounds([rows.lo + i, cols.lo + j], s)
    ensures At(Slice2(a, s, rows, cols), [rows.hi - rows.lo, cols.hi - cols.lo], [i, j])
            == At(a, s, [rows.lo + i, cols.lo + j])
  {
    var t := [rows.hi - rows.lo, cols.hi - cols.lo];
    assert t + s[2..] == t;
    var b := Slice2(a, s, rows, cols);
    var line := a.items[rows.lo + i];
    assert Shaped(line, s[1..]) && |s[1..]| == 1 && s[1..][0] == s[1];
    var sliced := SliceLeading(line, s[1..], cols);
    assert b.items[i] == sliced;
    assert sliced.items[j] == line.items[cols.lo + j];
    At2(b, t, i, j);
    At2(a, s, rows.lo + i, cols.lo + j);
  }

  /** Each element of the clipped array is the element of the loaded array at the shifted index. */
  lemma {:induction false} ClipLast2At(a: Nd, s: seq<nat>, rows: Range, cols: Range, idx: seq<nat>)
    requires |s| >= 2 && Shaped(a, s)
    requires rows.lo <= rows.hi <= s[|s| - 2] && cols.lo <= cols.hi <= s[|s| - 1]
    requires InBounds(idx, s[..|s| - 2] + [rows.hi - rows.lo, cols.hi - cols.lo])
    ensures InBounds(Unclip(idx, rows, cols), s)
    ensures At(ClipLast2(a, s, rows, cols), s[..|s| - 2] + [rows.hi - rows.lo, cols.hi - cols.lo], idx)
            == At(a, s, Unclip(idx, rows, cols))
    decreases |s|
  {
    var t := s[..|s| - 2] + [rows.hi - rows.lo, cols.hi - cols.lo];
    var u := Unclip(idx, rows, cols);
    assert InBounds(u, s) by {
      forall i | 0 <= i < |s| ensures u[i] < s[i] {
        assert idx[i] < t[i];
      }
    }
    if |s| == 2 {
      assert t == [rows.hi - rows.lo, cols.hi - cols.lo] && u == [rows.lo + idx[0], cols.lo + idx[1]];
      assert idx == [idx[0], idx[1]];
      Slice2At(a, s, rows, cols, idx[0], idx[1]);
    } else {
      var k := idx[0];
      var t' := s[1..][..|s| - 3] + [rows.hi - rows.lo, cols.hi - cols.lo];
      assert t[1..] == t';
      assert InBounds(idx[1..], t') by {
        forall i | 0 <= i < |t'| ensures idx[1..][i] < t'[i] { assert idx[i + 1] < t[i + 1]; }
      }
      ClipLast2At(a.items[k], s[1..], rows, cols, idx[1..]);
      assert Unclip(idx[1..], rows, cols) == u[1..];
    }
  }

  /** On a two-axis image, the clipping as written and as intended agree. */
  lemma ClipAgreesOnImages(image: NdArray, rowMin: int, rowMax: int, colMin: int, colMax: int)
    requires image.Valid() && |image.shape| == 2
    ensures ClipLeading(image, rowMin, rowMax, colMin, colMax) == ClipImage(image, rowMin, rowMax, colMin, colMax)
  {
    assert image.shape[..0] + [RowRange(image, rowMin, rowMax).hi - RowRange(image, rowMin, rowMax).lo,
                               ColRange(image, colMin, colMax).hi - ColRange(image, colMin, colMax).lo]
        == [RowRange(image, rowMin, rowMax).hi - RowRange(image, rowMin, rowMax).lo,
            ColRange(image, colMin, colMax).hi - ColRange(image, colMin, colMax).lo] + image.shape[2..];
  }

  /**
   * The clipping as written, on a one-frame Eiger 1M stack (1 x 1065 x 1030)
   * with the default ROI 0..1065 x 0..1030: it clips the frame axis by the
   * row bounds and the rows by the column bounds, so the last 35 rows are
   * lost, while the intended clipping keeps the whole frame.
   */
  lemma ClipLeadingDropsRows()
    ensures var stack := NdArray([1, 1065, 1030], Filled([1, 1065, 1030], 0.0));
            && ClipLeading(stack, 0, 1065, 0, 1030).Ok?
            && ClipLeading(stack, 0, 1065, 0, 1030).value.shape == [1, 1030, 1030]
            && ClipImage(stack, 0, 1065, 0, 1030).Ok?
            && ClipImage(stack, 0, 1065, 0, 1030).value.shape == [1, 1065, 1030]
  {
    var stack := NdArray([1, 1065, 1030], Filled([1, 1065, 1030], 0.0));
    assert RoiRange(1, 0, 1065) == Range(0, 1);
    assert RoiRange(1065, 0, 1030) == Range(0, 1030);
    assert RoiRange(1030, 0, 1030) == Range(0, 1030);
    assert RoiRange(1065, 0, 1065) == Range(0, 1065);
    assert stack.shape[2..] == [1030] && stack.shape[..1] == [1];
  }
}
