/**
 * N-dimensional numeric arrays and numpy's `np.mean(a, axis=0)`, the step
 * beam_analysis repeats until an image has two axes.
 */
module NdArrays {
  import opened Outcomes

  /** A scalar, or a sequence of sub-arrays along the leading axis. */
  datatype Nd = Cell(v: real) | Axis(items: seq<Nd>)

  /** `a` is a rectangular array of shape `s`. */
  predicate Shaped(a: Nd, s: seq<nat>)
    decreases |s|
  {
    if |s| == 0 then a.Cell?
    else a.Axis? && |a.items| == s[0] && forall k | 0 <= k < |a.items| :: Shaped(a.items[k], s[1..])
  }

  /** An array with its shape; the shape is kept apart so that a zero-length axis keeps the axes below it. */
  datatype NdArray = NdArray(shape: seq<nat>, data: Nd) {
    predicate Valid() { Shaped(data, shape) }
  }

  predicate InBounds(idx: seq<nat>, s: seq<nat>)
  {
    |idx| == |s| && forall i | 0 <= i < |s| :: idx[i] < s[i]
  }

  /** The element at multi-index `idx`. */
  function At(a: Nd, s: seq<nat>, idx: seq<nat>): real
    requires Shaped(a, s) && InBounds(idx, s)
    decreases |s|
  {
    if |s| == 0 then a.v
    else
      assert InBounds(idx[1..], s[1..]) by {
        forall i | 0 <= i < |s| - 1 ensures idx[1..][i] < s[1..][i] { assert idx[i + 1] < s[i + 1]; }
      }
      At(a.items[idx[0]], s[1..], idx[1..])
  }

  /** On a two-axis array, element `[i, j]` is the `j`-th cell of the `i`-th row. */
  lemma At2(a: Nd, s: seq<nat>, i: nat, j: nat)
    requires |s| == 2 && Shaped(a, s) && i < s[0] && j < s[1]
    ensures InBounds([i, j], s) && Shaped(a.items[i], s[1..]) && a.items[i].items[j].Cell?
    ensures At(a, s, [i, j]) == a.items[i].items[j].v
  {
    var row := a.items[i];
    assert [i, j][1..] == [j] && [j][1..] == [] && s[1..][1..] == [];
    assert Shaped(row, s[1..]) && Shaped(row.items[j], []);
    assert At(a, s, [i, j]) == At(row, s[1..], [j]);
    assert At(row, s[1..], [j]) == At(row.items[j], [], []);
  }

  /** An array of shape `s` with every element `v`. */
  function Filled(s: seq<nat>, v: real): (a: Nd)
    ensures Shaped(a, s)
    decreases |s|
  {
    if |s| == 0 then Cell(v) else Axis(seq(s[0], _ => Filled(s[1..], v)))
  }

  function Sum(vs: seq<real>): (s: real)
    ensures (forall i | 0 <= i < |vs| :: 0.0 <= vs[i]) ==> 0.0 <= s
  {
    if vs == [] then 0.0 else vs[0] + Sum(vs[1..])
  }

  function Mean(vs: seq<real>): real
    requires |vs| > 0
  {
    Sum(vs) / |vs| as real
  }

  /** `n * x`, written as `n` repeated additions so that bounds built from it stay linear. */
  function Times(n: nat, x: real): (r: real)
    ensures 0.0 <= x ==> 0.0 <= r
  {
    if n == 0 then 0.0 else x + Times(n - 1, x)
  }

  /** Repeated addition is multiplication. */
  lemma {:induction false} TimesIsProduct(n: nat, x: real)
    ensures Times(n, x) == n as real * x
  {
    if n > 0 {
      TimesIsProduct(n - 1, x);
      assert n as real * x == x + (n - 1) as real * x;
    }
  }

  /** Fewer copies of a smaller non-negative amount add up to no more. */
  lemma {:induction false} TimesMonotone(n: nat, x: real, n': nat, x': real)
    requires n <= n' && 0.0 <= x <= x'
    ensures Times(n, x) <= Times(n', x')
  {
    if n > 0 {
      TimesMonotone(n - 1, x, n' - 1, x');
    }
  }

  /** A sum of terms in `[0, hi]` lies in `[0, n * hi]`. */
  lemma {:induction false} SumBounds(vs: seq<real>, hi: real)
    requires forall i | 0 <= i < |vs| :: 0.0 <= vs[i] <= hi
    ensures 0.0 <= Sum(vs) <= Times(|vs|, hi)
  {
    if vs != [] {
      SumBounds(vs[1..], hi);
    }
  }

  /** The sub-arrays at index `j` of the next axis, one per array of `xs`. */
  function Column(xs: seq<Nd>, s: seq<nat>, j: nat): (ys: seq<Nd>)
    requires |s| > 0 && j < s[0]
    requires forall k | 0 <= k < |xs| :: Shaped(xs[k], s)
    ensures |ys| == |xs|
    ensures forall k | 0 <= k < |ys| :: Shaped(ys[k], s[1..])
  {
    seq(|xs|, k requires 0 <= k < |xs| && Shaped(xs[k], s) => xs[k].items[j])
  }

  /** The values at `idx`, one per array of `xs`. */
  function Fibre(xs: seq<Nd>, s: seq<nat>, idx: seq<nat>): (vs: seq<real>)
    requires InBounds(idx, s)
    requires forall k | 0 <= k < |xs| :: Shaped(xs[k], s)
    ensures |vs| == |xs|
  {
    seq(|xs|, k requires 0 <= k < |xs| => At(xs[k], s, idx))
  }

  /** The element-wise mean of a non-empty list of arrays of shape `s`. */
  function MeanOf(xs: seq<Nd>, s: seq<nat>): (m: Nd)
    requires |xs| > 0
    requires forall k | 0 <= k < |xs| :: Shaped(xs[k], s)
    ensures Shaped(m, s)
    decreases |s|
  {
    if |s| == 0 then Cell(Mean(seq(|xs|, k requires 0 <= k < |xs| && Shaped(xs[k], s) => xs[k].v)))
    else Axis(seq(s[0], j requires 0 <= j < s[0] => MeanOf(Column(xs, s, j), s[1..])))
  }

  /** Each element of `MeanOf(xs, s)` is the mean of the elements of `xs` at that index. */
  lemma {:induction false} MeanOfAt(xs: seq<Nd>, s: seq<nat>, idx: seq<nat>)
    requires |xs| > 0
    requires forall k | 0 <= k < |xs| :: Shaped(xs[k], s)
    requires InBounds(idx, s)
    ensures At(MeanOf(xs, s), s, idx) == Mean(Fibre(xs, s, idx))
    decreases |s|
  {
    if |s| == 0 {
      assert Fibre(xs, s, idx) == seq(|xs|, k requires 0 <= k < |xs| && Shaped(xs[k], s) => xs[k].v);
    } else {
      var ys := Column(xs, s, idx[0]);
      assert InBounds(idx[1..], s[1..]) by {
        forall i | 0 <= i < |s| - 1 ensures idx[1..][i] < s[1..][i] { assert idx[i + 1] < s[i + 1]; }
      }
      MeanOfAt(ys, s[1..], idx[1..]);
      assert Fibre(ys, s[1..], idx[1..]) == Fibre(xs, s, idx);
    }
  }

  /** `np.mean(x, axis=0)` on an array whose leading axis is not empty. */
  function MeanAxis0(x: NdArray): (y: NdArray)
    requires x.Valid() && |x.shape| >= 1 && x.shape[0] > 0
    ensures y.Valid() && y.shape == x.shape[1..]
  {
    NdArray(x.shape[1..], MeanOf(x.data.items, x.shape[1..]))
  }

  /** Each element of the axis-0 mean is the mean, over the leading axis, of the elements below it. */
  lemma MeanAxis0At(x: NdArray, idx: seq<nat>)
    requires x.Valid() && |x.shape| >= 1 && x.shape[0] > 0
    requires InBounds(idx, x.shape[1..])
    ensures At(MeanAxis0(x).data, x.shape[1..], idx) == Mean(Fibre(x.data.items, x.shape[1..], idx))
  {
    MeanOfAt(x.data.items, x.shape[1..], idx);
  }

  /**
   * The reduction loop of beam_analysis: average over axis 0 while more than
   * two axes remain. A zero-length leading axis makes numpy's mean all-NaN, and
   * no pixel of a NaN image reaches the foreground; that outcome is `None`.
   */
  function Collapse(x: NdArray): (r: Option<NdArray>)
    requires x.Valid() && |x.shape| >= 2
    ensures r.Some? ==> r.value.Valid() && r.value.shape == x.shape[|x.shape| - 2..]
    ensures r.None? <==> exists i | 0 <= i < |x.shape| - 2 :: x.shape[i] == 0
    decreases |x.shape|
  {
    if |x.shape| == 2 then Some(x)
    else if x.shape[0] == 0 then None
    else
      var y := MeanAxis0(x);
      assert forall i | 0 <= i < |y.shape| - 2 :: y.shape[i] == x.shape[i + 1];
      Collapse(y)
  }

  /** On a stack of images, each pixel of the collapsed image is that pixel's mean across the stack. */
  lemma CollapseStack(x: NdArray, row: nat, col: nat)
    requires x.Valid() && |x.shape| == 3 && x.shape[0] > 0
    requires row < x.shape[1] && col < x.shape[2]
    ensures Collapse(x).Some?
    ensures At(Collapse(x).value.data, x.shape[1..], [row, col])
            == Mean(seq(x.shape[0], k requires 0 <= k < x.shape[0] => At(x.data, x.shape, [k, row, col])))
  {
    var s := x.shape[1..];
    MeanAxis0At(x, [row, col]);
    forall k | 0 <= k < x.shape[0]
      ensures At(x.data.items[k], s, [row, col]) == At(x.data, x.shape, [k, row, col])
    {
      assert [k, row, col][1..] == [row, col];
    }
    assert Fibre(x.data.items, s, [row, col])
        == seq(x.shape[0], k requires 0 <= k < x.shape[0] => At(x.data, x.shape, [k, row, col]));
  }
}
