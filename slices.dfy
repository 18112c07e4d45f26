/** Python's `int()` on a float and numpy's basic slicing `a[start:stop]` on one axis. */
module Slices {

  function Min(a: int, b: int): int { if a <= b then a else b }

  function Max(a: int, b: int): int { if a >= b then a else b }

  /** `int(x)` for a float `x`: truncation toward zero. */
  function Trunc(x: real): (n: int)
    ensures 0.0 <= x ==> n as real <= x < n as real + 1.0
    ensures x < 0.0 ==> n as real - 1.0 < x <= n as real
  {
    if x >= 0.0 then x.Floor else -((-x).Floor)
  }

  /** The half-open run of indices `[lo, hi)` that a slice selects on one axis. */
  datatype Range = Range(lo: nat, hi: nat) {
    predicate Contains(k: int) { lo <= k < hi }
  }

  /** Where a slice bound points before clamping: a negative bound counts from the end. */
  function Resolve(i: int, len: nat): int { if i < 0 then i + len else i }

  function Clamp(i: int, len: nat): (c: nat)
    ensures c <= len
  {
    if i < 0 then 0 else if i > len then len else i
  }

  /** `range(len)[start:stop]`: the indices a step-1 slice selects on an axis of length `len`. */
  function Slice(len: nat, start: int, stop: int): (r: Range)
    ensures r.lo <= r.hi <= len
    ensures forall k :: r.Contains(k) <==> 0 <= k < len && Resolve(start, len) <= k < Resolve(stop, len)
  {
    var lo := Clamp(Resolve(start, len), len);
    var hi := Clamp(Resolve(stop, len), len);
    Range(lo, if hi < lo then lo else hi)
  }

  /** A slice whose bounds already lie in `[0, len]` selects exactly `[start, stop)`, or nothing. */
  lemma SliceInBounds(len: nat, start: int, stop: int)
    requires 0 <= start <= len && 0 <= stop <= len
    ensures Slice(len, start, stop) == Range(start, Max(start, stop))
  {
  }

  /**
   * The integration window on one axis of beam_analysis: it runs from
   * `max(int(centre - half), 0)` to `min(int(centre + half), len)` and is
   * then sliced like any numpy slice.
   */
  function Window(centre: real, half: int, len: nat): (r: Range)
    ensures r.lo <= r.hi <= len
  {
    Slice(len, Max(Trunc(centre - half as real), 0), Min(Trunc(centre + half as real), len))
  }

  /**
   * For a centre inside the axis and a non-negative half-width, no bound of
   * the window wraps around: it is `[max(int(c - half), 0), min(int(c + half), len))`.
   */
  lemma {:induction false} WindowNoWrap(centre: real, half: int, len: nat)
    requires 0.0 <= centre && 0 <= half
    ensures var lo := Min(Max(Trunc(centre - half as real), 0), len);
            Window(centre, half, len) == Range(lo, Max(lo, Min(Trunc(centre + half as real), len)))
  {
    var start := Max(Trunc(centre - half as real), 0);
    var stop := Min(Trunc(centre + half as real), len);
    assert 0 <= stop;
    if start <= len {
      SliceInBounds(len, start, stop);
    }
  }

  /** The window never spans more than `2 * half` indices. */
  lemma WindowWidth(centre: real, half: int, len: nat)
    requires 0.0 <= centre && 0 <= half
    ensures Window(centre, half, len).hi - Window(centre, half, len).lo <= 2 * half
  {
    WindowNoWrap(centre, half, len);
  }

  /** With a half-width of at least one, the window holds the pixel the centre falls on. */
  lemma WindowCoversCentre(centre: real, half: int, len: nat)
    requires 0.0 <= centre < len as real && 1 <= half
    ensures Window(centre, half, len).Contains(centre.Floor)
  {
    WindowNoWrap(centre, half, len);
  }
}
