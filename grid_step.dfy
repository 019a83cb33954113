/**
 * Snapping an element to the grid (src/lib/utils/ensureGridStep.ts): the
 * position rounds to a multiple of the step, half up; the size only ever
 * shrinks by its remainder. The source uses JavaScript's `%`, which
 * truncates toward zero (the remainder takes the sign of the dividend);
 * that operator is written out here.
 */
module GridStep {
  import opened Types
  import opened Objects

  /** Rounding toward zero. */
  function Trunc(q: real): int {
    if q >= 0.0 then q.Floor else -((-q).Floor)
  }

  /** JavaScript's `a % b` for a non-zero divisor. */
  function JsRem(a: real, b: real): real
    requires b != 0.0
  {
    a - b * (Trunc(a / b) as real)
  }

  /** A position coordinate after the snap: half a step or more rounds up. */
  function SnapPosition(v: real, step: real): real
    requires step != 0.0
  {
    var rem := JsRem(v, step);
    if rem > 0.0 then (if rem >= step / 2.0 then v + step - rem else v - rem) else v
  }

  /** An extent after the snap: a positive remainder is cut off. */
  function SnapSize(v: real, step: real): real
    requires step != 0.0
  {
    var rem := JsRem(v, step);
    if rem > 0.0 then v - rem else v
  }

  /**
   * The geometry after ensureGridStep. With a zero step every remainder is
   * NaN, every `> 0` test fails and nothing changes.
   */
  function GridSnapped(r: Rect, step: real): Rect {
    if step == 0.0 then r
    else Rect(SnapPosition(r.x, step), SnapPosition(r.y, step), SnapSize(r.width, step), SnapSize(r.height, step))
  }

  /** ensureGridStep: updates the element in place. */
  method EnsureGridStep<A>(e: Elem<A>, step: real)
    modifies e
    ensures e.Geometry() == GridSnapped(old(e.Geometry()), step)
  {
    if step == 0.0 {
      return;
    }
    var remainderX := JsRem(e.x, step);
    var remainderY := JsRem(e.y, step);
    var remainderWidth := JsRem(e.width, step);
    var remainderHeight := JsRem(e.height, step);
    if remainderX > 0.0 {
      e.x := if remainderX >= step / 2.0 then e.x + step - remainderX else e.x - remainderX;
    }
    if remainderY > 0.0 {
      e.y := if remainderY >= step / 2.0 then e.y + step - remainderY else e.y - remainderY;
    }
    if remainderWidth > 0.0 {
      e.width := e.width - remainderWidth;
    }
    if remainderHeight > 0.0 {
      e.height := e.height - remainderHeight;
    }
  }

  lemma MulLeft(a: real, b: real, c: real)
    requires c > 0.0 && a <= b
    ensures c * a <= c * b
  {
  }

  lemma MulLeftStrict(a: real, b: real, c: real)
    requires c > 0.0 && a < b
    ensures c * a < c * b
  {
  }

  /** When k <= a / b < k + 1 for a positive b, a - b * k lies in [0, b). */
  lemma Bracket(a: real, b: real, k: real)
    requires b > 0.0 && k <= a / b < k + 1.0
    ensures 0.0 <= a - b * k < b
  {
    var q := a / b;
    MulLeft(k, q, b);
    MulLeftStrict(q, k + 1.0, b);
    assert b * q == a;
  }

  /** For a non-negative dividend the remainder lies in [0, step) and the quotient is the floor. */
  lemma RemOfNonNegative(a: real, b: real)
    requires a >= 0.0 && b > 0.0
    ensures 0.0 <= JsRem(a, b) < b
    ensures JsRem(a, b) == a - b * ((a / b).Floor as real)
  {
    var k := (a / b).Floor as real;
    assert Trunc(a / b) as real == k;
    Bracket(a, b, k);
  }

  /** For a negative dividend the remainder lies in (-step, 0]. */
  lemma RemOfNegative(a: real, b: real)
    requires a < 0.0 && b > 0.0
    ensures -b < JsRem(a, b) <= 0.0
  {
    var k := (-a / b).Floor as real;
    assert a / b == -(-a / b);
    assert Trunc(a / b) as real == -k;
    Bracket(-a, b, k);
    assert b * -k == -(b * k);
  }

  /** A multiple of the step has remainder zero. */
  lemma RemOfMultiple(k: int, b: real)
    requires b > 0.0
    ensures JsRem(b * (k as real), b) == 0.0
  {
    assert b * (k as real) / b == k as real;
  }

  /** Dividing v = step * k + rem by step gives k plus the fraction rem / step. */
  lemma DivSplit(v: real, step: real, k: real)
    requires step > 0.0
    ensures v / step == k + (v - step * k) / step
  {
  }

  /** For 0 <= rem < step the fraction rem / step is in [0, 1), and at least one half exactly when rem is at least half a step. */
  lemma FractionBounds(rem: real, step: real)
    requires step > 0.0 && 0.0 <= rem < step
    ensures 0.0 <= rem / step < 1.0
    ensures rem >= step / 2.0 <==> rem / step >= 0.5
  {
    var f := rem / step;
    assert f * step == rem;
    if f >= 0.5 {
      MulLeft(0.5, f, step);
    } else {
      MulLeftStrict(f, 0.5, step);
    }
    if f >= 1.0 {
      MulLeft(1.0, f, step);
    }
    if f < 0.0 {
      MulLeftStrict(f, 0.0, step);
    }
  }

  /** The floor of x is the integer k with k <= x < k + 1. */
  lemma FloorIs(x: real, k: int)
    requires k as real <= x < k as real + 1.0
    ensures x.Floor == k
  {
  }

  /**
   * For non-negative v the snapped position is the multiple of the step
   * nearest to v, halves rounding up: step * floor(v / step + 1/2). It moves
   * v by at most half a step and is not negative.
   */
  lemma SnapPositionNearest(v: real, step: real)
    requires v >= 0.0 && step > 0.0
    ensures var s := SnapPosition(v, step);
      && s == step * ((v / step + 0.5).Floor as real)
      && -step / 2.0 < s - v <= step / 2.0
      && s >= 0.0
  {
    RemOfNonNegative(v, step);
    var k := (v / step).Floor as real;
    var rem := v - step * k;
    assert JsRem(v, step) == rem;
    DivSplit(v, step, k);
    FractionBounds(rem, step);
    assert k >= 0.0;
    MulLeft(0.0, k, step);
    if rem >= step / 2.0 {
      FloorIs(v / step + 0.5, (v / step).Floor + 1);
      assert step * (k + 1.0) == step * k + step;
    } else {
      FloorIs(v / step + 0.5, (v / step).Floor);
    }
  }

  /**
   * For non-negative v the snapped extent is the largest multiple of the
   * step not above v: it shrinks by less than a step and never grows.
   */
  lemma SnapSizeFloor(v: real, step: real)
    requires v >= 0.0 && step > 0.0
    ensures var s := SnapSize(v, step);
      && s == step * ((v / step).Floor as real)
      && 0.0 <= v - s < step
      && s >= 0.0
  {
    RemOfNonNegative(v, step);
    assert (v / step).Floor >= 0;
    MulLeft(0.0, (v / step).Floor as real, step);
  }

  /** Negative coordinates and extents are left unchanged: their remainder is not positive. */
  lemma SnapLeavesNegative(v: real, step: real)
    requires v < 0.0 && step > 0.0
    ensures SnapPosition(v, step) == v && SnapSize(v, step) == v
  {
    RemOfNegative(v, step);
  }

  /** Values already on the grid are left unchanged. */
  lemma SnapLeavesMultiples(k: int, step: real)
    requires step > 0.0
    ensures SnapPosition(step * (k as real), step) == step * (k as real)
    ensures SnapSize(step * (k as real), step) == step * (k as real)
  {
    RemOfMultiple(k, step);
  }

  /** A non-negative coordinate lands on the grid, so snapping it again changes nothing. */
  lemma SnapPositionIdempotent(v: real, step: real)
    requires v >= 0.0 && step > 0.0
    ensures SnapPosition(SnapPosition(v, step), step) == SnapPosition(v, step)
  {
    SnapPositionNearest(v, step);
    var k := (v / step + 0.5).Floor;
    var s := SnapPosition(v, step);
    assert s == step * (k as real);
    SnapLeavesMultiples(k, step);
  }

  /** A non-negative extent lands on the grid, so snapping it again changes nothing. */
  lemma SnapSizeIdempotent(v: real, step: real)
    requires v >= 0.0 && step > 0.0
    ensures SnapSize(SnapSize(v, step), step) == SnapSize(v, step)
  {
    SnapSizeFloor(v, step);
    var k := (v / step).Floor;
    var s := SnapSize(v, step);
    assert s == step * (k as real);
    SnapLeavesMultiples(k, step);
  }

  /**
   * For non-negative geometry and a positive step, every field ends on the
   * grid, so a second snap changes nothing.
   */
  lemma GridSnappedIdempotent(r: Rect, step: real)
    requires step > 0.0
    requires r.x >= 0.0 && r.y >= 0.0 && r.width >= 0.0 && r.height >= 0.0
    ensures GridSnapped(GridSnapped(r, step), step) == GridSnapped(r, step)
  {
    SnapPositionIdempotent(r.x, step);
    SnapPositionIdempotent(r.y, step);
    SnapSizeIdempotent(r.width, step);
    SnapSizeIdempotent(r.height, step);
  }

  /** Step 10: x = 14 snaps to 10, x = 16 to 20, width 17 to 10; y and height 30 stay. */
  lemma GridSnappedExamples()
    ensures GridSnapped(Rect(14.0, 30.0, 17.0, 30.0), 10.0) == Rect(10.0, 30.0, 10.0, 30.0)
    ensures GridSnapped(Rect(16.0, 30.0, 17.0, 30.0), 10.0) == Rect(20.0, 30.0, 10.0, 30.0)
  {
    assert Trunc(1.4) == 1 && Trunc(1.6) == 1 && Trunc(1.7) == 1 && Trunc(3.0) == 3;
  }
}
