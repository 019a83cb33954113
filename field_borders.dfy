/**
 * Keeping the pointer and dragged elements inside the canvas
 * (src/lib/utils/ensureFieldBorders.ts). Both operations mutate their
 * argument; each is specified by a closed-form function on values.
 */
module FieldBorders {
  import opened Types
  import opened Objects

  function Min(a: real, b: real): real { if a <= b then a else b }
  function Max(a: real, b: real): real { if a >= b then a else b }

  /** A coordinate clamped into [0, hi]; for hi < 0 the lower bound wins. */
  function ClampCoord(v: real, hi: real): (c: real)
    ensures c >= 0.0
    ensures hi >= 0.0 ==> c <= hi
  {
    Max(0.0, Min(v, hi))
  }

  /** The pointer clamped into [0, fieldWidth] x [0, fieldHeight]. */
  function ClampPoint(p: Point, fieldWidth: real, fieldHeight: real): Point {
    Point(ClampCoord(p.x, fieldWidth), ClampCoord(p.y, fieldHeight))
  }

  /**
   * The element moved back so that its right and bottom edges are not past
   * the field, and then so that its origin is not negative; the extents
   * never change.
   */
  function DragClamped(r: Rect, fieldWidth: real, fieldHeight: real): Rect {
    Rect(Max(0.0, Min(r.x, fieldWidth - r.width)), Max(0.0, Min(r.y, fieldHeight - r.height)), r.width, r.height)
  }

  /** ensureFieldBordersOnResize: clamps the point object in place. */
  method EnsureFieldBordersOnResize(p: MutablePoint, fieldWidth: real, fieldHeight: real)
    modifies p
    ensures p.Value() == ClampPoint(old(p.Value()), fieldWidth, fieldHeight)
  {
    if p.x > fieldWidth { p.x := fieldWidth; }
    if p.y > fieldHeight { p.y := fieldHeight; }
    if p.x < 0.0 { p.x := 0.0; }
    if p.y < 0.0 { p.y := 0.0; }
  }

  /** ensureFieldBordersOnDrag: moves the element object in place. */
  method EnsureFieldBordersOnDrag<A>(e: Elem<A>, fieldWidth: real, fieldHeight: real)
    modifies e
    ensures e.Geometry() == DragClamped(old(e.Geometry()), fieldWidth, fieldHeight)
  {
    if e.x + e.width > fieldWidth { e.x := fieldWidth - e.width; }
    if e.y + e.height > fieldHeight { e.y := fieldHeight - e.height; }
    if e.x < 0.0 { e.x := 0.0; }
    if e.y < 0.0 { e.y := 0.0; }
  }

  /** With non-negative field sizes the clamped point lies in the field. */
  lemma ClampPointInField(p: Point, fieldWidth: real, fieldHeight: real)
    requires fieldWidth >= 0.0 && fieldHeight >= 0.0
    ensures var c := ClampPoint(p, fieldWidth, fieldHeight);
      0.0 <= c.x <= fieldWidth && 0.0 <= c.y <= fieldHeight
  {
  }

  /** A point already in the field is left alone, so clamping twice is clamping once. */
  lemma ClampPointKeepsInside(p: Point, fieldWidth: real, fieldHeight: real)
    ensures 0.0 <= p.x <= fieldWidth && 0.0 <= p.y <= fieldHeight ==> ClampPoint(p, fieldWidth, fieldHeight) == p
    ensures var c := ClampPoint(p, fieldWidth, fieldHeight);
      fieldWidth >= 0.0 && fieldHeight >= 0.0 ==> ClampPoint(c, fieldWidth, fieldHeight) == c
  {
  }

  /**
   * After the drag clamp the origin is not negative, the extents are the
   * same, and an element no wider (higher) than the field ends inside it.
   */
  lemma DragClampedInField(r: Rect, fieldWidth: real, fieldHeight: real)
    ensures var c := DragClamped(r, fieldWidth, fieldHeight);
      && c.x >= 0.0 && c.y >= 0.0
      && c.width == r.width && c.height == r.height
      && (r.width <= fieldWidth ==> c.x + c.width <= fieldWidth)
      && (r.height <= fieldHeight ==> c.y + c.height <= fieldHeight)
  {
  }

  /** An element already inside the field does not move. */
  lemma DragClampedKeepsInside(r: Rect, fieldWidth: real, fieldHeight: real)
    requires r.x >= 0.0 && r.x + r.width <= fieldWidth
    requires r.y >= 0.0 && r.y + r.height <= fieldHeight
    ensures DragClamped(r, fieldWidth, fieldHeight) == r
  {
  }

  /**
   * Field 400 x 300: an element at x = 390 of width 20 is pulled back to
   * x = 380; one wider than the field ends at x = 0, because the right-edge
   * correction runs before the left-edge clamp.
   */
  lemma DragClampedExamples()
    ensures DragClamped(Rect(390.0, 10.0, 20.0, 20.0), 400.0, 300.0) == Rect(380.0, 10.0, 20.0, 20.0)
    ensures DragClamped(Rect(50.0, 10.0, 500.0, 20.0), 400.0, 300.0).x == 0.0
  {
  }
}
