/**
 * Shape predicates of both packages (src/lib/utils/detectShape.ts and
 * projects/ngx-canvas-drawer/src/lib/utils/detectShape.ts).
 */
module DetectShape {
  import opened Types
  import opened LegacyTypes

  predicate IsRectangle(e: Element) { e.shape == Rectangle }
  predicate IsCircle(e: Element) { e.shape == Ellipse }
  predicate IsTriangle(e: Element) { e.shape == Triangle }
  predicate IsImage(e: Element) { e.shape == Image }

  /** How many of the four predicates hold of an element. */
  function ShapeMatches(e: Element): (n: nat)
    ensures n == 1
  {
    (if IsRectangle(e) then 1 else 0) + (if IsCircle(e) then 1 else 0) +
    (if IsTriangle(e) then 1 else 0) + (if IsImage(e) then 1 else 0)
  }

  /** Every element satisfies exactly one of the four predicates, and the one it satisfies names its shape. */
  lemma ExactlyOneShape(e: Element)
    ensures ShapeMatches(e) == 1
    ensures IsRectangle(e) <==> e.shape == Rectangle
    ensures IsCircle(e) <==> e.shape == Ellipse
    ensures IsTriangle(e) <==> e.shape == Triangle
    ensures IsImage(e) <==> e.shape == Image
  {
  }

  /** The predicates read the shape only: geometry, colour and the optional fields do not matter. */
  lemma ShapeOnly(info: ElementInfo, r: Rect, s: Rect)
    ensures IsRectangle(info.At(r)) == IsRectangle(info.At(s))
    ensures IsCircle(info.At(r)) == IsCircle(info.At(s))
    ensures IsTriangle(info.At(r)) == IsTriangle(info.At(s))
    ensures IsImage(info.At(r)) == IsImage(info.At(s))
  {
  }

  predicate LegacyIsRectangle(e: LayoutElement) { e.shape == LegacyRectangle }

  /** The legacy circle test matches the legacy spelling 'elips'. */
  predicate LegacyIsCircle(e: LayoutElement) { e.shape == Elips }

  /** Over the two legacy shapes the two predicates are exclusive and one of them always holds. */
  lemma LegacyExactlyOneShape(e: LayoutElement)
    ensures LegacyIsRectangle(e) != LegacyIsCircle(e)
    ensures LegacyIsCircle(e) <==> e.shape == Elips
  {
  }
}
