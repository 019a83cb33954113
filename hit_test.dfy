/**
 * Whether the pointer is over the body of an element: the strict interior
 * test of src/lib/utils/detectIfMouseIsOverElement.ts and of its copy over
 * layout elements in the older package.
 */
module HitTest {
  import opened Types
  import opened LegacyTypes

  /** The strict interior test on a box. */
  predicate InsideRect(px: real, py: real, r: Rect) {
    px > r.x && px < r.x + r.width && py > r.y && py < r.y + r.height
  }

  /** detectIfMouseIsOverElement over IElement. */
  predicate IsOver(px: real, py: real, e: Element) {
    InsideRect(px, py, e.Geometry())
  }

  /** detectIfMouseIsOverElement over ILayoutElement. */
  predicate IsOverLayout(px: real, py: real, e: LayoutElement) {
    InsideRect(px, py, e.Geometry())
  }

  /** Points on the border of the box are outside it. */
  lemma BorderIsOutside(px: real, py: real, e: Element)
    requires px == e.x || px == e.x + e.width || py == e.y || py == e.y + e.height
    ensures !IsOver(px, py, e)
  {
  }

  lemma IsOverExamples(info: ElementInfo)
    ensures var e := info.At(Rect(10.0, 10.0, 20.0, 20.0));
      !IsOver(10.0, 15.0, e) && IsOver(15.0, 15.0, e) && !IsOver(30.0, 15.0, e)
  {
  }

  /** A box with a zero or negative extent contains no point. */
  lemma EmptyBoxContainsNothing(px: real, py: real, e: Element)
    requires e.width <= 0.0 || e.height <= 0.0
    ensures !IsOver(px, py, e)
  {
  }

  /** Moving the point and the element together does not change the answer. */
  lemma IsOverTranslates(px: real, py: real, e: Element, dx: real, dy: real)
    ensures IsOver(px + dx, py + dy, e.(x := e.x + dx, y := e.y + dy)) == IsOver(px, py, e)
  {
  }

  /** The answer depends on the geometry only. */
  lemma IsOverGeometryOnly(px: real, py: real, e1: Element, e2: Element)
    requires e1.Geometry() == e2.Geometry()
    ensures IsOver(px, py, e1) == IsOver(px, py, e2)
  {
  }

  lemma LayoutBorderIsOutside(px: real, py: real, e: LayoutElement)
    requires px == e.x || px == e.x + e.width || py == e.y || py == e.y + e.height
    ensures !IsOverLayout(px, py, e)
  {
  }

  lemma LayoutEmptyBoxContainsNothing(px: real, py: real, e: LayoutElement)
    requires e.width <= 0.0 || e.height <= 0.0
    ensures !IsOverLayout(px, py, e)
  {
  }

  /** The two copies agree on every input with the same geometry. */
  lemma LayoutAgreesWithElement(px: real, py: real, le: LayoutElement, e: Element)
    requires le.Geometry() == e.Geometry()
    ensures IsOverLayout(px, py, le) == IsOver(px, py, e)
  {
  }
}
