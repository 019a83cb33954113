/** Where each resize handle of an element sits (src/lib/utils/getHandlePosition.ts). */
module HandlePositions {
  import opened Types

  /**
   * The corners sit at the corners of the box, the edge handles at the
   * midpoints of the edges; `center` has no position.
   */
  function HandlePosition(h: Handle, r: Rect): (p: Option<Point>)
    ensures p.None? <==> h == Center
  {
    match h
    case TopLeft => Some(Point(r.x, r.y))
    case TopRight => Some(Point(r.x + r.width, r.y))
    case BottomLeft => Some(Point(r.x, r.y + r.height))
    case BottomRight => Some(Point(r.x + r.width, r.y + r.height))
    case Top => Some(Point(r.x + r.width / 2.0, r.y))
    case Left => Some(Point(r.x, r.y + r.height / 2.0))
    case Bottom => Some(Point(r.x + r.width / 2.0, r.y + r.height))
    case Right => Some(Point(r.x + r.width, r.y + r.height / 2.0))
    case Center => None
  }

  function Midpoint(p: Point, q: Point): Point {
    Point((p.x + q.x) / 2.0, (p.y + q.y) / 2.0)
  }

  /** Each edge handle is the midpoint of the two corner handles of its edge. */
  lemma EdgeHandlesAreMidpoints(r: Rect)
    ensures HandlePosition(Top, r).value == Midpoint(HandlePosition(TopLeft, r).value, HandlePosition(TopRight, r).value)
    ensures HandlePosition(Bottom, r).value == Midpoint(HandlePosition(BottomLeft, r).value, HandlePosition(BottomRight, r).value)
    ensures HandlePosition(Left, r).value == Midpoint(HandlePosition(TopLeft, r).value, HandlePosition(BottomLeft, r).value)
    ensures HandlePosition(Right, r).value == Midpoint(HandlePosition(TopRight, r).value, HandlePosition(BottomRight, r).value)
  {
  }

  /**
   * For a box with non-negative extents every handle lies on its border,
   * inside the closed box. Each handle lies on the lines its name says:
   * a corner on one vertical and one horizontal line, and an edge handle on
   * its own edge, strictly between the corners when that edge has length.
   */
  lemma HandlesOnBorder(h: Handle, r: Rect)
    requires h != Center && r.width >= 0.0 && r.height >= 0.0
    ensures var p := HandlePosition(h, r).value;
      && r.x <= p.x <= r.x + r.width
      && r.y <= p.y <= r.y + r.height
      && (p.x == r.x || p.x == r.x + r.width || p.y == r.y || p.y == r.y + r.height)
    ensures var p := HandlePosition(h, r).value;
      && (h == TopLeft || h == TopRight || h == Top ==> p.y == r.y)
      && (h == BottomLeft || h == BottomRight || h == Bottom ==> p.y == r.y + r.height)
      && (h == TopLeft || h == BottomLeft || h == Left ==> p.x == r.x)
      && (h == TopRight || h == BottomRight || h == Right ==> p.x == r.x + r.width)
    ensures var p := HandlePosition(h, r).value;
      && ((h == Top || h == Bottom) && r.width > 0.0 ==> r.x < p.x < r.x + r.width)
      && ((h == Left || h == Right) && r.height > 0.0 ==> r.y < p.y < r.y + r.height)
  {
  }

  /** The positions depend on the geometry only and move with it. */
  lemma HandlePositionTranslates(h: Handle, r: Rect, dx: real, dy: real)
    ensures var moved := HandlePosition(h, Rect(r.x + dx, r.y + dy, r.width, r.height));
      match HandlePosition(h, r)
      case None => moved.None?
      case Some(p) => moved == Some(Point(p.x + dx, p.y + dy))
  {
  }
}
