/**
 * The resize-by-handle transform
 * (projects/ngx-canvas-drawer/src/lib/utils/updateElementOnResize.ts).
 * The edges a handle names follow the pointer; the other edges stay where
 * they are. Extents may become negative; nothing here normalises them.
 */
module Resize {
  import opened Types
  import opened Objects
  import opened HandlePositions
  import NegativeProps

  predicate MovesLeft(h: Option<Handle>) { h == Some(TopLeft) || h == Some(BottomLeft) || h == Some(Left) }
  predicate MovesRight(h: Option<Handle>) { h == Some(TopRight) || h == Some(BottomRight) || h == Some(Right) }
  predicate MovesTop(h: Option<Handle>) { h == Some(TopLeft) || h == Some(TopRight) || h == Some(Top) }
  predicate MovesBottom(h: Option<Handle>) { h == Some(BottomLeft) || h == Some(BottomRight) || h == Some(Bottom) }

  /** The box whose left, top, right and bottom edges are the given ones. */
  function FromEdges(left: real, top: real, right: real, bottom: real): Rect {
    Rect(left, top, right - left, bottom - top)
  }

  /** The box after the pointer drags the edges named by the handle to itself. */
  function Resized(h: Option<Handle>, mouse: Point, r: Rect): Rect {
    FromEdges(
      if MovesLeft(h) then mouse.x else r.x,
      if MovesTop(h) then mouse.y else r.y,
      if MovesRight(h) then mouse.x else r.x + r.width,
      if MovesBottom(h) then mouse.y else r.y + r.height)
  }

  /**
   * updateElementOnResize: updates the element in place, case by case, and
   * returns the same object; no handle, or `center`, leaves it unchanged.
   */
  method UpdateElementOnResize<A>(handle: Option<Handle>, mouse: Point, e: Elem<A>) returns (r: Elem<A>)
    modifies e
    ensures r == e
    ensures e.Geometry() == Resized(handle, mouse, old(e.Geometry()))
  {
    r := e;
    match handle
    case Some(TopLeft) =>
      e.width := e.width + (e.x - mouse.x);
      e.height := e.height + (e.y - mouse.y);
      e.x := mouse.x;
      e.y := mouse.y;
    case Some(TopRight) =>
      e.width := mouse.x - e.x;
      e.height := e.height + (e.y - mouse.y);
      e.y := mouse.y;
    case Some(BottomLeft) =>
      e.width := e.width + (e.x - mouse.x);
      e.x := mouse.x;
      e.height := mouse.y - e.y;
    case Some(BottomRight) =>
      e.width := mouse.x - e.x;
      e.height := mouse.y - e.y;
    case Some(Top) =>
      e.height := e.height + (e.y - mouse.y);
      e.y := mouse.y;
    case Some(Left) =>
      e.width := e.width + (e.x - mouse.x);
      e.x := mouse.x;
    case Some(Bottom) =>
      e.height := mouse.y - e.y;
    case Some(Right) =>
      e.width := mouse.x - e.x;
    case _ =>
  }

  /**
   * Every edge the handle does not name keeps its position; every edge it
   * names moves to the pointer.
   */
  lemma ResizedEdges(h: Option<Handle>, mouse: Point, r: Rect)
    ensures var n := Resized(h, mouse, r);
      && n.x == (if MovesLeft(h) then mouse.x else r.x)
      && n.x + n.width == (if MovesRight(h) then mouse.x else r.x + r.width)
      && n.y == (if MovesTop(h) then mouse.y else r.y)
      && n.y + n.height == (if MovesBottom(h) then mouse.y else r.y + r.height)
  {
  }

  /** bottomRight sets the extents to the pointer minus the origin and keeps the origin. */
  lemma ResizedBottomRight(mouse: Point, r: Rect)
    ensures Resized(Some(BottomRight), mouse, r) == Rect(r.x, r.y, mouse.x - r.x, mouse.y - r.y)
  {
  }

  /** topLeft moves the origin to the pointer and keeps the right and bottom edges. */
  lemma ResizedTopLeft(mouse: Point, r: Rect)
    ensures var n := Resized(Some(TopLeft), mouse, r);
      n.x == mouse.x && n.y == mouse.y && n.x + n.width == r.x + r.width && n.y + n.height == r.y + r.height
  {
  }

  /** topRight and bottomLeft each move one origin coordinate and keep the opposite corner. */
  lemma ResizedOtherCorners(mouse: Point, r: Rect)
    ensures var n := Resized(Some(TopRight), mouse, r);
      n.x == r.x && n.y + n.height == r.y + r.height && n.x + n.width == mouse.x && n.y == mouse.y
    ensures var n := Resized(Some(BottomLeft), mouse, r);
      n.y == r.y && n.x + n.width == r.x + r.width && n.x == mouse.x && n.y + n.height == mouse.y
  {
  }

  /**
   * The edge handles change one axis only: top and left move the origin and
   * keep the far edge, bottom and right change the extent alone.
   */
  lemma ResizedEdgeHandles(mouse: Point, r: Rect)
    ensures var n := Resized(Some(Top), mouse, r);
      n.x == r.x && n.width == r.width && n.y == mouse.y && n.y + n.height == r.y + r.height
    ensures var n := Resized(Some(Left), mouse, r);
      n.y == r.y && n.height == r.height && n.x == mouse.x && n.x + n.width == r.x + r.width
    ensures Resized(Some(Bottom), mouse, r) == Rect(r.x, r.y, r.width, mouse.y - r.y)
    ensures Resized(Some(Right), mouse, r) == Rect(r.x, r.y, mouse.x - r.x, r.height)
  {
  }

  /** No handle, or `center`, leaves the box as it is. */
  lemma ResizedWithoutHandle(mouse: Point, r: Rect)
    ensures Resized(None, mouse, r) == r
    ensures Resized(Some(Center), mouse, r) == r
  {
  }

  /** Dropping a handle where it already sits changes nothing. */
  lemma ResizedAtOwnPosition(h: Handle, r: Rect)
    requires h != Center
    ensures Resized(Some(h), HandlePosition(h, r).value, r) == r
  {
  }

  /**
   * Dragging the bottom-right handle above and to the left of the origin
   * gives negative extents; normalising afterwards puts the origin at the
   * pointer and the far corner at the old origin.
   */
  lemma ResizedPastOppositeCorner(mouse: Point, r: Rect)
    requires mouse.x < r.x && mouse.y < r.y
    ensures var n := Resized(Some(BottomRight), mouse, r);
      n.width < 0.0 && n.height < 0.0 &&
      NegativeProps.Normalized(n) == Rect(mouse.x, mouse.y, r.x - mouse.x, r.y - mouse.y)
  {
  }
}
