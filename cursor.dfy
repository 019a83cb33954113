/**
 * The cursor decision (src/lib/utils/setCursorType.ts): the resize cursor a
 * handle asks for, and the cursor shown for a hovered index and handle.
 * Writing the chosen cursor into the document is not part of this model.
 */
module Cursor {
  import opened Types
  import Resize

  /** The CSS cursor values the source chooses between. */
  datatype CursorStyle = Initial | Grab | NsResize | EwResize | NwseResize | NeswResize
  {
    /** The CSS keyword of the cursor. */
    function Css(): string {
      match this
      case Initial => "initial"
      case Grab => "grab"
      case NsResize => "ns-resize"
      case EwResize => "ew-resize"
      case NwseResize => "nwse-resize"
      case NeswResize => "nesw-resize"
    }
  }

  /** Distinct cursors have distinct CSS keywords. */
  lemma CssInjective(a: CursorStyle, b: CursorStyle)
    ensures a.Css() == b.Css() ==> a == b
  {
  }

  /**
   * detectResizeCursor. The cursor follows the edges the handle moves when
   * dragged (the resize transform): only the top or bottom edge gives the
   * vertical arrow, only the left or right edge the horizontal one, the
   * top-left/bottom-right diagonal `nwse`, the other diagonal `nesw`, and a
   * handle that moves no edge (none, or `center`) the initial cursor.
   */
  function DetectResizeCursor(handle: Option<Handle>): (c: CursorStyle)
    ensures var vertical := Resize.MovesTop(handle) || Resize.MovesBottom(handle);
      var horizontal := Resize.MovesLeft(handle) || Resize.MovesRight(handle);
      && (c == NsResize <==> vertical && !horizontal)
      && (c == EwResize <==> horizontal && !vertical)
      && (c == NwseResize <==> (Resize.MovesTop(handle) && Resize.MovesLeft(handle)) || (Resize.MovesBottom(handle) && Resize.MovesRight(handle)))
      && (c == NeswResize <==> (Resize.MovesTop(handle) && Resize.MovesRight(handle)) || (Resize.MovesBottom(handle) && Resize.MovesLeft(handle)))
      && (c == Initial <==> !vertical && !horizontal)
    ensures c != Grab
  {
    match handle
    case None => Initial
    case Some(h) =>
      match h
      case Bottom => NsResize
      case Top => NsResize
      case Left => EwResize
      case Right => EwResize
      case TopLeft => NwseResize
      case BottomRight => NwseResize
      case TopRight => NeswResize
      case BottomLeft => NeswResize
      case Center => Initial
  }

  /**
   * The decision of setCursorType: `grab` over an element, `initial`
   * elsewhere, and any present handle (even `center`) overrides both with
   * its resize cursor.
   */
  function CursorFor(hoveredIndex: int, currentHandle: Option<Handle>): (c: CursorStyle)
    ensures currentHandle.Some? ==> c == DetectResizeCursor(currentHandle)
    ensures currentHandle.None? ==> (c == Grab <==> hoveredIndex >= 0)
    ensures currentHandle.None? ==> (c == Initial <==> hoveredIndex < 0)
    ensures c == Grab ==> hoveredIndex >= 0 && currentHandle.None?
  {
    var cursor := if hoveredIndex >= 0 then Grab else Initial;
    if currentHandle.Some? then DetectResizeCursor(currentHandle) else cursor
  }

  /** Opposite handles share a cursor: the arrow runs through both of them. */
  lemma OppositeHandlesShareCursor()
    ensures DetectResizeCursor(Some(Top)) == DetectResizeCursor(Some(Bottom)) == NsResize
    ensures DetectResizeCursor(Some(Left)) == DetectResizeCursor(Some(Right)) == EwResize
    ensures DetectResizeCursor(Some(TopLeft)) == DetectResizeCursor(Some(BottomRight)) == NwseResize
    ensures DetectResizeCursor(Some(TopRight)) == DetectResizeCursor(Some(BottomLeft)) == NeswResize
    ensures DetectResizeCursor(Some(Center)) == DetectResizeCursor(None) == Initial
  {
  }
}
