/**
 * The older package's border clamps
 * (projects/ngx-canvas-drawer/src/lib/utils/ensureFieldBorders.ts): the
 * pointer clamp reassigns its number parameters and returns a new point;
 * the drag clamp mutates the element and returns the same object.
 */
module LegacyFieldBorders {
  import opened Types
  import opened Objects
  import FieldBorders

  /** ensureFieldBordersOnResize: the guarded reassignments of the two coordinates. */
  function EnsureFieldBordersOnResize(mouseX: real, mouseY: real, fieldWidth: real, fieldHeight: real): (p: Point)
    ensures fieldWidth >= 0.0 && fieldHeight >= 0.0 ==> 0.0 <= p.x <= fieldWidth && 0.0 <= p.y <= fieldHeight
    ensures 0.0 <= mouseX <= fieldWidth ==> p.x == mouseX
    ensures 0.0 <= mouseY <= fieldHeight ==> p.y == mouseY
    ensures p == FieldBorders.ClampPoint(Point(mouseX, mouseY), fieldWidth, fieldHeight)
  {
    var x1 := if mouseX > fieldWidth then fieldWidth else mouseX;
    var y1 := if mouseY > fieldHeight then fieldHeight else mouseY;
    var x2 := if x1 < 0.0 then 0.0 else x1;
    var y2 := if y1 < 0.0 then 0.0 else y1;
    Point(x2, y2)
  }

  /** ensureFieldBordersOnDrag: mutates the element and returns it. */
  method EnsureFieldBordersOnDrag<A>(e: Elem<A>, fieldWidth: real, fieldHeight: real) returns (r: Elem<A>)
    modifies e
    ensures r == e
    ensures e.Geometry() == FieldBorders.DragClamped(old(e.Geometry()), fieldWidth, fieldHeight)
  {
    if e.x + e.width > fieldWidth { e.x := fieldWidth - e.width; }
    if e.y + e.height > fieldHeight { e.y := fieldHeight - e.height; }
    if e.x < 0.0 { e.x := 0.0; }
    if e.y < 0.0 { e.y := 0.0; }
    r := e;
  }
}
