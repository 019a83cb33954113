/**
 * The mutable objects the core updates in place. The utilities of the
 * source are structurally typed over `{x, y, width, height}`, so one class,
 * generic in the fields the core never writes, serves both IElement
 * (`Elem<ElementInfo>`) and ILayoutElement (`Elem<LayoutInfo>`).
 */
module Objects {
  import opened Types

  class Elem<A> {
    var x: real
    var y: real
    var width: real
    var height: real
    /** shape, colour and the optional fields: read by the core, never written */
    const attrs: A

    constructor (r: Rect, attrs: A)
      ensures Geometry() == r && this.attrs == attrs
    {
      x, y, width, height := r.x, r.y, r.width, r.height;
      this.attrs := attrs;
    }

    function Geometry(): Rect
      reads this
    {
      Rect(x, y, width, height)
    }
  }

  /** A point object whose coordinates are updated in place. */
  class MutablePoint {
    var x: real
    var y: real

    constructor (p: Point)
      ensures Value() == p
    {
      x, y := p.x, p.y;
    }

    function Value(): Point
      reads this
    {
      Point(x, y)
    }
  }
}
