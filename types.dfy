/**
 * The data model of the drawing board (src/lib/types.ts): elements, points,
 * the mouse handles in their declaration order, the shape kinds and the
 * grid configuration.
 */
module Types {

  datatype Option<+T> = None | Some(value: T)

  /** A point in canvas-local pixel coordinates (IPoint). */
  datatype Point = Point(x: real, y: real)

  /**
   * The geometric part shared by IElement and ILayoutElement. Width and
   * height may be negative while a gesture is in progress.
   */
  datatype Rect = Rect(x: real, y: real, width: real, height: real)

  /** Shape: 'rectangle' | 'ellipse' | 'triangle' | 'image'. */
  datatype Shape = Rectangle | Ellipse | Triangle | Image

  datatype Align = AlignLeft | AlignCenter | AlignRight

  /** The font weights the text of an element may carry (100 to 600). */
  datatype FontWeight = W100 | W200 | W300 | W400 | W500 | W600

  /** IElementText: a value and optional styling. */
  datatype ElementText = ElementText(
    value: string,
    color: Option<string>,
    fontWeight: Option<FontWeight>,
    fontFamily: Option<string>,
    fontStyle: Option<string>,
    fontSize: Option<string>,
    align: Option<Align>)

  /** IElementBorder: a permanent stroke, both parts optional. */
  datatype ElementBorder = ElementBorder(color: Option<string>, width: Option<real>)

  /** An opaque bitmap handle (CanvasImageSource). */
  datatype ImageSource = ImageSource(id: nat)

  /** IElement: geometry, shape and colour always; text, border and image optional. */
  datatype Element = Element(
    x: real, y: real, width: real, height: real,
    shape: Shape,
    color: string,
    text: Option<ElementText>,
    border: Option<ElementBorder>,
    imageSrc: Option<ImageSource>)
  {
    function Geometry(): Rect {
      Rect(x, y, width, height)
    }

    function Info(): ElementInfo {
      ElementInfo(shape, color, text, border, imageSrc)
    }
  }

  /** The fields of an IElement that no operation of the core writes. */
  datatype ElementInfo = ElementInfo(
    shape: Shape,
    color: string,
    text: Option<ElementText>,
    border: Option<ElementBorder>,
    imageSrc: Option<ImageSource>)
  {
    /** The element with these fields placed at the given geometry. */
    function At(r: Rect): (e: Element)
      ensures e.Geometry() == r && e.Info() == this
    {
      Element(r.x, r.y, r.width, r.height, shape, color, text, border, imageSrc)
    }
  }

  /** IDrawElement: an element handed to a renderer, with an optional fill flag. */
  datatype DrawElement = DrawElement(elem: Element, fill: Option<bool>)

  /**
   * EMouseHandle. The declaration order is significant: handle detection
   * tries the handles in this order and returns the first that matches.
   */
  datatype Handle = TopLeft | TopRight | BottomLeft | BottomRight | Top | Left | Bottom | Right | Center

  /** The members of EMouseHandle in declaration order (Object.values). */
  const HandleOrder: seq<Handle> := [TopLeft, TopRight, BottomLeft, BottomRight, Top, Left, Bottom, Right, Center]

  /** The position of a handle in the declaration order. */
  function HandleIndex(h: Handle): (i: nat)
    ensures i < |HandleOrder| && HandleOrder[i] == h
  {
    match h
    case TopLeft => 0
    case TopRight => 1
    case BottomLeft => 2
    case BottomRight => 3
    case Top => 4
    case Left => 5
    case Bottom => 6
    case Right => 7
    case Center => 8
  }

  lemma HandleOrderEnumerates()
    ensures |HandleOrder| == 9
    ensures forall i :: 0 <= i < |HandleOrder| ==> HandleIndex(HandleOrder[i]) == i
    ensures forall h: Handle :: h in HandleOrder
  {
    forall h: Handle ensures h in HandleOrder {
      assert HandleOrder[HandleIndex(h)] == h;
    }
  }

  /**
   * IOutputEvent: the index an event is about and the element there. The
   * element is missing when the index is outside the list.
   */
  datatype OutputEvent = OutputEvent(index: int, element: Option<Element>)

  /** IOutputClickEvent: an output event with the client coordinates of the click. */
  datatype OutputClickEvent = OutputClickEvent(index: int, element: Option<Element>, clickCoords: Point)

  /**
   * An optional property of an object literal: left out, written as
   * `undefined`, or given a value. Object.assign copies the last two.
   */
  datatype Field<+T> = Absent | Undefined | Given(value: T)

  /** IGridConfig: every field optional. */
  datatype GridConfig = GridConfig(
    enabled: Field<bool>,
    cellSize: Field<real>,
    strokeWidth: Field<real>,
    strokeColor: Field<string>)

  /**
   * IDrawGridConfig as it holds after Object.assign: `None` is a field the
   * caller set to `undefined`, which replaced the default.
   */
  datatype DrawGridConfig = DrawGridConfig(
    enabled: Option<bool>,
    cellSize: Option<real>,
    strokeWidth: Option<real>,
    strokeColor: Option<string>)
}
