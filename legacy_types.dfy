/**
 * The data model of the older drawer package
 * (projects/ngx-canvas-drawboard/src/lib/types.ts): a layout element carries
 * geometry, shape and colour only, the shape kind has two values, and the
 * mouse handle enumeration has the eight compass members and no centre.
 */
module LegacyTypes {
  import opened Types

  /** Shape: 'rectangle' | 'elips'. */
  datatype LegacyShape = LegacyRectangle | Elips

  /** ILayoutElement. */
  datatype LayoutElement = LayoutElement(
    x: real, y: real, width: real, height: real,
    shape: LegacyShape,
    color: string)
  {
    function Geometry(): Rect {
      Rect(x, y, width, height)
    }

    function Info(): LayoutInfo {
      LayoutInfo(shape, color)
    }
  }

  /** The fields of an ILayoutElement that no operation of the core writes. */
  datatype LayoutInfo = LayoutInfo(shape: LegacyShape, color: string)
  {
    function At(r: Rect): (e: LayoutElement)
      ensures e.Geometry() == r && e.Info() == this
    {
      LayoutElement(r.x, r.y, r.width, r.height, shape, color)
    }
  }

  /** A rendering context; the renderers are not part of this model. */
  datatype RenderContext = RenderContext(id: nat)

  /** IDrawElement: the context may be missing, fill and isHovered are optional. */
  datatype DrawElement = DrawElement(
    ctx: Option<RenderContext>,
    elem: LayoutElement,
    fill: Option<bool>,
    isHovered: Option<bool>)

  /** IDrawHandle: a context (possibly missing) and an element. */
  datatype DrawHandle = DrawHandle(ctx: Option<RenderContext>, elem: LayoutElement)

  /** EMouseHandle of this package: the eight compass handles, in this order. */
  datatype LegacyHandle =
    | LegacyTopLeft | LegacyTopRight | LegacyBottomLeft | LegacyBottomRight
    | LegacyTop | LegacyLeft | LegacyBottom | LegacyRight

  /** Each legacy handle is the compass handle of the same name. */
  function ToHandle(h: LegacyHandle): (r: Handle)
    ensures r != Center
  {
    match h
    case LegacyTopLeft => TopLeft
    case LegacyTopRight => TopRight
    case LegacyBottomLeft => BottomLeft
    case LegacyBottomRight => BottomRight
    case LegacyTop => Top
    case LegacyLeft => Left
    case LegacyBottom => Bottom
    case LegacyRight => Right
  }

  /** The members of the legacy EMouseHandle in declaration order. */
  const LegacyHandleOrder: seq<LegacyHandle> :=
    [LegacyTopLeft, LegacyTopRight, LegacyBottomLeft, LegacyBottomRight, LegacyTop, LegacyLeft, LegacyBottom, LegacyRight]

  /**
   * The legacy enumeration is the current one without its last member,
   * `center`, in the same order.
   */
  lemma LegacyHandlesAreCompassHandles()
    ensures |LegacyHandleOrder| == |HandleOrder| - 1
    ensures forall i :: 0 <= i < |LegacyHandleOrder| ==> ToHandle(LegacyHandleOrder[i]) == HandleOrder[i]
    ensures HandleOrder[|HandleOrder| - 1] == Center
    ensures forall l :: l in LegacyHandleOrder
  {
    forall l ensures l in LegacyHandleOrder {
      match l
      case LegacyTopLeft => assert LegacyHandleOrder[0] == l;
      case LegacyTopRight => assert LegacyHandleOrder[1] == l;
      case LegacyBottomLeft => assert LegacyHandleOrder[2] == l;
      case LegacyBottomRight => assert LegacyHandleOrder[3] == l;
      case LegacyTop => assert LegacyHandleOrder[4] == l;
      case LegacyLeft => assert LegacyHandleOrder[5] == l;
      case LegacyBottom => assert LegacyHandleOrder[6] == l;
      case LegacyRight => assert LegacyHandleOrder[7] == l;
    }
  }
}
