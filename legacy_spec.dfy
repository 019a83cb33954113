/**
 * The interaction rules of the older drawer component
 * (projects/ngx-canvas-drawer/src/lib/ngx-canvas-drawer.ts) as functions on a
 * value of the whole controller state. It shares the hover scan, the
 * pointer clamp, the drag clamp and the resize transform with the current
 * board, but emits indices instead of output events, has no jitter guard
 * and no start or progress notifications, and resets the draft only when a
 * drawn element is added. The class in canvas_drawer.dfy is proved to
 * follow these functions.
 */
module CanvasDrawerSpec {
  import opened Types
  import opened LegacyTypes
  import opened FieldBorders
  import NegativeProps
  import Resize
  import opened HoverScan
  import opened Cursor

  /** minElementSize of the older component. */
  const LegacyMinElementSize := 10.0

  /**
   * One emitted notification: onAddElement with the added element,
   * onFocusElement, onBlurElement, onMouseEnterElement and
   * onMouseLeaveElement with an index, and the payload-free onResizeEnd and
   * onDragEnd.
   */
  datatype DrawerNote =
    | Added(element: LayoutElement)
    | Focused(index: int)
    | Blurred(index: int)
    | Entered(index: int)
    | Exited(index: int)
    | ResizeEnded
    | DragEnded

  /** emptyElement: an empty white box at the origin with the current shape. */
  function EmptyLayout(shape: LegacyShape): (e: LayoutElement)
    ensures e.Geometry() == Rect(0.0, 0.0, 0.0, 0.0)
    ensures e.Info() == LayoutInfo(shape, "#ffffff")
  {
    LayoutElement(0.0, 0.0, 0.0, 0.0, shape, "#ffffff")
  }

  /** The element with its extents made non-negative (convertElemntNegativeProps). */
  function NormalizeLayout(e: LayoutElement): LayoutElement {
    e.Info().At(NegativeProps.Normalized(e.Geometry()))
  }

  /** The element after a resize by the handle towards the pointer (updateElementOnResize). */
  function ResizeLayout(h: Option<Handle>, m: Point, e: LayoutElement): LayoutElement {
    e.Info().At(Resize.Resized(h, m, e.Geometry()))
  }

  /** The element translated by (dx, dy) and then clamped into the field (ensureFieldBordersOnDrag). */
  function DragLayout(e: LayoutElement, dx: real, dy: real, fieldWidth: real, fieldHeight: real): LayoutElement {
    e.Info().At(DragClamped(Rect(e.x + dx, e.y + dy, e.width, e.height), fieldWidth, fieldHeight))
  }

  /** The geometries of the elements, in list order. */
  function LayoutGeometries(scene: seq<LayoutElement>): (rs: seq<Rect>)
    ensures |rs| == |scene|
    ensures forall i :: 0 <= i < |scene| ==> rs[i] == scene[i].Geometry()
  {
    seq(|scene|, i requires 0 <= i < |scene| => scene[i].Geometry())
  }

  /**
   * The state of the component that the listeners read and write: the
   * shape input, the canvas size, the element list as values, the draft,
   * the index and flag fields, the clamped pointer, the cursor chosen last
   * and the notifications emitted so far.
   */
  datatype Drawer = Drawer(
    shape: LegacyShape,
    canvasWidth: real,
    canvasHeight: real,
    scene: seq<LayoutElement>,
    draft: LayoutElement,
    mouseEnter: int,
    draggable: int,
    resizable: int,
    selected: int,
    mouse: Point,
    mouseIsDown: bool,
    shadow: bool,
    currentHandle: Option<Handle>,
    cursor: CursorStyle,
    log: seq<DrawerNote>)

  /**
   * What the listeners keep true between events: every index field is -1 or
   * in range, and at most one of the drag and resize targets is set.
   */
  predicate DrawerInv(d: Drawer) {
    && -1 <= d.mouseEnter < |d.scene|
    && -1 <= d.draggable < |d.scene|
    && -1 <= d.resizable < |d.scene|
    && -1 <= d.selected < |d.scene|
    && (d.draggable < 0 || d.resizable < 0)
  }

  /** The state after ngAfterViewInit with the given elements: the draft is the empty element. */
  function InitialDrawer(shape: LegacyShape, canvasWidth: real, canvasHeight: real, data: seq<LayoutElement>): (d: Drawer)
    ensures DrawerInv(d) && d.scene == data && d.log == []
  {
    Drawer(shape, canvasWidth, canvasHeight, data, EmptyLayout(shape),
      -1, -1, -1, -1, Point(0.0, 0.0), false, false, None, Initial, [])
  }

  // ---------------------------------------------------------------------
  // mouseDownListener

  /**
   * mouseDownListener at canvas-local point p: the draft starts at p; a
   * hovered element becomes the selection and focus is emitted with its
   * index; elsewhere the selection becomes -1 and blur is emitted with -1.
   */
  function DrawerMouseDown(d: Drawer, p: Point): (r: Drawer)
    ensures DrawerInv(d) ==> DrawerInv(r)
  {
    var d1 := DrawerPress(d, p);
    if d1.draggable >= 0 then SelectHovered(d1) else Deselect(d1)
  }

  /** The draft starts at p and the button is down. */
  function DrawerPress(d: Drawer, p: Point): Drawer {
    d.(draft := d.draft.(x := p.x, y := p.y), mouseIsDown := true)
  }

  /** The hovered element becomes the selection and focus is emitted with its index. */
  function SelectHovered(d: Drawer): Drawer {
    d.(selected := d.draggable, log := d.log + [Focused(d.draggable)])
  }

  /** The selection is cleared and blur is emitted with the cleared index. */
  function Deselect(d: Drawer): Drawer {
    d.(selected := -1, log := d.log + [Blurred(-1)])
  }

  // ---------------------------------------------------------------------
  // mouseMoveListener

  /**
   * mouseMoveListener at canvas-local point p. While the button is up
   * nothing happens. Otherwise the pointer is clamped into the canvas, the
   * draft's extents follow it, and the resize target, the drag target or
   * the draft is updated; nothing is emitted.
   */
  function DrawerMouseMove(d: Drawer, p: Point): (r: Drawer)
    ensures DrawerInv(d) ==> DrawerInv(r)
    ensures r.log == d.log && |r.scene| == |d.scene|
    ensures r.mouseIsDown == d.mouseIsDown && r.draggable == d.draggable && r.resizable == d.resizable && r.selected == d.selected
  {
    if !d.mouseIsDown then d
    else
      var d1 := DrawerTrack(d, p);
      if d1.resizable >= 0 then ResizeTarget(d1)
      else if d1.draggable >= 0 then DragTarget(d1)
      else d1
  }

  /** The pointer is clamped into the canvas and the draft's extents follow it. */
  function DrawerTrack(d: Drawer, p: Point): Drawer {
    var m := ClampPoint(p, d.canvasWidth, d.canvasHeight);
    d.(mouse := m, draft := d.draft.(width := m.x - d.draft.x, height := m.y - d.draft.y))
  }

  /** The resize target follows the pointer. */
  function ResizeTarget(d: Drawer): Drawer {
    var k := d.resizable;
    if 0 <= k < |d.scene| then d.(scene := d.scene[k := ResizeLayout(d.currentHandle, d.mouse, d.scene[k])]) else d
  }

  /** The drag target moves by the draft's extents and is clamped; the draft restarts at the pointer. */
  function DragTarget(d: Drawer): Drawer {
    var k := d.draggable;
    if 0 <= k < |d.scene| then
      d.(scene := d.scene[k := DragLayout(d.scene[k], d.draft.width, d.draft.height, d.canvasWidth, d.canvasHeight)],
         draft := d.draft.(x := d.mouse.x, y := d.mouse.y))
    else d
  }

  /** The state after the pointer moves through the points of ps, in order. */
  function DrawerMoves(d: Drawer, ps: seq<Point>): (r: Drawer)
    ensures DrawerInv(d) ==> DrawerInv(r)
    ensures r.log == d.log && |r.scene| == |d.scene|
    ensures r.mouseIsDown == d.mouseIsDown && r.draggable == d.draggable && r.resizable == d.resizable && r.selected == d.selected
    decreases |ps|
  {
    if ps == [] then d else DrawerMoves(DrawerMouseMove(d, ps[0]), ps[1..])
  }

  // ---------------------------------------------------------------------
  // mouseUpListener

  /**
   * mouseUpListener. The button is released; a resize target is normalised
   * and resize-end is emitted; any drag target emits drag-end; with neither
   * target the normalised draft is added, and the draft reset, when it is
   * large enough. Otherwise the draft is kept.
   */
  function DrawerMouseUp(d: Drawer): (r: Drawer)
    ensures DrawerInv(d) ==> DrawerInv(r)
    ensures !r.mouseIsDown
  {
    AddDrawn(EndDragging(EndResizing(d.(mouseIsDown := false))))
  }

  /** The resize target is normalised and resize-end is emitted. */
  function EndResizing(d: Drawer): Drawer {
    var k := d.resizable;
    if 0 <= k < |d.scene| then
      d.(scene := d.scene[k := NormalizeLayout(d.scene[k])], log := d.log + [ResizeEnded])
    else d
  }

  /** Any drag target emits drag-end. */
  function EndDragging(d: Drawer): Drawer {
    if d.draggable >= 0 then d.(log := d.log + [DragEnded]) else d
  }

  /** With no target, the drawn element is added when it is large enough. */
  function AddDrawn(d: Drawer): Drawer {
    if d.draggable < 0 && d.resizable < 0 then AppendDrawn(d) else d
  }

  /** The normalised draft is added, and the draft reset, when it is large enough. */
  function AppendDrawn(d: Drawer): Drawer {
    var n := NormalizeLayout(d.draft);
    if n.width > LegacyMinElementSize && n.height > LegacyMinElementSize then AppendLayout(d, n) else d
  }

  /** n is appended and emitted, and the draft is reset to the empty element. */
  function AppendLayout(d: Drawer, n: LayoutElement): Drawer {
    d.(scene := d.scene + [n], log := d.log + [Added(n)], draft := EmptyLayout(d.shape))
  }

  // ---------------------------------------------------------------------
  // handleMouseMovement

  /**
   * handleMouseMovement at canvas-local point p. While the button is down
   * nothing happens. Otherwise the scan picks the resize or the drag
   * target; enter and leave are emitted with indices on the change from no
   * hovered element to one and back; the shadow and the cursor follow.
   */
  function DrawerHover(d: Drawer, p: Point): (r: Drawer)
    ensures DrawerInv(d) ==> DrawerInv(r)
  {
    if d.mouseIsDown then d
    else DrawerShadowAndCursor(DrawerLeave(DrawerEnter(DrawerScanned(d, p))))
  }

  /** The fields the scan writes: the targets, the handle seen last (kept when there is no element) and the shadow over a body. */
  function DrawerScanned(d: Drawer, p: Point): (r: Drawer)
    ensures -1 <= r.draggable < |d.scene| && -1 <= r.resizable < |d.scene|
  {
    var rs := LayoutGeometries(d.scene);
    var res := Scan(rs, p);
    var handle :=
      match res
      case OverHandle(_, h) => Some(h)
      case OverBody(_) => None
      case Nowhere => if |d.scene| == 0 then d.currentHandle else None;
    d.(draggable := if res.OverBody? then res.index as int else -1,
       resizable := if res.OverHandle? then res.index as int else -1,
       currentHandle := handle,
       shadow := d.shadow || res.OverBody?)
  }

  /** Enter is emitted with the index when an element becomes hovered while none was. */
  function DrawerEnter(d: Drawer): Drawer {
    if d.mouseEnter < 0 && d.draggable >= 0 then
      d.(mouseEnter := d.draggable, log := d.log + [Entered(d.draggable)])
    else d
  }

  /** Leave is emitted with the index when the hovered element is left. */
  function DrawerLeave(d: Drawer): Drawer {
    if d.mouseEnter >= 0 && d.draggable < 0 then
      d.(log := d.log + [Exited(d.mouseEnter)], mouseEnter := -1)
    else d
  }

  /** The shadow goes off away from a body, and the cursor is chosen. */
  function DrawerShadowAndCursor(d: Drawer): Drawer {
    d.(shadow := if d.draggable < 0 && d.shadow then false else d.shadow,
       cursor := CursorFor(d.draggable, d.currentHandle))
  }

  // ---------------------------------------------------------------------
  // Properties

  /**
   * The hover scan picks the first element the pointer matches, the handle
   * test winning over the body test; at most one target is set.
   */
  lemma DrawerHoverFindsFirstMatch(d: Drawer, p: Point, k: nat)
    requires !d.mouseIsDown
    ensures var r := DrawerHover(d, p);
      && (r.draggable < 0 || r.resizable < 0)
      && ((r.draggable == k || r.resizable == k) <==>
          k < |d.scene| && Matches(p, d.scene[k].Geometry()) &&
          forall j :: 0 <= j < k ==> !Matches(p, d.scene[j].Geometry()))
      && (r.resizable == k ==> DetectHandle.DetectCurrentHandle(p, d.scene[k].Geometry()).Some?)
      && (r.draggable == k ==> DetectHandle.DetectCurrentHandle(p, d.scene[k].Geometry()).None?)
  {
    ScanIsFirstMatch(LayoutGeometries(d.scene), p, k);
  }

  /**
   * Enter is emitted with the hovered index on the change from no hovered
   * element to one, leave with the index entered before on the change back,
   * and nothing otherwise; the shadow is on exactly over a body and the
   * cursor is the one setCursorType picks.
   */
  lemma DrawerHoverEnterLeave(d: Drawer, p: Point)
    requires !d.mouseIsDown
    ensures var r := DrawerHover(d, p);
      && (d.mouseEnter < 0 && r.draggable >= 0 ==> r.log == d.log + [Entered(r.draggable)] && r.mouseEnter == r.draggable)
      && (d.mouseEnter >= 0 && r.draggable < 0 ==> r.log == d.log + [Exited(d.mouseEnter)] && r.mouseEnter == -1)
      && (d.mouseEnter >= 0 && r.draggable >= 0 ==> r.log == d.log && r.mouseEnter == d.mouseEnter)
      && (d.mouseEnter < 0 && r.draggable < 0 ==> r.log == d.log && r.mouseEnter == d.mouseEnter)
      && r.shadow == (r.draggable >= 0)
      && r.cursor == CursorFor(r.draggable, r.currentHandle)
      && r.scene == d.scene && r.draft == d.draft && r.selected == d.selected
  {
  }

  /**
   * mouse-down puts the draft's origin at the pointer and keeps its extents;
   * on a hovered element it selects it and emits focus with its index,
   * elsewhere it clears the selection and emits blur with -1.
   */
  lemma DrawerMouseDownSelects(d: Drawer, p: Point)
    ensures var r := DrawerMouseDown(d, p);
      && r.mouseIsDown && r.scene == d.scene
      && r.draft == d.draft.(x := p.x, y := p.y)
      && (d.draggable >= 0 ==> r.selected == d.draggable && r.log == d.log + [Focused(d.draggable)])
      && (d.draggable < 0 ==> r.selected == -1 && r.log == d.log + [Blurred(-1)])
  {
  }

  /**
   * A drag move has no jitter guard: every move translates the target by
   * the clamped pointer's offset from the draft origin, clamps it into the
   * canvas, and puts the draft origin at the pointer.
   */
  lemma DrawerDragMove(d: Drawer, p: Point)
    requires DrawerInv(d) && d.mouseIsDown && d.resizable < 0 && d.draggable >= 0
    ensures var r := DrawerMouseMove(d, p);
      var k := d.draggable;
      var m := ClampPoint(p, d.canvasWidth, d.canvasHeight);
      && r.mouse == m
      && r.scene == d.scene[k := DragLayout(d.scene[k], m.x - d.draft.x, m.y - d.draft.y, d.canvasWidth, d.canvasHeight)]
      && r.draft.x == m.x && r.draft.y == m.y
      && r.log == d.log
  {
  }

  /** A resize move sets the target to the handle-driven resize of it towards the clamped pointer. */
  lemma DrawerResizeMove(d: Drawer, p: Point)
    requires DrawerInv(d) && d.mouseIsDown && d.resizable >= 0
    ensures var r := DrawerMouseMove(d, p);
      var k := d.resizable;
      var m := ClampPoint(p, d.canvasWidth, d.canvasHeight);
      && r.mouse == m
      && r.scene == d.scene[k := ResizeLayout(d.currentHandle, m, d.scene[k])]
      && r.draft == d.draft.(width := m.x - d.draft.x, height := m.y - d.draft.y)
  {
  }

  /**
   * mouse-up with no target: the normalised draft is appended and emitted,
   * and the draft reset to the empty element, exactly when it is larger than
   * the minimum in both extents; otherwise nothing changes but the button,
   * and the draft is kept as it is.
   */
  lemma DrawerMouseUpAdds(d: Drawer)
    requires d.draggable < 0 && d.resizable < 0
    ensures var r := DrawerMouseUp(d);
      var n := NormalizeLayout(d.draft);
      var large := n.width > LegacyMinElementSize && n.height > LegacyMinElementSize;
      && (large ==> r.scene == d.scene + [n] && r.log == d.log + [Added(n)] && r.draft == EmptyLayout(d.shape))
      && (!large ==> r.scene == d.scene && r.log == d.log && r.draft == d.draft)
      && n.width >= 0.0 && n.height >= 0.0
  {
    NegativeProps.NormalizedCoversSameBox(d.draft.Geometry());
  }

  /**
   * mouse-up on a target: a resize target is normalised and resize-end is
   * emitted; a drag target emits drag-end whether or not it moved; in both
   * cases nothing is added and the draft is kept.
   */
  lemma DrawerMouseUpEnds(d: Drawer)
    requires DrawerInv(d) && (d.draggable >= 0 || d.resizable >= 0)
    ensures var r := DrawerMouseUp(d);
      && r.draft == d.draft
      && (d.resizable >= 0 ==>
            r.log == d.log + [ResizeEnded] &&
            r.scene == d.scene[d.resizable := NormalizeLayout(d.scene[d.resizable])] &&
            r.scene[d.resizable].width >= 0.0 && r.scene[d.resizable].height >= 0.0)
      && (d.draggable >= 0 ==> r.log == d.log + [DragEnded] && r.scene == d.scene)
  {
    if d.resizable >= 0 {
      NegativeProps.NormalizedCoversSameBox(d.scene[d.resizable].Geometry());
    }
  }

  /**
   * While drawing (no target) the moves change no element and keep the
   * draft origin; after at least one move the draft's extents run from the
   * origin to the last clamped pointer.
   */
  lemma {:induction false} DrawingMoves(d: Drawer, ps: seq<Point>)
    requires d.mouseIsDown && d.draggable < 0 && d.resizable < 0 && ps != []
    ensures var r := DrawerMoves(d, ps);
      var m := ClampPoint(ps[|ps| - 1], d.canvasWidth, d.canvasHeight);
      && r.scene == d.scene
      && r.draft == d.draft.(width := m.x - d.draft.x, height := m.y - d.draft.y)
    decreases |ps|
  {
    var d1 := DrawerMouseMove(d, ps[0]);
    if |ps| > 1 {
      DrawingMoves(d1, ps[1..]);
      assert ps[1..][|ps[1..]| - 1] == ps[|ps| - 1];
    }
  }

  /**
   * A drawing gesture away from every element: the element from the press
   * point to the last clamped pointer, normalised, is added exactly when it
   * is larger than the minimum in both extents.
   */
  lemma DrawGesture(d: Drawer, p: Point, ps: seq<Point>)
    requires !d.mouseIsDown && d.draggable < 0 && d.resizable < 0 && ps != []
    ensures var r := DrawerMouseUp(DrawerMoves(DrawerMouseDown(d, p), ps));
      var m := ClampPoint(ps[|ps| - 1], d.canvasWidth, d.canvasHeight);
      var n := NormalizeLayout(d.draft.(x := p.x, y := p.y, width := m.x - p.x, height := m.y - p.y));
      && (n.width > LegacyMinElementSize && n.height > LegacyMinElementSize ==>
            r.scene == d.scene + [n] && r.log == d.log + [Blurred(-1), Added(n)])
      && (!(n.width > LegacyMinElementSize && n.height > LegacyMinElementSize) ==>
            r.scene == d.scene && r.log == d.log + [Blurred(-1)])
  {
    var d1 := DrawerMouseDown(d, p);
    DrawingMoves(d1, ps);
    DrawerMouseUpAdds(DrawerMoves(d1, ps));
  }

  /** A drag or a resize gesture ends with the draft's extents still those of its last move. */
  lemma GestureKeepsDraft(d: Drawer, q: Point)
    requires DrawerInv(d) && d.mouseIsDown && (d.draggable >= 0 || d.resizable >= 0)
    ensures var e := DrawerMouseUp(DrawerMouseMove(d, q));
      var m := ClampPoint(q, d.canvasWidth, d.canvasHeight);
      && e.draft.width == m.x - d.draft.x && e.draft.height == m.y - d.draft.y
      && !e.mouseIsDown
  {
    DrawerMouseUpEnds(DrawerMouseMove(d, q));
  }

  /**
   * A click away from every element, with no move, adds the draft as it
   * stands, moved to the click point, when its extents are large enough.
   */
  lemma ClickAwayAddsDraft(e: Drawer, c: Point)
    requires !e.mouseIsDown
    requires forall j :: 0 <= j < |e.scene| ==> !Matches(c, e.scene[j].Geometry())
    ensures var r := DrawerMouseUp(DrawerMouseDown(DrawerHover(e, c), c));
      var n := NormalizeLayout(e.draft.(x := c.x, y := c.y));
      && (n.width > LegacyMinElementSize && n.height > LegacyMinElementSize ==> r.scene == e.scene + [n])
      && (!(n.width > LegacyMinElementSize && n.height > LegacyMinElementSize) ==> r.scene == e.scene)
  {
    var h := DrawerHover(e, c);
    ScanIsFirstMatch(LayoutGeometries(e.scene), c, 0);
    assert Scan(LayoutGeometries(e.scene), c).Nowhere?;
    assert h.draggable < 0 && h.resizable < 0 && h.scene == e.scene && h.draft == e.draft;
    DrawerMouseUpAdds(DrawerMouseDown(h, c));
  }

  /**
   * Each pointer-move handler ignores the pointer while the button is in the
   * wrong state; during a gesture the pointer is clamped into the canvas
   * before the draft's extents are set to the clamped pointer minus the
   * draft's origin.
   */
  lemma DrawerButtonGuards(d: Drawer, p: Point)
    ensures d.mouseIsDown ==> DrawerHover(d, p) == d
    ensures !d.mouseIsDown ==> DrawerMouseMove(d, p) == d
    ensures d.mouseIsDown ==>
      var r := DrawerMouseMove(d, p);
      && r.mouse == ClampPoint(p, d.canvasWidth, d.canvasHeight)
      && r.draft.width == r.mouse.x - d.draft.x
      && r.draft.height == r.mouse.y - d.draft.y
      && (d.canvasWidth >= 0.0 && d.canvasHeight >= 0.0 ==>
            0.0 <= r.mouse.x <= d.canvasWidth && 0.0 <= r.mouse.y <= d.canvasHeight)
  {
  }

  /**
   * A whole drag gesture on a hovered element, from mouse-down through any
   * moves to mouse-up, emits exactly focus with the element's index and then
   * drag-end, however many moves there were, and adds nothing.
   */
  lemma DrawerDragGesture(d: Drawer, p: Point, ps: seq<Point>)
    requires DrawerInv(d) && !d.mouseIsDown && d.draggable >= 0
    ensures var r := DrawerMouseUp(DrawerMoves(DrawerMouseDown(d, p), ps));
      && r.log == d.log + [Focused(d.draggable), DragEnded]
      && |r.scene| == |d.scene|
      && r.selected == d.draggable
  {
    var m := DrawerMoves(DrawerMouseDown(d, p), ps);
    DrawerMouseUpEnds(m);
  }

  /**
   * A whole resize gesture on a hovered handle, from mouse-down through any
   * moves to mouse-up, emits exactly blur with -1 and then resize-end, and
   * leaves the target with non-negative extents.
   */
  lemma DrawerResizeGesture(d: Drawer, p: Point, ps: seq<Point>)
    requires DrawerInv(d) && !d.mouseIsDown && d.resizable >= 0
    ensures var r := DrawerMouseUp(DrawerMoves(DrawerMouseDown(d, p), ps));
      && r.log == d.log + [Blurred(-1), ResizeEnded]
      && |r.scene| == |d.scene|
      && r.scene[d.resizable].width >= 0.0 && r.scene[d.resizable].height >= 0.0
  {
    var m := DrawerMoves(DrawerMouseDown(d, p), ps);
    DrawerMouseUpEnds(m);
  }
}
