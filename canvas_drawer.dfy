/**
 * The older drawer component (projects/ngx-canvas-drawer/src/lib/ngx-canvas-drawer.ts)
 * as a class whose fields are the component's state. Each listener updates
 * the fields and the element objects in place, as the source does, and is
 * proved to move the state exactly as the matching function of
 * CanvasDrawerSpec says.
 */
module NgxCanvasDrawer {
  import opened Types
  import opened LegacyTypes
  import opened Objects
  import opened CanvasDrawerSpec
  import LegacyFieldBorders
  import NegativeProps
  import Resize
  import DetectHandle
  import HitTest
  import opened HoverScan
  import Cursor

  /** The layout element an object currently describes. */
  function LayoutOf(e: Elem<LayoutInfo>): LayoutElement
    reads e
  {
    e.attrs.At(e.Geometry())
  }

  /** The layout elements the objects of a list currently describe, in list order. */
  function LayoutValues(es: seq<Elem<LayoutInfo>>): (vs: seq<LayoutElement>)
    reads es
    ensures |vs| == |es|
    ensures forall i :: 0 <= i < |es| ==> vs[i] == LayoutOf(es[i])
  {
    seq(|es|, i reads es requires 0 <= i < |es| => LayoutOf(es[i]))
  }

  /** No object appears twice in the list. */
  predicate DistinctLayouts(es: seq<Elem<LayoutInfo>>) {
    forall i, j :: 0 <= i < j < |es| ==> es[i] != es[j]
  }

  class CanvasDrawer {
    var shape: LegacyShape
    /** The values of canvasWidth$ and canvasHeight$. */
    var canvasWidth: real
    var canvasHeight: real

    var newElement: Elem<LayoutInfo>
    var elements: seq<Elem<LayoutInfo>>

    var mouseEnterElementIndex: int
    var dragableElementIndex: int
    var resizableElementIndex: int
    var selectedElementIndex: int
    /** Reassigned to the point the clamp returns, never updated in place. */
    var mouseCoords: Point
    var mouseIsDown: bool
    var shadowOnHoveredElement: bool
    var currentHandle: Option<Handle>
    /** The cursor setCursorType chose last. */
    var cursor: Cursor.CursorStyle
    /** Every notification emitted so far, in order. */
    var log: seq<DrawerNote>

    /** The layout elements the objects of `elements` describe, kept in step with them by Wired. */
    ghost var scene: seq<LayoutElement>

    /** The state of the component as a value. */
    ghost function State(): Drawer
      reads this, newElement
    {
      Drawer(shape, canvasWidth, canvasHeight, scene, LayoutOf(newElement),
        mouseEnterElementIndex, dragableElementIndex, resizableElementIndex, selectedElementIndex,
        mouseCoords, mouseIsDown, shadowOnHoveredElement, currentHandle, cursor, log)
    }

    /**
     * The element objects are distinct and the draft is not one of them, so
     * updating one object changes one entry of the list; and `scene` holds
     * what they describe.
     */
    ghost predicate Wired()
      reads this, elements
    {
      && DistinctLayouts(elements)
      && newElement !in elements
      && |scene| == |elements|
      && (forall i :: 0 <= i < |elements| ==> scene[i] == LayoutOf(elements[i]))
    }

    /** The objects are wired up and the state keeps the listeners' invariant. */
    ghost predicate Valid()
      reads this, newElement, elements
    {
      Wired() && DrawerInv(State())
    }

    /**
     * The component after ngOnInit and ngAfterViewInit: the canvas has the
     * input size, the list holds the caller's element objects and the draft
     * is the empty element.
     */
    constructor (data: seq<Elem<LayoutInfo>>, shape: LegacyShape, width: real, height: real)
      requires DistinctLayouts(data)
      ensures Valid()
      ensures elements == data && fresh(newElement)
      ensures State() == InitialDrawer(shape, width, height, LayoutValues(data))
    {
      this.shape := shape;
      canvasWidth := width;
      canvasHeight := height;
      elements := data;
      scene := LayoutValues(data);
      newElement := new Elem(Rect(0.0, 0.0, 0.0, 0.0), LayoutInfo(shape, "#ffffff"));
      mouseEnterElementIndex := -1;
      dragableElementIndex := -1;
      resizableElementIndex := -1;
      selectedElementIndex := -1;
      mouseCoords := Point(0.0, 0.0);
      mouseIsDown := false;
      shadowOnHoveredElement := false;
      currentHandle := None;
      cursor := Cursor.Initial;
      log := [];
    }

    /** mouseDownListener at canvas-local point p. */
    method MouseDownListener(p: Point)
      requires Valid()
      modifies this, newElement
      ensures Valid()
      ensures State() == DrawerMouseDown(old(State()), p)
      ensures elements == old(elements) && newElement == old(newElement)
    {
      StartDraft(p);
      if dragableElementIndex >= 0 {
        selectedElementIndex := dragableElementIndex;
        log := log + [Focused(selectedElementIndex)];
      } else {
        selectedElementIndex := -1;
        log := log + [Blurred(selectedElementIndex)];
      }
    }

    /** The draft starts at p and the button is down. */
    method StartDraft(p: Point)
      requires Wired()
      modifies this, newElement
      ensures Wired() && State() == DrawerPress(old(State()), p)
      ensures elements == old(elements) && newElement == old(newElement)
    {
      newElement.x := p.x;
      newElement.y := p.y;
      mouseIsDown := true;
    }

    /** mouseMoveListener at canvas-local point p. */
    method MouseMoveListener(p: Point)
      requires Valid()
      modifies this, newElement, elements
      ensures Valid()
      ensures State() == DrawerMouseMove(old(State()), p)
      ensures elements == old(elements) && newElement == old(newElement)
    {
      if !mouseIsDown {
        return;
      }
      TrackPointer(p);
      if resizableElementIndex >= 0 {
        ResizeTheTarget();
      } else if dragableElementIndex >= 0 {
        DragTheTarget();
      }
    }

    /** The pointer is clamped into the canvas and the draft's extents follow it. */
    method TrackPointer(p: Point)
      requires Wired()
      modifies this, newElement
      ensures Wired() && State() == DrawerTrack(old(State()), p)
      ensures elements == old(elements) && newElement == old(newElement)
    {
      mouseCoords := LegacyFieldBorders.EnsureFieldBordersOnResize(p.x, p.y, canvasWidth, canvasHeight);
      newElement.width := mouseCoords.x - newElement.x;
      newElement.height := mouseCoords.y - newElement.y;
    }

    /** updateElementOnResize on the resize target, which it returns and which is stored back. */
    method ResizeTheTarget()
      requires Wired() && 0 <= resizableElementIndex < |elements|
      modifies this, elements
      ensures Wired() && State() == ResizeTarget(old(State()))
      ensures elements == old(elements) && newElement == old(newElement)
    {
      var k := resizableElementIndex;
      var targetEl := elements[k];
      var resizedEl := Resize.UpdateElementOnResize(currentHandle, mouseCoords, targetEl);
      elements := elements[k := resizedEl];
      scene := scene[k := ResizeLayout(currentHandle, mouseCoords, scene[k])];
    }

    /**
     * The drag target moves by the draft's extents, whatever their size, and
     * is kept in the canvas; the draft restarts at the pointer.
     */
    method DragTheTarget()
      requires Wired() && 0 <= dragableElementIndex < |elements|
      modifies this, newElement, elements
      ensures Wired() && State() == DragTarget(old(State()))
      ensures elements == old(elements) && newElement == old(newElement)
    {
      var k := dragableElementIndex;
      var width, height := newElement.width, newElement.height;
      var targetEl := elements[k];
      targetEl.x := targetEl.x + width;
      targetEl.y := targetEl.y + height;
      targetEl := LegacyFieldBorders.EnsureFieldBordersOnDrag(targetEl, canvasWidth, canvasHeight);
      scene := scene[k := DragLayout(scene[k], width, height, canvasWidth, canvasHeight)];
      newElement.x := mouseCoords.x;
      newElement.y := mouseCoords.y;
    }

    /** mouseUpListener. */
    method MouseUpListener()
      requires Valid()
      modifies this, elements
      ensures Valid()
      ensures State() == DrawerMouseUp(old(State()))
      ensures elements == old(elements) ||
        (|elements| == |old(elements)| + 1 && elements[..|old(elements)|] == old(elements) && fresh(elements[|old(elements)|]))
    {
      mouseIsDown := false;
      EndResizeTarget();
      EndDragGesture();
      AddDrawnElement();
    }

    /** With a resize target: it is normalised in place and resize-end is emitted. */
    method EndResizeTarget()
      requires Wired() && resizableElementIndex < |elements|
      modifies this, elements
      ensures Wired() && State() == EndResizing(old(State()))
      ensures elements == old(elements) && newElement == old(newElement)
    {
      if resizableElementIndex >= 0 {
        var k := resizableElementIndex;
        var targeEl := elements[k];
        var converted := NegativeProps.ConvertElementNegativeProps(targeEl);
        elements := elements[k := converted];
        scene := scene[k := NormalizeLayout(scene[k])];
        log := log + [ResizeEnded];
      }
    }

    /** Any drag target emits drag-end. */
    method EndDragGesture()
      requires Wired()
      modifies this
      ensures Wired() && State() == EndDragging(old(State()))
      ensures elements == old(elements) && newElement == old(newElement)
    {
      if dragableElementIndex >= 0 {
        log := log + [DragEnded];
      }
    }

    /** With no target, the drawn element is added when it is large enough. */
    method AddDrawnElement()
      requires Wired()
      modifies this
      ensures Wired() && State() == AddDrawn(old(State()))
      ensures elements == old(elements) ||
        (|elements| == |old(elements)| + 1 && elements[..|old(elements)|] == old(elements) && fresh(elements[|old(elements)|]))
    {
      if dragableElementIndex < 0 && resizableElementIndex < 0 {
        AppendDrawnElement();
      }
    }

    /**
     * A normalised copy of the draft is appended when it is large enough;
     * add is emitted for it and the draft is replaced by a fresh empty
     * element. A smaller draft is kept as it is.
     */
    method AppendDrawnElement()
      requires Wired()
      modifies this
      ensures Wired() && State() == AppendDrawn(old(State()))
      ensures elements == old(elements) ||
        (|elements| == |old(elements)| + 1 && elements[..|old(elements)|] == old(elements) && fresh(elements[|old(elements)|]))
    {
      var copy := new Elem(newElement.Geometry(), newElement.attrs);
      var newElem := NegativeProps.ConvertElementNegativeProps(copy);
      if newElem.width > LegacyMinElementSize && newElem.height > LegacyMinElementSize {
        PushElement(newElem);
        ResetNewElement();
      }
    }

    /** The object is appended to the list and add is emitted for it. */
    method PushElement(e: Elem<LayoutInfo>)
      requires Wired() && e !in elements && e != newElement
      modifies this
      ensures Wired()
      ensures State() == old(State()).(scene := old(State()).scene + [LayoutOf(e)], log := old(State()).log + [Added(LayoutOf(e))])
      ensures elements == old(elements) + [e] && newElement == old(newElement)
    {
      elements := elements + [e];
      scene := scene + [LayoutOf(e)];
      log := log + [Added(LayoutOf(e))];
    }

    /** The draft is replaced by a fresh empty element (emptyElement). */
    method ResetNewElement()
      requires Wired()
      modifies this
      ensures Wired() && State() == old(State()).(draft := EmptyLayout(shape))
      ensures elements == old(elements) && fresh(newElement)
    {
      newElement := new Elem(Rect(0.0, 0.0, 0.0, 0.0), LayoutInfo(shape, "#ffffff"));
    }

    /**
     * handleMouseMovement at canvas-local point p: the scan over the
     * elements, then enter and leave, the shadow and the cursor.
     */
    method HandleMouseMovement(p: Point)
      requires Valid()
      modifies this
      ensures Valid()
      ensures State() == DrawerHover(old(State()), p)
      ensures elements == old(elements) && newElement == old(newElement)
    {
      if mouseIsDown {
        return;
      }
      var dragable, resizable, handle, overBody := ScanElements(p);
      RecordScan(dragable, resizable, handle, overBody);
      EmitEnter();
      EmitLeave();
      ClearShadowAndSetCursor();
    }

    /** The targets and the handle a scan found are recorded; a hovered body switches the shadow on. */
    method RecordScan(dragable: int, resizable: int, handle: Option<Handle>, overBody: bool)
      requires Wired()
      modifies this
      ensures Wired()
      ensures State() == old(State()).(draggable := dragable, resizable := resizable, currentHandle := handle,
                                       shadow := old(shadowOnHoveredElement) || overBody)
      ensures elements == old(elements) && newElement == old(newElement)
    {
      dragableElementIndex, resizableElementIndex, currentHandle := dragable, resizable, handle;
      if overBody {
        shadowOnHoveredElement := true;
      }
    }

    /** Enter is emitted with the index when an element becomes hovered while none was. */
    method EmitEnter()
      requires Wired()
      modifies this
      ensures Wired() && State() == DrawerEnter(old(State()))
      ensures elements == old(elements) && newElement == old(newElement)
    {
      if mouseEnterElementIndex < 0 && dragableElementIndex >= 0 {
        mouseEnterElementIndex := dragableElementIndex;
        log := log + [Entered(mouseEnterElementIndex)];
      }
    }

    /** Leave is emitted with the index when the hovered element is left. */
    method EmitLeave()
      requires Wired()
      modifies this
      ensures Wired() && State() == DrawerLeave(old(State()))
      ensures elements == old(elements) && newElement == old(newElement)
    {
      if mouseEnterElementIndex >= 0 && dragableElementIndex < 0 {
        log := log + [Exited(mouseEnterElementIndex)];
        mouseEnterElementIndex := -1;
      }
    }

    /** The shadow goes off away from an element body, and setCursorType chooses the cursor. */
    method ClearShadowAndSetCursor()
      requires Wired()
      modifies this
      ensures Wired() && State() == DrawerShadowAndCursor(old(State()))
      ensures elements == old(elements) && newElement == old(newElement)
    {
      if dragableElementIndex < 0 && shadowOnHoveredElement {
        shadowOnHoveredElement := false;
      }
      cursor := Cursor.CursorFor(dragableElementIndex, currentHandle);
    }

    /**
     * The scan of handleMouseMovement: the elements are visited in list
     * order until one has a handle or its body under the pointer. It gives
     * the drag and resize targets, the handle seen last (the current one
     * when there is no element) and whether a body was hit, which the
     * listener then writes into its fields.
     */
    method ScanElements(p: Point) returns (dragable: int, resizable: int, handle: Option<Handle>, overBody: bool)
      requires Wired()
      ensures DrawerScanned(State(), p) ==
        State().(draggable := dragable, resizable := resizable, currentHandle := handle,
                 shadow := shadowOnHoveredElement || overBody)
    {
      dragable, resizable, handle, overBody := -1, -1, currentHandle, false;
      ghost var rs := LayoutGeometries(scene);
      var i := 0;
      while i < |elements|
        invariant 0 <= i <= |elements| == |rs|
        invariant ScanFrom(rs, p, 0) == ScanFrom(rs, p, i)
        invariant dragable == -1 && resizable == -1 && !overBody
        invariant i == 0 ==> handle == currentHandle
        invariant i > 0 ==> handle.None?
      {
        var elem := elements[i];
        var mouseIsOverElement := HitTest.IsOverLayout(p.x, p.y, LayoutOf(elem));
        handle := DetectHandle.DetectCurrentHandle(p, elem.Geometry());
        if handle.Some? {
          resizable := i;
          dragable := -1;
          break;
        }
        if mouseIsOverElement {
          dragable := i;
          overBody := true;
          break;
        }
        i := i + 1;
      }
    }
  }
}
