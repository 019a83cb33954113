/**
 * The drawing board component (src/lib/ngx-drawing-board.ts) as a class
 * whose fields are the component's state. Each listener updates the fields
 * and the element objects in place, as the source does, and is proved to
 * move the state exactly as the matching function of BoardSpec says.
 */
module NgxDrawingBoard {
  import opened Types
  import opened Objects
  import opened BoardSpec
  import FieldBorders
  import NegativeProps
  import Resize
  import DetectHandle
  import HitTest
  import opened HoverScan
  import Cursor

  /** The element an object currently describes. */
  function ValueOf(e: Elem<ElementInfo>): Element
    reads e
  {
    e.attrs.At(e.Geometry())
  }

  /** The elements the objects of a list currently describe, in list order. */
  function Values(es: seq<Elem<ElementInfo>>): (vs: seq<Element>)
    reads es
    ensures |vs| == |es|
    ensures forall i :: 0 <= i < |es| ==> vs[i] == ValueOf(es[i])
  {
    seq(|es|, i reads es requires 0 <= i < |es| => ValueOf(es[i]))
  }

  /** No object appears twice in the list. */
  predicate Distinct(es: seq<Elem<ElementInfo>>) {
    forall i, j :: 0 <= i < j < |es| ==> es[i] != es[j]
  }

  class DrawingBoard {
    var shape: Shape
    var initialElementColor: string
    var canvasWidth: real
    var canvasHeight: real

    var newElement: Elem<ElementInfo>
    var elements: seq<Elem<ElementInfo>>

    var mouseEnterElementIndex: int
    var draggableElementIndex: int
    var resizableElementIndex: int
    var selectedElementIndex: int
    var mouseCoords: MutablePoint
    var mouseIsDown: bool
    var dragStarted: bool
    var resizeStarted: bool
    var shadowOnHoveredElement: bool
    var currentHandle: Option<Handle>
    /** The cursor setCursorType chose last. */
    var cursor: Cursor.CursorStyle
    /** Every notification emitted so far, in order. */
    var log: seq<Notification>

    /** The elements the objects of `elements` describe, kept in step with them by Valid. */
    ghost var scene: seq<Element>

    /** The state of the component as a value. */
    ghost function State(): Board
      reads this, newElement, mouseCoords
    {
      Board(shape, initialElementColor, canvasWidth, canvasHeight,
        scene, ValueOf(newElement),
        mouseEnterElementIndex, draggableElementIndex, resizableElementIndex, selectedElementIndex,
        mouseCoords.Value(), mouseIsDown, dragStarted, resizeStarted,
        shadowOnHoveredElement, currentHandle, cursor, log)
    }

    /**
     * The element objects are distinct and the draft is not one of them, so
     * updating one object changes one entry of the list; and `scene` holds
     * what they describe.
     */
    ghost predicate Wired()
      reads this, elements
    {
      && Distinct(elements)
      && newElement !in elements
      && |scene| == |elements|
      && (forall i :: 0 <= i < |elements| ==> scene[i] == ValueOf(elements[i]))
    }

    /** The objects are wired up and the state keeps the listeners' invariant. */
    ghost predicate Valid()
      reads this, newElement, mouseCoords, elements
    {
      Wired() && Inv(State())
    }

    /**
     * The component after its inputs are set: the list holds the caller's
     * element objects (the copy of `data` is shallow), and the draft is the
     * empty element.
     */
    constructor (data: seq<Elem<ElementInfo>>, shape: Shape, initialElementColor: string, width: real, height: real)
      requires Distinct(data)
      ensures Valid()
      ensures elements == data && fresh(newElement) && fresh(mouseCoords)
      ensures State() == Initial(shape, initialElementColor, width, height, Values(data))
    {
      this.shape := shape;
      this.initialElementColor := initialElementColor;
      canvasWidth := width;
      canvasHeight := height;
      elements := data;
      scene := Values(data);
      newElement := new Elem(Rect(0.0, 0.0, 0.0, 0.0), ElementInfo(shape, initialElementColor, None, None, None));
      mouseEnterElementIndex := -1;
      draggableElementIndex := -1;
      resizableElementIndex := -1;
      selectedElementIndex := -1;
      mouseCoords := new MutablePoint(Point(0.0, 0.0));
      mouseIsDown := false;
      dragStarted := false;
      resizeStarted := false;
      shadowOnHoveredElement := false;
      currentHandle := None;
      cursor := Cursor.Initial;
      log := [];
    }

    /** getOutputParams. */
    function GetOutputParams(targetIndex: int): (ev: OutputEvent)
      reads this, elements
      ensures ev.index == targetIndex
      ensures ev.element.Some? <==> 0 <= targetIndex < |elements|
      ensures ev.element.Some? ==> ev.element.value == ValueOf(elements[targetIndex])
    {
      OutputEvent(targetIndex, if 0 <= targetIndex < |elements| then Some(ValueOf(elements[targetIndex])) else None)
    }

    /** mouseDownListener at canvas-local point p; `client` is the pointer in client coordinates. */
    method MouseDownListener(p: Point, client: Point)
      requires Valid()
      modifies this, newElement
      ensures Valid()
      ensures State() == MouseDown(old(State()), p, client)
      ensures elements == old(elements) && newElement == old(newElement) && mouseCoords == old(mouseCoords)
    {
      StartDraft(p);
      if draggableElementIndex >= 0 {
        BlurSelected();
        ClickAndFocusHovered(client);
      } else {
        BlurSelected();
        selectedElementIndex := -1;
      }
      MouseDownInSteps(old(State()), p, client);
    }

    /** The draft starts at p and the button is down. */
    method StartDraft(p: Point)
      requires Wired()
      modifies this, newElement
      ensures Wired() && State() == Press(old(State()), p)
      ensures elements == old(elements) && newElement == old(newElement) && mouseCoords == old(mouseCoords)
    {
      newElement.x := p.x;
      newElement.y := p.y;
      mouseIsDown := true;
    }

    /** Blur for the selected element, if any. */
    method BlurSelected()
      requires Wired()
      modifies this
      ensures Wired() && State() == Blur(old(State()))
      ensures elements == old(elements) && newElement == old(newElement) && mouseCoords == old(mouseCoords)
    {
      if selectedElementIndex >= 0 {
        log := log + [Emit(OnBlur, GetOutputParams(selectedElementIndex))];
      }
    }

    /** Click on the hovered element, and focus it when the selection changes. */
    method ClickAndFocusHovered(client: Point)
      requires Wired()
      modifies this
      ensures Wired() && State() == ClickAndFocus(old(State()), client)
      ensures elements == old(elements) && newElement == old(newElement) && mouseCoords == old(mouseCoords)
    {
      var params := GetOutputParams(draggableElementIndex);
      log := log + [EmitClick(OutputClickEvent(params.index, params.element, client))];
      if selectedElementIndex != draggableElementIndex {
        selectedElementIndex := draggableElementIndex;
        log := log + [Emit(OnFocus, GetOutputParams(selectedElementIndex))];
      }
    }

    /** mouseMoveListener at canvas-local point p. */
    method MouseMoveListener(p: Point)
      requires Valid()
      modifies this, newElement, elements
      ensures Valid()
      ensures State() == MouseMove(old(State()), p)
      ensures elements == old(elements) && newElement == old(newElement)
    {
      if !mouseIsDown {
        return;
      }
      TrackPointer(p);
      if resizableElementIndex >= 0 {
        ResizeTarget();
      } else if draggableElementIndex >= 0 {
        DragTarget();
      }
    }

    /** The pointer is clamped into the canvas and the draft's extents follow it. */
    method TrackPointer(p: Point)
      requires Wired()
      modifies this, newElement
      ensures Wired() && State() == Track(old(State()), p)
      ensures elements == old(elements) && newElement == old(newElement) && fresh(mouseCoords)
    {
      mouseCoords := new MutablePoint(p);
      FieldBorders.EnsureFieldBordersOnResize(mouseCoords, canvasWidth, canvasHeight);
      newElement.width := mouseCoords.x - newElement.x;
      newElement.height := mouseCoords.y - newElement.y;
    }

    /** Resize-start or resizing is emitted, then the resize target follows the pointer. */
    method ResizeTarget()
      requires Wired() && 0 <= resizableElementIndex < |elements|
      modifies this, elements
      ensures Wired() && State() == ResizeStep(old(State()))
      ensures elements == old(elements) && newElement == old(newElement) && mouseCoords == old(mouseCoords)
    {
      EmitResizeProgress();
      ResizeTheTarget();
      ResizeStepInSteps(old(State()));
    }

    /** Resize-start on the first move of a resize, resizing after it. */
    method EmitResizeProgress()
      requires Wired()
      modifies this
      ensures Wired() && State() == ResizeProgress(old(State()))
      ensures elements == old(elements) && newElement == old(newElement) && mouseCoords == old(mouseCoords)
    {
      if !resizeStarted {
        log := log + [Emit(OnResizeStart, GetOutputParams(resizableElementIndex))];
        resizeStarted := true;
      } else {
        log := log + [Emit(OnResizing, GetOutputParams(resizableElementIndex))];
      }
    }

    /** updateElementOnResize on the resize target, which it returns and which is stored back. */
    method ResizeTheTarget()
      requires Wired() && 0 <= resizableElementIndex < |elements|
      modifies this, elements
      ensures Wired() && State() == ResizeMoved(old(State()))
      ensures elements == old(elements) && newElement == old(newElement) && mouseCoords == old(mouseCoords)
    {
      var k := resizableElementIndex;
      var targetEl := elements[k];
      var resized := Resize.UpdateElementOnResize(currentHandle, mouseCoords.Value(), targetEl);
      elements := elements[k := resized];
      scene := scene[k := ResizeElement(currentHandle, mouseCoords.Value(), scene[k])];
    }

    /**
     * Unless the draft's extents are a jitter: drag-start or dragging is
     * emitted, the drag target moves by them and is kept in the canvas, and
     * the draft restarts at the pointer.
     */
    method DragTarget()
      requires Wired() && 0 <= draggableElementIndex < |elements|
      modifies this, newElement, elements
      ensures Wired() && State() == DragStep(old(State()))
      ensures elements == old(elements) && newElement == old(newElement) && mouseCoords == old(mouseCoords)
    {
      if Jitter(newElement.width, newElement.height) {
        return;
      }
      EmitDragProgress();
      DragTheTarget();
      DragStepInSteps(old(State()));
    }

    /** Drag-start on the first move of a drag, dragging after it. */
    method EmitDragProgress()
      requires Wired()
      modifies this
      ensures Wired() && State() == DragProgress(old(State()))
      ensures elements == old(elements) && newElement == old(newElement) && mouseCoords == old(mouseCoords)
    {
      if !dragStarted {
        log := log + [Emit(OnDragStart, GetOutputParams(draggableElementIndex))];
        dragStarted := true;
      } else {
        log := log + [Emit(OnDragging, GetOutputParams(draggableElementIndex))];
      }
    }

    /** The drag target moves by the draft's extents and is kept in the canvas; the draft restarts at the pointer. */
    method DragTheTarget()
      requires Wired() && 0 <= draggableElementIndex < |elements|
      modifies this, newElement, elements
      ensures Wired() && State() == DragMoved(old(State()))
      ensures elements == old(elements) && newElement == old(newElement) && mouseCoords == old(mouseCoords)
    {
      var k := draggableElementIndex;
      var width, height := newElement.width, newElement.height;
      var targetEl := elements[k];
      targetEl.x := targetEl.x + width;
      targetEl.y := targetEl.y + height;
      FieldBorders.EnsureFieldBordersOnDrag(targetEl, canvasWidth, canvasHeight);
      scene := scene[k := DragElement(scene[k], width, height, canvasWidth, canvasHeight)];
      newElement.x := mouseCoords.x;
      newElement.y := mouseCoords.y;
    }

    /** mouseUpListener. */
    method MouseUpListener()
      requires Valid()
      modifies this, elements
      ensures Valid()
      ensures State() == MouseUp(old(State()))
      ensures fresh(newElement) && mouseCoords == old(mouseCoords)
      ensures elements == old(elements) ||
        (|elements| == |old(elements)| + 1 && elements[..|old(elements)|] == old(elements) && fresh(elements[|old(elements)|]))
    {
      ReleaseButton();
      EndResizeTarget();
      EndDragGesture();
      AddDrawnElement();
      ResetNewElement();
      MouseUpInSteps(old(State()));
    }

    /** The button is released. */
    method ReleaseButton()
      requires Wired()
      modifies this
      ensures Wired() && State() == Release(old(State()))
      ensures elements == old(elements) && newElement == old(newElement) && mouseCoords == old(mouseCoords)
    {
      mouseIsDown := false;
    }

    /** The draft is replaced by a fresh empty element. */
    method ResetNewElement()
      requires Wired()
      modifies this
      ensures Wired() && State() == ResetDraft(old(State()))
      ensures elements == old(elements) && fresh(newElement) && mouseCoords == old(mouseCoords)
    {
      newElement := new Elem(Rect(0.0, 0.0, 0.0, 0.0), ElementInfo(shape, initialElementColor, None, None, None));
    }

    /** With a resize target: it is normalised in place and resize-end is emitted. */
    method EndResizeTarget()
      requires Wired() && resizableElementIndex < |elements|
      modifies this, elements
      ensures Wired() && State() == EndResize(old(State()))
      ensures elements == old(elements) && newElement == old(newElement) && mouseCoords == old(mouseCoords)
    {
      if resizableElementIndex >= 0 {
        NormalizeTarget();
        EmitResizeEnd();
        EndResizeInSteps(old(State()));
      }
    }

    /** convertElementNegativeProps on the resize target, which it returns and which is stored back. */
    method NormalizeTarget()
      requires Wired() && 0 <= resizableElementIndex < |elements|
      modifies this, elements
      ensures Wired() && State() == NormalizeResized(old(State()))
      ensures elements == old(elements) && newElement == old(newElement) && mouseCoords == old(mouseCoords)
    {
      var k := resizableElementIndex;
      var targetEl := elements[k];
      var converted := NegativeProps.ConvertElementNegativeProps(targetEl);
      elements := elements[k := converted];
      scene := scene[k := Normalize(scene[k])];
    }

    /** Resize-end is emitted and the resize is over. */
    method EmitResizeEnd()
      requires Wired()
      modifies this
      ensures Wired() && State() == ResizeEnded(old(State()))
      ensures elements == old(elements) && newElement == old(newElement) && mouseCoords == old(mouseCoords)
    {
      log := log + [Emit(OnResizeEnd, GetOutputParams(resizableElementIndex))];
      resizeStarted := false;
    }

    /** A started drag emits drag-end. */
    method EndDragGesture()
      requires Wired()
      modifies this
      ensures Wired() && State() == EndDrag(old(State()))
      ensures elements == old(elements) && newElement == old(newElement) && mouseCoords == old(mouseCoords)
    {
      if draggableElementIndex >= 0 && dragStarted {
        log := log + [Emit(OnDragEnd, GetOutputParams(draggableElementIndex))];
        dragStarted := false;
      }
    }

    /** With no target, the drawn element is added. */
    method AddDrawnElement()
      requires Wired()
      modifies this
      ensures Wired() && State() == AddDraft(old(State()))
      ensures newElement == old(newElement) && mouseCoords == old(mouseCoords)
      ensures elements == old(elements) ||
        (|elements| == |old(elements)| + 1 && elements[..|old(elements)|] == old(elements) && fresh(elements[|old(elements)|]))
    {
      if draggableElementIndex < 0 && resizableElementIndex < 0 {
        AppendDrawnElement();
        AddDraftInSteps(old(State()));
      }
    }

    /** A normalised copy of the draft is appended when it is large enough, and add is emitted. */
    method AppendDrawnElement()
      requires Wired()
      modifies this
      ensures Wired() && State() == AppendDraft(old(State()))
      ensures newElement == old(newElement) && mouseCoords == old(mouseCoords)
      ensures elements == old(elements) ||
        (|elements| == |old(elements)| + 1 && elements[..|old(elements)|] == old(elements) && fresh(elements[|old(elements)|]))
    {
      var copy := new Elem(newElement.Geometry(), newElement.attrs);
      var newElem := NegativeProps.ConvertElementNegativeProps(copy);
      if newElem.width > MinElementSize && newElem.height > MinElementSize {
        PushElement(newElem);
      }
    }

    /** The object is appended to the list and add is emitted for it. */
    method PushElement(e: Elem<ElementInfo>)
      requires Wired() && e !in elements && e != newElement
      modifies this
      ensures Wired() && State() == Push(old(State()), ValueOf(e))
      ensures elements == old(elements) + [e] && newElement == old(newElement) && mouseCoords == old(mouseCoords)
    {
      AppendObject(e);
      EmitAdd();
    }

    /** The object is appended to the list. */
    method AppendObject(e: Elem<ElementInfo>)
      requires Wired() && e !in elements && e != newElement
      modifies this
      ensures Wired() && State() == old(State()).(scene := old(State()).scene + [ValueOf(e)])
      ensures elements == old(elements) + [e] && newElement == old(newElement) && mouseCoords == old(mouseCoords)
    {
      elements := elements + [e];
      scene := scene + [ValueOf(e)];
    }

    /** Add is emitted for the last element of the list. */
    method EmitAdd()
      requires Wired()
      modifies this
      ensures Wired() && State() == AddEmitted(old(State()))
      ensures elements == old(elements) && newElement == old(newElement) && mouseCoords == old(mouseCoords)
    {
      log := log + [Emit(OnAdd, GetOutputParams(|elements| - 1))];
    }

    /**
     * handleMouseMovement at canvas-local point p: the scan over the
     * elements, then enter and leave, the shadow and the cursor.
     */
    method HandleMouseMovement(p: Point)
      requires Valid()
      modifies this
      ensures Valid()
      ensures State() == Hover(old(State()), p)
      ensures elements == old(elements) && newElement == old(newElement) && mouseCoords == old(mouseCoords)
    {
      if mouseIsDown {
        return;
      }
      var draggable, resizable, handle, overBody := ScanElements(p);
      RecordScan(draggable, resizable, handle, overBody);
      EmitEnter();
      EmitLeave();
      ClearShadowAndSetCursor();
      EnterLeaveInSteps(Scanned(old(State()), p));
    }

    /** The targets and the handle a scan found are recorded; a hovered body switches the shadow on. */
    method RecordScan(draggable: int, resizable: int, handle: Option<Handle>, overBody: bool)
      requires Wired()
      modifies this
      ensures Wired()
      ensures State() == old(State()).(draggable := draggable, resizable := resizable, currentHandle := handle,
                                       shadow := old(shadowOnHoveredElement) || overBody)
      ensures elements == old(elements) && newElement == old(newElement) && mouseCoords == old(mouseCoords)
    {
      RecordTargets(draggable, resizable, handle);
      if overBody {
        ShadowOn();
      }
    }

    /** The drag and resize targets and the handle are recorded. */
    method RecordTargets(draggable: int, resizable: int, handle: Option<Handle>)
      requires Wired()
      modifies this
      ensures Wired()
      ensures State() == old(State()).(draggable := draggable, resizable := resizable, currentHandle := handle)
      ensures elements == old(elements) && newElement == old(newElement) && mouseCoords == old(mouseCoords)
    {
      draggableElementIndex, resizableElementIndex, currentHandle := draggable, resizable, handle;
    }

    /** The hovered element gets the shadow. */
    method ShadowOn()
      requires Wired()
      modifies this
      ensures Wired() && State() == old(State()).(shadow := true)
      ensures elements == old(elements) && newElement == old(newElement) && mouseCoords == old(mouseCoords)
    {
      shadowOnHoveredElement := true;
    }

    /**
     * The scan of handleMouseMovement: the elements are visited in list
     * order until one has a handle or its body under the pointer. It gives
     * the drag and resize targets, the handle seen last (the current one
     * when there is no element) and whether a body was hit, which the
     * listener then writes into its fields.
     */
    method ScanElements(p: Point) returns (draggable: int, resizable: int, handle: Option<Handle>, overBody: bool)
      requires Wired()
      ensures Scanned(State(), p) ==
        State().(draggable := draggable, resizable := resizable, currentHandle := handle,
                 shadow := shadowOnHoveredElement || overBody)
    {
      draggable, resizable, handle, overBody := -1, -1, currentHandle, false;
      ghost var rs := Geometries(scene);
      var i := 0;
      while i < |elements|
        invariant 0 <= i <= |elements| == |rs|
        invariant ScanFrom(rs, p, 0) == ScanFrom(rs, p, i)
        invariant draggable == -1 && resizable == -1 && !overBody
        invariant i == 0 ==> handle == currentHandle
        invariant i > 0 ==> handle.None?
      {
        var elem := elements[i];
        var mouseIsOverElement := HitTest.IsOver(p.x, p.y, ValueOf(elem));
        handle := DetectHandle.DetectCurrentHandle(p, elem.Geometry());
        if handle.Some? {
          resizable := i;
          draggable := -1;
          break;
        }
        if mouseIsOverElement {
          draggable := i;
          overBody := true;
          break;
        }
        i := i + 1;
      }
    }

    /** Enter is emitted when an element becomes hovered while none was. */
    method EmitEnter()
      requires Wired()
      modifies this
      ensures Wired() && State() == Enter(old(State()))
      ensures elements == old(elements) && newElement == old(newElement) && mouseCoords == old(mouseCoords)
    {
      if mouseEnterElementIndex < 0 && draggableElementIndex >= 0 {
        mouseEnterElementIndex := draggableElementIndex;
        log := log + [Emit(OnMouseEnter, GetOutputParams(mouseEnterElementIndex))];
      }
    }

    /** Leave is emitted when the hovered element is left. */
    method EmitLeave()
      requires Wired()
      modifies this
      ensures Wired() && State() == Leave(old(State()))
      ensures elements == old(elements) && newElement == old(newElement) && mouseCoords == old(mouseCoords)
    {
      if mouseEnterElementIndex >= 0 && draggableElementIndex < 0 {
        log := log + [Emit(OnMouseLeave, GetOutputParams(mouseEnterElementIndex))];
        mouseEnterElementIndex := -1;
      }
    }

    /** The shadow goes off away from an element body, and setCursorType chooses the cursor. */
    method ClearShadowAndSetCursor()
      requires Wired()
      modifies this
      ensures Wired() && State() == ShadowAndCursor(old(State()))
      ensures elements == old(elements) && newElement == old(newElement) && mouseCoords == old(mouseCoords)
    {
      if draggableElementIndex < 0 && shadowOnHoveredElement {
        shadowOnHoveredElement := false;
      }
      cursor := Cursor.CursorFor(draggableElementIndex, currentHandle);
    }
  }
}
