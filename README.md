# ngx-drawing-board in Dafny

This project models the interaction core of ngx-drawing-board, an Angular
component in which the user draws, drags and resizes boxes on a canvas. The
model covers:

- the current component `NgxDrawingBoard` (src/lib/ngx-drawing-board.ts);
- the older component `NgxCanvasDrawer`
  (projects/ngx-canvas-drawer/src/lib/ngx-canvas-drawer.ts);
- the data types of both packages;
- the geometry and utility functions the components call: handle positions,
  handle detection, the hit test, the border clamps, negative-extent
  normalisation, the resize transform, grid snapping, the cursor choice,
  configuration validation and the shape predicates.

Each component is a class whose fields are the component's fields
(`drawing_board.dfy`, `canvas_drawer.dfy`). Its listeners (mouse-down, the
gesture mouse-move, mouse-up and the hover scan) update those fields, the
element list and the element objects in place, as the source does. Every
listener is proved to move the whole state exactly as a function on a value of
that state says: `BoardSpec` for the current component (`board_spec.dfy`) and
`CanvasDrawerSpec` for the older one (`legacy_spec.dfy`). The promises of
each component are lemmas about those functions:

- at most one target after a scan, and the first match wins;
- enter and leave fire only on changes;
- the pointer is clamped before the draft's extents are computed;
- the drag jitter guard;
- start, move and end notifications counted over whole gestures;
- added elements;
- the draft reset.

Emitted outputs are appended to a `log` field. Each entry carries its payload
as a value.

The two components differ in ways the lemmas make precise:

- the older one has minimum size 10 rather than 5;
- it emits indices rather than output events;
- it blurs with -1;
- it has no jitter guard and no start or progress notifications;
- it emits drag-end on every mouse-up with a drag target;
- it resets the draft only when an element is added.

Because of the last point, after a drag or a resize the older component's
draft keeps the extents of the last move. `CanvasDrawerSpec.GestureKeepsDraft`
and `CanvasDrawerSpec.ClickAwayAddsDraft` show that a later click away from
every element, with no move, then adds the kept draft, moved to the click
point and normalised, whenever both of its extents exceed 10
(projects/ngx-canvas-drawer/src/lib/ngx-canvas-drawer.ts:165); otherwise
nothing is added. The
current component resets the draft on every mouse-up, and
`BoardSpec.ClickWithoutMoveAddsNothing` shows that a click there adds nothing.

Coordinates are `real` numbers. Handle detection compares the squared
distance with 25 rather than the distance with 5. JavaScript's truncating `%`
is written out for grid snapping. A JavaScript value that is not a usable
number is an explicit `NaN` case of the validator's input.

## Model

| member | source | states |
|---|---|---|
| Types.ElementInfo.At | src/lib/types.ts:1-11 | an IElement is its geometry plus the fields no operation writes; placing those fields at a geometry gives back exactly that geometry and those fields |
| Types.HandleIndex | src/lib/types.ts:45-55 | every handle has a position in the EMouseHandle declaration order, and the order holds it there |
| Types.HandleOrderEnumerates | src/lib/types.ts:45-55 | the declaration order lists all nine handles, each once, with `center` among them |
| LegacyTypes.LayoutInfo.At | projects/ngx-canvas-drawboard/src/lib/types.ts:1-8 | an ILayoutElement is geometry, shape and colour only; placing shape and colour at a geometry gives back exactly those |
| LegacyTypes.ToHandle | projects/ngx-canvas-drawboard/src/lib/types.ts:27-36 | each handle of the older enumeration is a compass handle, never `center` |
| LegacyTypes.LegacyHandlesAreCompassHandles | projects/ngx-canvas-drawboard/src/lib/types.ts:27-36 | the older enumeration is the current one without its last member `center`, in the same order, and it has exactly eight members |
| HandlePositions.HandlePosition | src/lib/utils/getHandlePosition.ts:3-32 | a handle has a position exactly when it is not `center` |
| HandlePositions.EdgeHandlesAreMidpoints | src/lib/utils/getHandlePosition.ts:18-29 | each edge handle sits at the midpoint of the two corner handles of its edge |
| HandlePositions.HandlesOnBorder | src/lib/utils/getHandlePosition.ts:6-29 | for non-negative extents every compass handle lies in the closed box and on at least one line of its border: each corner on its vertical and its horizontal line, each edge handle on its own edge's line, strictly between that edge's corners when the edge has positive length |
| HandlePositions.HandlePositionTranslates | src/lib/utils/getHandlePosition.ts:6-29 | translating the element by (dx, dy) translates every handle position by (dx, dy) |
| DetectHandle.DistSq | src/lib/utils/detectCurrentHandle.ts:5-7 | the squared distance is non-negative and zero for equal points |
| DetectHandle.DistSqSymmetric | src/lib/utils/detectCurrentHandle.ts:5-7 | the distance is symmetric |
| DetectHandle.DetectIn | src/lib/utils/detectCurrentHandle.ts:9-19 | a found handle is in the list and near the pointer; no result means no handle of the list is near |
| DetectHandle.DetectInFirst | src/lib/utils/detectCurrentHandle.ts:10-18 | in a list without repetitions the search returns the i-th handle exactly when it is near and no earlier one is |
| DetectHandle.DetectCurrentHandleFirstMatch | src/lib/utils/detectCurrentHandle.ts:9-19 | detectCurrentHandle returns h exactly when the pointer is within 5 of h and of no handle declared before h |
| DetectHandle.DetectNeverCenter | src/lib/utils/detectCurrentHandle.ts:11-12 | the result is never `center`, and it is `false` exactly when no handle is near |
| DetectHandle.DetectBoundaryInclusive | src/lib/utils/detectCurrentHandle.ts:14 | a pointer at distance exactly 5 matches and one slightly further does not |
| DetectHandle.FractionsDistinguish | src/lib/utils/getHandlePosition.ts:6-29 | two different compass handles differ in the fraction of the width or of the height at which they sit |
| DetectHandle.PositionByFractions | src/lib/utils/getHandlePosition.ts:6-29 | each compass handle sits at the origin plus its fractions of the extents |
| DetectHandle.FractionsApart | src/lib/utils/detectCurrentHandle.ts:13-14 | two different fractions of an extent over 10 are more than 5 apart |
| DetectHandle.FractionPointsApart | src/lib/utils/detectCurrentHandle.ts:13-14 | two handle points at different fractions of a box whose extents exceed 10 are more than 5 apart |
| DetectHandle.HandlesApart | src/lib/utils/detectCurrentHandle.ts:13-14 | for extents over 10 in absolute value, the position of one handle is not near any other handle |
| DetectHandle.DetectAtHandlePosition | src/lib/utils/detectCurrentHandle.ts:10-16 | at the exact position of h the result is h or a handle declared before it |
| DetectHandle.DetectAtHandlePositionExact | src/lib/utils/detectCurrentHandle.ts:10-16 | for extents over 10 in absolute value, the result at the position of h is h itself |
| HitTest.BorderIsOutside | src/lib/utils/detectIfMouseIsOverElement.ts:4-7 | points on the border of an element are not over it |
| HitTest.IsOverExamples | src/lib/utils/detectIfMouseIsOverElement.ts:5-6 | for the box (10,10,20,20): (10,15) is outside, (15,15) inside, (30,15) outside |
| HitTest.EmptyBoxContainsNothing | src/lib/utils/detectIfMouseIsOverElement.ts:5-6 | a zero or negative extent contains no point |
| HitTest.IsOverTranslates | src/lib/utils/detectIfMouseIsOverElement.ts:4-7 | translating the point and the element together does not change the answer |
| HitTest.IsOverGeometryOnly | src/lib/utils/detectIfMouseIsOverElement.ts:3-11 | the answer depends on the geometry only |
| HitTest.LayoutBorderIsOutside | projects/ngx-canvas-drawboard/src/lib/utils/detectIfMouseIsOverElement.ts:5-6 | border points are never over a layout element |
| HitTest.LayoutEmptyBoxContainsNothing | projects/ngx-canvas-drawboard/src/lib/utils/detectIfMouseIsOverElement.ts:5-6 | a layout element with a non-positive extent contains no point |
| HitTest.LayoutAgreesWithElement | projects/ngx-canvas-drawboard/src/lib/utils/detectIfMouseIsOverElement.ts:3-11 | the older copy agrees with the current one on every input with the same geometry |
| FieldBorders.ClampCoord | src/lib/utils/ensureFieldBorders.ts:4-10 | a clamped coordinate is not negative, and not above a non-negative bound |
| FieldBorders.EnsureFieldBordersOnResize | src/lib/utils/ensureFieldBorders.ts:3-11 | the point object is clamped in place into the field |
| FieldBorders.EnsureFieldBordersOnDrag | src/lib/utils/ensureFieldBorders.ts:13-21 | the element object is moved in place by the drag clamp |
| FieldBorders.ClampPointInField | src/lib/utils/ensureFieldBorders.ts:3-11 | with non-negative field sizes the clamped point lies in [0, width] x [0, height] |
| FieldBorders.ClampPointKeepsInside | src/lib/utils/ensureFieldBorders.ts:4-10 | a point in the field is left alone, and clamping twice is clamping once |
| FieldBorders.DragClampedInField | src/lib/utils/ensureFieldBorders.ts:13-21 | after the drag clamp the origin is not negative, the extents are unchanged, and an element no larger than the field ends inside it |
| FieldBorders.DragClampedKeepsInside | src/lib/utils/ensureFieldBorders.ts:13-21 | an element inside the field does not move |
| FieldBorders.DragClampedExamples | src/lib/utils/ensureFieldBorders.ts:14-18 | field 400 x 300: x = 390 with width 20 becomes 380; an element wider than the field ends at x = 0 |
| LegacyFieldBorders.EnsureFieldBordersOnResize | projects/ngx-canvas-drawer/src/lib/utils/ensureFieldBorders.ts:3-13 | the returned point lies in the field for non-negative sizes, in-range coordinates are kept, and it equals the current package's clamp |
| LegacyFieldBorders.EnsureFieldBordersOnDrag | projects/ngx-canvas-drawer/src/lib/utils/ensureFieldBorders.ts:15-29 | the same object is returned, moved in place by the same drag clamp as the current package |
| NegativeProps.ConvertElementNegativeProps | src/lib/utils/convertElementNegativeProps.ts:3-15 | the same object is returned, its geometry normalised in place; its other fields are untouched |
| NegativeProps.NormalizedCoversSameBox | src/lib/utils/convertElementNegativeProps.ts:4-12 | afterwards both extents are non-negative and min/max of x, x + width and of y, y + height are unchanged |
| NegativeProps.NormalizedIdempotent | src/lib/utils/convertElementNegativeProps.ts:4-9 | non-negative extents are left unchanged, so normalising twice is normalising once |
| NegativeProps.NormalizedHitTest | src/lib/utils/convertElementNegativeProps.ts:4-12 | the normalised element contains exactly the points strictly inside the covered box; with a negative extent the element before normalisation contains none |
| Resize.UpdateElementOnResize | projects/ngx-canvas-drawer/src/lib/utils/updateElementOnResize.ts:4-43 | the same object is returned, updated in place case by case to the handle-driven resize of its old geometry |
| Resize.ResizedEdges | projects/ngx-canvas-drawer/src/lib/utils/updateElementOnResize.ts:5-41 | every edge the handle names moves to the pointer and every other edge stays put |
| Resize.ResizedBottomRight | projects/ngx-canvas-drawer/src/lib/utils/updateElementOnResize.ts:22-25 | bottomRight sets the extents to the pointer minus the origin and keeps the origin |
| Resize.ResizedTopLeft | projects/ngx-canvas-drawer/src/lib/utils/updateElementOnResize.ts:6-11 | topLeft moves the origin to the pointer and keeps the right and bottom edges |
| Resize.ResizedOtherCorners | projects/ngx-canvas-drawer/src/lib/utils/updateElementOnResize.ts:12-21 | topRight and bottomLeft each move one origin coordinate and keep the opposite corner |
| Resize.ResizedEdgeHandles | projects/ngx-canvas-drawer/src/lib/utils/updateElementOnResize.ts:26-39 | top and left change one axis and keep the far edge; bottom and right change one extent only |
| Resize.ResizedWithoutHandle | projects/ngx-canvas-drawer/src/lib/utils/updateElementOnResize.ts:40-41 | no handle, or `center`, leaves the element unchanged |
| Resize.ResizedAtOwnPosition | projects/ngx-canvas-drawer/src/lib/utils/updateElementOnResize.ts:5-39 | dropping a handle where it already sits changes nothing |
| Resize.ResizedPastOppositeCorner | projects/ngx-canvas-drawer/src/lib/utils/updateElementOnResize.ts:22-25 | dragging bottomRight past the origin gives negative extents, which normalisation turns into a box from the pointer to the old origin |
| GridStep.EnsureGridStep | src/lib/utils/ensureGridStep.ts:3-24 | the element's geometry is snapped in place; its other fields are untouched |
| GridStep.RemOfNonNegative | src/lib/utils/ensureGridStep.ts:4-7 | JavaScript's remainder of a non-negative number lies in [0, step) and is the floored remainder |
| GridStep.RemOfNegative | src/lib/utils/ensureGridStep.ts:4-7 | the remainder of a negative number lies in (-step, 0] |
| GridStep.RemOfMultiple | src/lib/utils/ensureGridStep.ts:4-7 | a multiple of the step has remainder 0 |
| GridStep.SnapPositionNearest | src/lib/utils/ensureGridStep.ts:9-15 | a non-negative coordinate snaps to the nearest multiple of the step, halves up, moving by at most half a step |
| GridStep.SnapSizeFloor | src/lib/utils/ensureGridStep.ts:17-23 | a non-negative extent snaps down to the largest multiple of the step not above it |
| GridStep.SnapLeavesNegative | src/lib/utils/ensureGridStep.ts:9-23 | negative coordinates and extents are left unchanged |
| GridStep.SnapLeavesMultiples | src/lib/utils/ensureGridStep.ts:9-23 | values already on the grid are left unchanged |
| GridStep.SnapPositionIdempotent | src/lib/utils/ensureGridStep.ts:9-15 | snapping a non-negative coordinate twice is snapping it once |
| GridStep.SnapSizeIdempotent | src/lib/utils/ensureGridStep.ts:17-23 | snapping a non-negative extent twice is snapping it once |
| GridStep.GridSnappedIdempotent | src/lib/utils/ensureGridStep.ts:3-24 | for non-negative geometry and a positive step a second snap changes nothing |
| GridStep.GridSnappedExamples | src/lib/utils/ensureGridStep.ts:9-23 | step 10: x 14 goes to 10, x 16 to 20, width 17 to 10 |
| Cursor.CssInjective | src/lib/utils/setCursorType.ts:3-40 | distinct cursors have distinct CSS keywords |
| Cursor.DetectResizeCursor | src/lib/utils/setCursorType.ts:3-27 | the vertical arrow exactly for top/bottom, the horizontal one for left/right, nwse for topLeft/bottomRight, nesw for the other diagonal, initial for none or `center`; never grab |
| Cursor.CursorFor | src/lib/utils/setCursorType.ts:29-37 | a present handle decides the cursor; otherwise grab exactly when an element is hovered and initial exactly when none is |
| Cursor.OppositeHandlesShareCursor | src/lib/utils/setCursorType.ts:8-25 | opposite handles share their cursor, and `center` and no handle give initial |
| Validator.ValidateSize | src/lib/utils/validator.ts:5-14 | passes exactly when both are numbers (negative included); a bad width is reported before a bad height |
| Validator.ValidateGrid | src/lib/utils/validator.ts:16-32 | passes exactly for a number stroke >= 0 and a number cell > 0; a stroke fault is reported before a cell fault |
| Validator.ValidateGridExamples | src/lib/utils/validator.ts:17-31 | stroke 0 passes, stroke -1 and cell 0 fail with their messages, a non-number stroke hides a bad cell, and negative sizes pass |
| DetectShape.ShapeMatches | src/lib/utils/detectShape.ts:3-9 | exactly one of the four predicates holds |
| DetectShape.ExactlyOneShape | src/lib/utils/detectShape.ts:3-9 | each predicate holds exactly for its shape, and exactly one holds |
| DetectShape.ShapeOnly | src/lib/utils/detectShape.ts:3-9 | the predicates read the shape only |
| DetectShape.LegacyExactlyOneShape | projects/ngx-canvas-drawer/src/lib/utils/detectShape.ts:3-5 | the two older predicates exclude each other, one always holds, and the circle test matches 'elips' |
| GridConfigMerge.Pick | src/lib/ngx-drawing-board.ts:482 | a field written with a value gives that value, a field written as `undefined` gives `undefined`, and a field left out gives the default |
| GridConfigMerge.MergeGridConfig | src/lib/ngx-drawing-board.ts:475-482 | each field of the merged configuration is what the caller wrote, `undefined` included, and the default only where the caller left the field out |
| GridConfigMerge.MergeProperties | src/lib/ngx-drawing-board.ts:474-492 | the default input and the empty input give the defaults, a complete input is kept, no grid is drawn exactly when `enabled` is written as `false` or as `undefined`, and a cell size, stroke width or colour is undefined after the merge exactly when it was written as `undefined` |
| GridConfigMerge.MergeIdempotent | src/lib/ngx-drawing-board.ts:482 | merging a merged configuration again changes nothing |
| GridConfigMerge.DefaultsAreValid | src/lib/ngx-drawing-board.ts:475-480 | the default grid passes validate.grid |
| HoverScan.ScanFrom | src/lib/ngx-drawing-board.ts:510-528 | the scan names the first matching element, tells a handle match from a body match, and finds nothing exactly when no element matches |
| HoverScan.ScanIsFirstMatch | src/lib/ngx-drawing-board.ts:510-528 | the scan stops at k exactly when k matches and no earlier element does |
| HoverScan.HandleBeforeBody | src/lib/ngx-drawing-board.ts:515-526 | at the element where the scan stops, a handle match wins over the body |
| HoverScan.ScanIgnoresLater | src/lib/ngx-drawing-board.ts:510-528 | elements after the first match play no part |
| BoardSpec.CountAppend | src/lib/ngx-drawing-board.ts:91-102 | counts of notifications per output add up over concatenated logs |
| BoardSpec.CountOne | src/lib/ngx-drawing-board.ts:91-102 | a notification counts once on its own output and not on others |
| BoardSpec.OutputParams | src/lib/ngx-drawing-board.ts:579-584 | getOutputParams gives the index, and the element there exactly when the index is in range |
| BoardSpec.EmptyElement | src/lib/ngx-drawing-board.ts:147-156 | emptyElement is an empty box at the origin with the current shape and initial colour |
| BoardSpec.Initial | src/lib/ngx-drawing-board.ts:189-200 | the set-up state satisfies the invariant, holds the caller's elements and has emitted nothing |
| BoardSpec.MouseDown | src/lib/ngx-drawing-board.ts:302-340 | mouse-down keeps the invariant, starts the draft at the pointer, keeps elements, targets and gesture flags, and only appends to the log |
| BoardSpec.MouseDownInSteps | src/lib/ngx-drawing-board.ts:302-340 | mouse-down is press, blur, then click-and-focus on a hovered element or clearing the selection elsewhere |
| BoardSpec.MouseMove | src/lib/ngx-drawing-board.ts:347-422 | a move keeps the invariant, the list length, the button, the targets and the selection, and only appends to the log |
| BoardSpec.ResizeStepInSteps | src/lib/ngx-drawing-board.ts:363-380 | the resize branch emits first, then resizes the target |
| BoardSpec.DragStepInSteps | src/lib/ngx-drawing-board.ts:381-414 | past the jitter test the drag branch emits first, then moves the target and restarts the draft |
| BoardSpec.Moves | src/lib/ngx-drawing-board.ts:347-422 | any run of moves keeps the invariant, the list length, the button, the targets and the selection, and only appends |
| BoardSpec.MouseUp | src/lib/ngx-drawing-board.ts:258-296 | mouse-up keeps the invariant, releases the button, clears both gesture flags, resets the draft to emptyElement and only appends |
| BoardSpec.MouseUpInSteps | src/lib/ngx-drawing-board.ts:258-296 | mouse-up is release, end resize, end drag, add the draft, reset the draft, in that order |
| BoardSpec.EndResizeInSteps | src/lib/ngx-drawing-board.ts:265-272 | ending a resize normalises the target, then emits resize-end |
| BoardSpec.AddDraftInSteps | src/lib/ngx-drawing-board.ts:285-293 | with no target, adding the draft is appending it when large enough |
| BoardSpec.EndResize | src/lib/ngx-drawing-board.ts:265-272 | ending a resize leaves both targets in place for the later steps (its effect is stated by BoardSpec.MouseUpEndsGesture) |
| BoardSpec.EndDrag | src/lib/ngx-drawing-board.ts:275-282 | ending a drag leaves both targets in place for the later steps |
| BoardSpec.AddDraft | src/lib/ngx-drawing-board.ts:285-293 | adding the draft leaves both targets in place (what it adds is stated by BoardSpec.MouseUpAddsDrawnElement) |
| BoardSpec.Hover | src/lib/ngx-drawing-board.ts:500-549 | the hover scan keeps the invariant, the list, the selection and the button |
| BoardSpec.EnterLeaveInSteps | src/lib/ngx-drawing-board.ts:530-548 | the tail of the scan is enter, leave, then shadow and cursor |
| BoardSpec.ButtonStateGuards | src/lib/ngx-drawing-board.ts:348-350 | the hover scan does nothing while the button is down, the gesture move nothing while it is up |
| BoardSpec.HoverFindsFirstMatch | src/lib/ngx-drawing-board.ts:505-528 | after a scan at most one target is set; k is a target exactly when it is the first element whose handle or body is under the pointer, and the resize target exactly when a handle is |
| BoardSpec.HoverShadowAndCursor | src/lib/ngx-drawing-board.ts:524-548 | after a scan the shadow is on exactly over a body, on a non-empty board a handle is recorded exactly when there is a resize target, and the cursor is setCursorType's choice |
| BoardSpec.HoverEnterLeave | src/lib/ngx-drawing-board.ts:530-542 | enter goes out only on the change from no hovered element to one, leave only on the change back, and moving between elements emits neither |
| BoardSpec.MouseMoveClampsFirst | src/lib/ngx-drawing-board.ts:355-360 | during a gesture the pointer is clamped into the canvas, then the draft's extents are the clamped pointer minus the draft origin |
| BoardSpec.DragMove | src/lib/ngx-drawing-board.ts:381-414 | the pointer becomes the clamped pointer; a jitter delta then moves no element, emits nothing, and keeps the draft origin with the delta as its extents; any other delta emits drag-start or dragging, moves and clamps the target, and puts the draft origin at the pointer |
| BoardSpec.ResizeMove | src/lib/ngx-drawing-board.ts:355-380 | a resize move emits resize-start on the first move and resizing after, sets the target to its resize towards the clamped pointer, moving exactly the edges the handle names to the pointer and keeping the others, leaves every other element alone, and the draft's extents follow the pointer |
| BoardSpec.AppendedSplit | src/lib/ngx-drawing-board.ts:91-102 | what a run of states appends splits at any state in between |
| BoardSpec.DragCountedCompose | src/lib/ngx-drawing-board.ts:394-402 | two counted stretches of a drag compose |
| BoardSpec.DragMoveCounts | src/lib/ngx-drawing-board.ts:381-414 | one drag move emits at most one notification, drag-start only when the drag had not started |
| BoardSpec.DragMovesStartOnce | src/lib/ngx-drawing-board.ts:394-402 | over any run of drag moves drag-start goes out at most once, only if the drag had not started, and all else is dragging |
| BoardSpec.ResizeCountedCompose | src/lib/ngx-drawing-board.ts:365-372 | two counted stretches of a resize compose |
| BoardSpec.ResizeMoveCounts | src/lib/ngx-drawing-board.ts:363-380 | one resize move emits exactly one notification, resize-start when not yet started, resizing otherwise |
| BoardSpec.ResizeMovesStartOnce | src/lib/ngx-drawing-board.ts:365-372 | over n resize moves, n notifications go out: resize-start once on the first move of an unstarted gesture, resizing otherwise |
| BoardSpec.MouseDownChannels | src/lib/ngx-drawing-board.ts:302-340 | mouse-down emits only blur, click and focus |
| BoardSpec.NoneOnChannel | src/lib/ngx-drawing-board.ts:91-102 | a log with nothing on an output counts zero there |
| BoardSpec.MouseDownOnElement | src/lib/ngx-drawing-board.ts:310-330 | on a hovered element: blur once for any selection (also the same one), exactly one click, focus only when the selection changes, and the element becomes the selection |
| BoardSpec.MouseDownOnElementLog | src/lib/ngx-drawing-board.ts:310-330 | on a hovered element mouse-down appends blur (if selected), click, focus (on change), in this order |
| BoardSpec.MouseDownElsewhere | src/lib/ngx-drawing-board.ts:331-339 | away from elements: blur only when something was selected, nothing else, and the selection is cleared |
| BoardSpec.MouseDownBlursFirst | src/lib/ngx-drawing-board.ts:310-316 | with a selection, the blur goes out before anything else mouse-down emits |
| BoardSpec.CountSmall | src/lib/ngx-drawing-board.ts:91-102 | a log of at most one notification counts it on its own output |
| BoardSpec.MouseUpAddsDrawnElement | src/lib/ngx-drawing-board.ts:285-293 | with no target the normalised draft is appended, and add emitted with the new last index, exactly when both extents exceed 5 |
| BoardSpec.MouseUpEndsGesture | src/lib/ngx-drawing-board.ts:262-282 | resize-end goes out exactly when there is a resize target, which ends normalised; drag-end exactly when the drag had started |
| BoardSpec.DragAfterDown | src/lib/ngx-drawing-board.ts:275-282 | from mouse-down on an element, moves and mouse-up emit drag-end as often as drag-start, at most once |
| BoardSpec.DragEndsAfterMoves | src/lib/ngx-drawing-board.ts:275-282 | the mouse-up after drag moves adds drag-end exactly when the drag started, and no drag-start |
| BoardSpec.DragGestureBalanced | src/lib/ngx-drawing-board.ts:258-422 | a whole drag gesture emits drag-end exactly as often as drag-start, and at most once |
| BoardSpec.CountBound | src/lib/ngx-drawing-board.ts:91-102 | three distinct outputs together count at most the log length |
| BoardSpec.MouseUpChannels | src/lib/ngx-drawing-board.ts:258-296 | mouse-up emits no drag-start, resize-start or resizing |
| BoardSpec.ResizeAfterDown | src/lib/ngx-drawing-board.ts:265-272 | from mouse-down on a handle, moves and mouse-up emit resize-end once, resize-start once if it moved, resizing on further moves |
| BoardSpec.ResizeEndsAfterMoves | src/lib/ngx-drawing-board.ts:265-272 | the mouse-up after resize moves adds exactly one resize-end and nothing on the other resize outputs |
| BoardSpec.ResizeGestureOnce | src/lib/ngx-drawing-board.ts:258-422 | a whole resize gesture emits resize-end once, resize-start once if the pointer moved, and resizing on each further move |
| BoardSpec.ClickWithoutMoveAddsNothing | src/lib/ngx-drawing-board.ts:294 | since every mouse-up resets the draft, a click with no move adds no element |
| NgxDrawingBoard.Values | src/lib/ngx-drawing-board.ts:118 | the list of values has one entry per element object, describing it |
| NgxDrawingBoard.DrawingBoard.constructor | src/lib/ngx-drawing-board.ts:189-200 | for a list of distinct element objects (see "Left out"), the component holds those objects, a fresh empty draft, and the initial state |
| NgxDrawingBoard.DrawingBoard.GetOutputParams | src/lib/ngx-drawing-board.ts:579-584 | the index, and the element object's value there exactly when in range |
| NgxDrawingBoard.DrawingBoard.MouseDownListener | src/lib/ngx-drawing-board.ts:302-340 | the fields and objects move as BoardSpec.MouseDown says, keeping Valid |
| NgxDrawingBoard.DrawingBoard.StartDraft | src/lib/ngx-drawing-board.ts:306-309 | the draft object starts at the pointer and the button is down |
| NgxDrawingBoard.DrawingBoard.BlurSelected | src/lib/ngx-drawing-board.ts:312-316 | blur for any selection |
| NgxDrawingBoard.DrawingBoard.ClickAndFocusHovered | src/lib/ngx-drawing-board.ts:318-330 | click, and focus on a change of selection |
| NgxDrawingBoard.DrawingBoard.MouseMoveListener | src/lib/ngx-drawing-board.ts:347-422 | the fields and objects move as BoardSpec.MouseMove says, keeping Valid |
| NgxDrawingBoard.DrawingBoard.TrackPointer | src/lib/ngx-drawing-board.ts:355-360 | a new clamped pointer object, and the draft's extents follow it |
| NgxDrawingBoard.DrawingBoard.ResizeTarget | src/lib/ngx-drawing-board.ts:363-380 | the resize branch of the move |
| NgxDrawingBoard.DrawingBoard.EmitResizeProgress | src/lib/ngx-drawing-board.ts:365-372 | resize-start the first time, resizing after |
| NgxDrawingBoard.DrawingBoard.ResizeTheTarget | src/lib/ngx-drawing-board.ts:374-376 | the target object is resized in place and stored back |
| NgxDrawingBoard.DrawingBoard.DragTarget | src/lib/ngx-drawing-board.ts:381-414 | the drag branch of the move, with the jitter guard |
| NgxDrawingBoard.DrawingBoard.EmitDragProgress | src/lib/ngx-drawing-board.ts:394-402 | drag-start the first time, dragging after |
| NgxDrawingBoard.DrawingBoard.DragTheTarget | src/lib/ngx-drawing-board.ts:404-414 | the target object moves by the delta and is clamped; the draft restarts at the pointer |
| NgxDrawingBoard.DrawingBoard.MouseUpListener | src/lib/ngx-drawing-board.ts:258-296 | the fields and objects move as BoardSpec.MouseUp says, keeping Valid; the list is unchanged or gains one fresh object at its end |
| NgxDrawingBoard.DrawingBoard.ReleaseButton | src/lib/ngx-drawing-board.ts:262 | the button is up |
| NgxDrawingBoard.DrawingBoard.ResetNewElement | src/lib/ngx-drawing-board.ts:294 | the draft is a fresh empty element |
| NgxDrawingBoard.DrawingBoard.EndResizeTarget | src/lib/ngx-drawing-board.ts:265-272 | the resize target is normalised and resize-end emitted |
| NgxDrawingBoard.DrawingBoard.NormalizeTarget | src/lib/ngx-drawing-board.ts:266-267 | the resize target object is normalised in place and stored back |
| NgxDrawingBoard.DrawingBoard.EmitResizeEnd | src/lib/ngx-drawing-board.ts:268-271 | resize-end, and the resize is over |
| NgxDrawingBoard.DrawingBoard.EndDragGesture | src/lib/ngx-drawing-board.ts:275-282 | drag-end for a started drag, and the drag is over |
| NgxDrawingBoard.DrawingBoard.AddDrawnElement | src/lib/ngx-drawing-board.ts:285-293 | with no target, the drawn element is added when large enough |
| NgxDrawingBoard.DrawingBoard.AppendDrawnElement | src/lib/ngx-drawing-board.ts:286-292 | a normalised copy of the draft is pushed when both extents exceed 5 |
| NgxDrawingBoard.DrawingBoard.PushElement | src/lib/ngx-drawing-board.ts:288-291 | the object is appended and add emitted for the new last index |
| NgxDrawingBoard.DrawingBoard.AppendObject | src/lib/ngx-drawing-board.ts:288 | the object is appended to the list |
| NgxDrawingBoard.DrawingBoard.EmitAdd | src/lib/ngx-drawing-board.ts:289-291 | add for the last index |
| NgxDrawingBoard.DrawingBoard.HandleMouseMovement | src/lib/ngx-drawing-board.ts:500-549 | the fields move as BoardSpec.Hover says, keeping Valid |
| NgxDrawingBoard.DrawingBoard.ScanElements | src/lib/ngx-drawing-board.ts:505-528 | the loop over the element objects finds what HoverScan.Scan finds on their values |
| NgxDrawingBoard.DrawingBoard.RecordScan | src/lib/ngx-drawing-board.ts:505-524 | the targets and handle are recorded and a hovered body turns the shadow on |
| NgxDrawingBoard.DrawingBoard.RecordTargets | src/lib/ngx-drawing-board.ts:505-518 | the targets and handle are recorded |
| NgxDrawingBoard.DrawingBoard.ShadowOn | src/lib/ngx-drawing-board.ts:524 | the shadow is on |
| NgxDrawingBoard.DrawingBoard.EmitEnter | src/lib/ngx-drawing-board.ts:530-535 | enter when an element becomes hovered while none was |
| NgxDrawingBoard.DrawingBoard.EmitLeave | src/lib/ngx-drawing-board.ts:537-542 | leave when the hovered element is left |
| NgxDrawingBoard.DrawingBoard.ClearShadowAndSetCursor | src/lib/ngx-drawing-board.ts:544-548 | shadow off away from a body, and setCursorType's cursor |
| CanvasDrawerSpec.EmptyLayout | projects/ngx-canvas-drawer/src/lib/ngx-canvas-drawer.ts:95-104 | emptyElement is an empty white box at the origin with the current shape |
| CanvasDrawerSpec.LayoutGeometries | projects/ngx-canvas-drawer/src/lib/ngx-canvas-drawer.ts:286-306 | the boxes the scan tests, one per element in list order |
| CanvasDrawerSpec.InitialDrawer | projects/ngx-canvas-drawer/src/lib/ngx-canvas-drawer.ts:122-123 | after set-up the invariant holds, the caller's elements are held and nothing is emitted |
| CanvasDrawerSpec.DrawerMouseDown | projects/ngx-canvas-drawer/src/lib/ngx-canvas-drawer.ts:175-190 | mouse-down keeps the invariant |
| CanvasDrawerSpec.DrawerMouseMove | projects/ngx-canvas-drawer/src/lib/ngx-canvas-drawer.ts:192-235 | a move keeps the invariant, the list length, the button, the targets and the selection, and emits nothing |
| CanvasDrawerSpec.DrawerMoves | projects/ngx-canvas-drawer/src/lib/ngx-canvas-drawer.ts:192-235 | any run of moves keeps all of that too |
| CanvasDrawerSpec.DrawerMouseUp | projects/ngx-canvas-drawer/src/lib/ngx-canvas-drawer.ts:143-173 | mouse-up keeps the invariant and releases the button |
| CanvasDrawerSpec.DrawerHover | projects/ngx-canvas-drawer/src/lib/ngx-canvas-drawer.ts:277-324 | the hover scan keeps the invariant |
| CanvasDrawerSpec.DrawerScanned | projects/ngx-canvas-drawer/src/lib/ngx-canvas-drawer.ts:281-306 | the scan's targets are -1 or in range |
| CanvasDrawerSpec.DrawerHoverFindsFirstMatch | projects/ngx-canvas-drawer/src/lib/ngx-canvas-drawer.ts:282-306 | at most one target; k is a target exactly when it is the first element matched by handle or body, the resize target exactly when by a handle |
| CanvasDrawerSpec.DrawerHoverEnterLeave | projects/ngx-canvas-drawer/src/lib/ngx-canvas-drawer.ts:308-323 | enter with the index only on the change to hovered, leave with the earlier index only on the change back, shadow exactly over a body, setCursorType's cursor, and the list, draft and selection untouched |
| CanvasDrawerSpec.DrawerMouseDownSelects | projects/ngx-canvas-drawer/src/lib/ngx-canvas-drawer.ts:175-190 | the draft origin moves to the pointer with its extents kept; on a hovered element it is selected and focus goes out with its index, elsewhere the selection is -1 and blur goes out with -1 |
| CanvasDrawerSpec.DrawerDragMove | projects/ngx-canvas-drawer/src/lib/ngx-canvas-drawer.ts:217-228 | with no jitter guard, every drag move translates the target by the clamped pointer minus the draft origin, clamps it, and moves the draft origin to the pointer; nothing is emitted |
| CanvasDrawerSpec.DrawerResizeMove | projects/ngx-canvas-drawer/src/lib/ngx-canvas-drawer.ts:207-215 | a resize move sets the target to its handle-driven resize towards the clamped pointer |
| CanvasDrawerSpec.DrawerMouseUpAdds | projects/ngx-canvas-drawer/src/lib/ngx-canvas-drawer.ts:163-171 | with no target the normalised draft is added, emitted and the draft reset exactly when both extents exceed 10; otherwise the draft is kept |
| CanvasDrawerSpec.DrawerMouseUpEnds | projects/ngx-canvas-drawer/src/lib/ngx-canvas-drawer.ts:151-160 | a resize target is normalised then resize-end goes out; a drag target emits drag-end whether or not it moved; the draft is kept |
| CanvasDrawerSpec.DrawingMoves | projects/ngx-canvas-drawer/src/lib/ngx-canvas-drawer.ts:196-205 | while drawing, moves leave the list alone and the draft runs from its origin to the last clamped pointer |
| CanvasDrawerSpec.DrawGesture | projects/ngx-canvas-drawer/src/lib/ngx-canvas-drawer.ts:143-235 | a drawing gesture adds the normalised box from the press point to the last clamped pointer exactly when it exceeds 10 in both extents, after blur with -1 |
| CanvasDrawerSpec.GestureKeepsDraft | projects/ngx-canvas-drawer/src/lib/ngx-canvas-drawer.ts:163-171 | after a drag or resize gesture the draft keeps the extents of its last move |
| CanvasDrawerSpec.ClickAwayAddsDraft | projects/ngx-canvas-drawer/src/lib/ngx-canvas-drawer.ts:143-190 | a click away from every element with no move adds the kept draft at the click point when it is large enough |
| CanvasDrawerSpec.DrawerButtonGuards | projects/ngx-canvas-drawer/src/lib/ngx-canvas-drawer.ts:196-205 | the hover scan ignores the pointer while the button is down and the gesture move while it is up; the pointer is clamped before the extents are set |
| CanvasDrawerSpec.DrawerDragGesture | projects/ngx-canvas-drawer/src/lib/ngx-canvas-drawer.ts:143-235 | a whole drag gesture emits exactly focus with the index and then drag-end, and adds nothing |
| CanvasDrawerSpec.DrawerResizeGesture | projects/ngx-canvas-drawer/src/lib/ngx-canvas-drawer.ts:143-235 | a whole resize gesture emits exactly blur with -1 and then resize-end, leaving the target with non-negative extents |
| NgxCanvasDrawer.LayoutValues | projects/ngx-canvas-drawer/src/lib/ngx-canvas-drawer.ts:51 | the list of values has one entry per layout element object, describing it |
| NgxCanvasDrawer.CanvasDrawer.constructor | projects/ngx-canvas-drawer/src/lib/ngx-canvas-drawer.ts:118-134 | for a list of distinct element objects (see "Left out"), the component holds those objects, a fresh empty draft, and the initial state |
| NgxCanvasDrawer.CanvasDrawer.MouseDownListener | projects/ngx-canvas-drawer/src/lib/ngx-canvas-drawer.ts:175-190 | the fields and objects move as CanvasDrawerSpec.DrawerMouseDown says, keeping Valid |
| NgxCanvasDrawer.CanvasDrawer.StartDraft | projects/ngx-canvas-drawer/src/lib/ngx-canvas-drawer.ts:179-181 | the draft object starts at the pointer and the button is down |
| NgxCanvasDrawer.CanvasDrawer.MouseMoveListener | projects/ngx-canvas-drawer/src/lib/ngx-canvas-drawer.ts:192-235 | the fields and objects move as CanvasDrawerSpec.DrawerMouseMove says, keeping Valid |
| NgxCanvasDrawer.CanvasDrawer.TrackPointer | projects/ngx-canvas-drawer/src/lib/ngx-canvas-drawer.ts:196-205 | the pointer becomes the clamped point and the draft's extents follow it |
| NgxCanvasDrawer.CanvasDrawer.ResizeTheTarget | projects/ngx-canvas-drawer/src/lib/ngx-canvas-drawer.ts:207-215 | the target object is resized in place and stored back |
| NgxCanvasDrawer.CanvasDrawer.DragTheTarget | projects/ngx-canvas-drawer/src/lib/ngx-canvas-drawer.ts:217-228 | the target object moves by the draft's extents and is clamped; the draft restarts at the pointer |
| NgxCanvasDrawer.CanvasDrawer.MouseUpListener | projects/ngx-canvas-drawer/src/lib/ngx-canvas-drawer.ts:143-173 | the fields and objects move as CanvasDrawerSpec.DrawerMouseUp says, keeping Valid; the list is unchanged or gains one fresh object at its end |
| NgxCanvasDrawer.CanvasDrawer.EndResizeTarget | projects/ngx-canvas-drawer/src/lib/ngx-canvas-drawer.ts:151-155 | the resize target object is normalised in place and resize-end emitted |
| NgxCanvasDrawer.CanvasDrawer.EndDragGesture | projects/ngx-canvas-drawer/src/lib/ngx-canvas-drawer.ts:158-160 | drag-end for any drag target |
| NgxCanvasDrawer.CanvasDrawer.AddDrawnElement | projects/ngx-canvas-drawer/src/lib/ngx-canvas-drawer.ts:163-171 | with no target, the drawn element is added when large enough |
| NgxCanvasDrawer.CanvasDrawer.AppendDrawnElement | projects/ngx-canvas-drawer/src/lib/ngx-canvas-drawer.ts:164-170 | a normalised copy of the draft is pushed, emitted and the draft reset when both extents exceed 10 |
| NgxCanvasDrawer.CanvasDrawer.PushElement | projects/ngx-canvas-drawer/src/lib/ngx-canvas-drawer.ts:166-167 | the object is appended and add emitted with its value |
| NgxCanvasDrawer.CanvasDrawer.ResetNewElement | projects/ngx-canvas-drawer/src/lib/ngx-canvas-drawer.ts:168 | the draft is a fresh empty element |
| NgxCanvasDrawer.CanvasDrawer.HandleMouseMovement | projects/ngx-canvas-drawer/src/lib/ngx-canvas-drawer.ts:277-324 | the fields move as CanvasDrawerSpec.DrawerHover says, keeping Valid |
| NgxCanvasDrawer.CanvasDrawer.RecordScan | projects/ngx-canvas-drawer/src/lib/ngx-canvas-drawer.ts:282-301 | the targets and handle are recorded and a hovered body turns the shadow on |
| NgxCanvasDrawer.CanvasDrawer.EmitEnter | projects/ngx-canvas-drawer/src/lib/ngx-canvas-drawer.ts:308-311 | enter with the index when an element becomes hovered while none was |
| NgxCanvasDrawer.CanvasDrawer.EmitLeave | projects/ngx-canvas-drawer/src/lib/ngx-canvas-drawer.ts:313-316 | leave with the index when the hovered element is left |
| NgxCanvasDrawer.CanvasDrawer.ClearShadowAndSetCursor | projects/ngx-canvas-drawer/src/lib/ngx-canvas-drawer.ts:318-323 | shadow off away from a body, and setCursorType's cursor |
| NgxCanvasDrawer.CanvasDrawer.ScanElements | projects/ngx-canvas-drawer/src/lib/ngx-canvas-drawer.ts:282-306 | the loop over the element objects finds what HoverScan.Scan finds on their values |

## Left out

- Drawing: the canvas renderers, `drawElements`, `drawElemets`, `drawElement`, `drawNewElement` and the grid drawing. They only issue calls to the browser's canvas API, and the model does not draw.
- Angular and RxJS wiring: the lifecycle hooks beyond the initial state, `ngOnChanges` copying `data`, the event subscriptions and their debouncing, and `NgZone.run`. An output `emit` becomes an entry appended to `log`.
- Pointer input: `getMouseCoords`, `canvasX` and `canvasY` read the page layout. Every listener takes the canvas-local point as a parameter. The current mouse-down also takes the client point for its click event.
- Writing the chosen cursor into `document.body.style.cursor`. Only the decision is modelled, as the `cursor` field.
- `setCanvasSizeAndBackground`: the canvas size comes from the width and height inputs. Fitting the canvas to a background image waits for an image load, which is I/O.
- The older component's `console.log` calls.
- Output payloads: the source emits live references to element objects, which later updates change. The log keeps a snapshot of the element's value at the time of the emit.
- The hover scan sets the two target fields to -1 before its loop (src/lib/ngx-drawing-board.ts:505-506). Every pass of the loop writes `currentHandle` (515). The targets are written again only on the pass that breaks: the resize target at 517-518, or the drag target at 523 with the shadow at 524. The model's loop works on locals, and the fields are written once after it. The one call inside the loop that reads those fields is `drawElements` (525, reading `draggableElementIndex` at 427-444). It runs just after the index is written and only draws, so the final field values are the same.
- src/lib/ngx-drawing-board.ts:514 passes a point where `detectIfMouseIsOverElement` takes two numbers. The model passes the point's x and y.
- The current package's `updateElementOnResize` is not part of this model. For both components the model substitutes the older package's transform (`Resize`).
- The older package's `convertElemntNegativeProps`, `detectCurrentHandle` and `setCursorType` are not part of this model. The older component imports its own copies from its `./utils` (projects/ngx-canvas-drawer/src/lib/ngx-canvas-drawer.ts:19-29). The model substitutes the current package's versions for them. `DetectHandle.DetectNeverCenter` shows that the detection never yields `center`, so the substitute fits the older eight-member handle type.
- Floating point: coordinates are exact reals. Rounding in `getHandlePosition`'s halving and in `Math.sqrt` is not modelled. NaN is modelled only as the validator's explicit `NaN` input.
- `ensureGridStep` and `validate` are not called by either component, so they are modelled as standalone operations.
- NgxDrawingBoard.DrawingBoard.constructor, NgxCanvasDrawer.CanvasDrawer.constructor: both require the caller's element objects to be distinct. The source accepts a list that holds one object twice. The current component copies the array but not the objects (src/lib/ngx-drawing-board.ts:191), and the older one uses the caller's array (projects/ngx-canvas-drawer/src/lib/ngx-canvas-drawer.ts:51). With such a list, a drag, resize or normalisation of one slot changes the shared object in place, so every slot holding it changes. The model, whose state keeps one value per slot, does not capture this.
- NgxCanvasDrawer.CanvasDrawer.PushElement, NgxCanvasDrawer.CanvasDrawer.EndResizeTarget, NgxCanvasDrawer.CanvasDrawer.ResizeTheTarget: the older component's `elements` is the caller's input array itself. The source's `push` (projects/ngx-canvas-drawer/src/lib/ngx-canvas-drawer.ts:166) and slot writes (153, 212) change that array in place, so the caller sees the new element and the replaced objects. The model's list is a field of the component only, and does not capture that the caller's array changes.
