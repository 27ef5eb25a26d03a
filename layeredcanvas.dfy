/** The layered editing canvas (canvas/Canvas.jsx): a checkerboard backdrop,
    a background and a foreground layer, the bounded undo/redo history of
    whole-canvas snapshots, and the pointer handlers that record a snapshot
    and then apply the active tool. */
module LayeredCanvas {
  import opened Js
  import opened Pixels
  import opened Raster
  import opened FloodFill
  import H = History
  import C = Compose

  class Canvas {
    const width: nat
    const height: nat
    const checkerboard: Layer
    const background: Layer
    const foreground: Layer
    /** undoStack.current and redoStack.current, top of stack last. */
    var undoStack: seq<H.Snapshot>
    var redoStack: seq<H.Snapshot>
    /** The status last passed to onHistoryChange. */
    var status: H.Status
    /** The stroke flag isDrawing.current. */
    var isDrawing: bool
    /** touchState.current.isZooming of the gesture hook. */
    var isZooming: bool

    /** A snapshot the history may restore: two layers of this canvas's size
        that hold only opaque or clear cells. */
    ghost predicate SnapshotOk(s: H.Snapshot) {
      LayerImageOk(s.background, width, height) && LayerImageOk(s.foreground, width, height)
    }

    /** Three distinct canvases of the same size, each in a state the editor produces. */
    ghost predicate CanvasesOk()
      reads checkerboard, background, foreground, checkerboard.data, background.data, foreground.data
    {
      && checkerboard != background && checkerboard != foreground && background != foreground
      && checkerboard.data != background.data && checkerboard.data != foreground.data && background.data != foreground.data
      && checkerboard.Valid() && background.Valid() && foreground.Valid()
      && checkerboard.width == background.width == foreground.width == width
      && checkerboard.height == background.height == foreground.height == height
    }

    /** The canvases are well formed, the history holds at most MaxHistory
        restorable snapshots, and the last reported status matches it. */
    ghost predicate Valid()
      reads this, checkerboard, background, foreground, checkerboard.data, background.data, foreground.data
    {
      CanvasesOk() && StacksOk()
    }

    /** At most MaxHistory restorable snapshots on each stack, and the last
        reported status matches them. */
    ghost predicate StacksOk()
      reads this
    {
      && H.Bounded(H.Stacks(undoStack, redoStack))
      && (forall s | s in undoStack :: SnapshotOk(s))
      && (forall s | s in redoStack :: SnapshotOk(s))
      && status == H.StatusOf(H.Stacks(undoStack, redoStack))
    }

    /** The layer that activeLayer names, and the other one. */
    function Active(activeLayer: LayerName): (c: Layer)
      ensures c == ActiveCanvas(activeLayer, background, foreground)
    {
      if activeLayer == Background then background else foreground
    }

    function Inactive(activeLayer: LayerName): (c: Layer)
      ensures c == background || c == foreground
      ensures c == InactiveCanvas(activeLayer, background, foreground)
    {
      if activeLayer == Background then foreground else background
    }

    /** The two layers as a snapshot would record them. */
    function Layers(): H.Snapshot
      reads background, foreground, background.data, foreground.data
    {
      H.Snapshot(background.data[..], foreground.data[..])
    }

    function Session(): H.Session
      reads this, background, foreground, background.data, foreground.data
    {
      H.Session(Stacks(), Layers())
    }

    /** The undo and redo stacks. */
    function Stacks(): H.Stacks
      reads this
    {
      H.Stacks(undoStack, redoStack)
    }

    /** Mounting: the initial-load effect (which also resets the history) and
        the checkerboard effect. */
    constructor (w: nat, h: nat, initialData: Option<InitialData>)
      requires InitialDataOk(initialData, w, h)
      ensures Valid() && width == w && height == h
      ensures undoStack == [] && redoStack == [] && !isDrawing && !isZooming
      ensures forall p | InGrid(w, h, p) :: checkerboard.Cell(p) == CheckerColor(p.x, p.y)
      ensures initialData.Some? && initialData.value.background.Some? ==> background.data[..] == initialData.value.background.value
      ensures initialData.Some? && initialData.value.foreground.Some? ==> foreground.data[..] == initialData.value.foreground.value
      ensures forall p | InGrid(w, h, p) ::
        && (initialData.None? || initialData.value.background.None? ==> background.Cell(p) == Transparent)
        && (initialData.None? || initialData.value.foreground.None? ==> foreground.Cell(p) == Transparent)
    {
      width, height := w, h;
      checkerboard := new Layer(w, h);
      background := new Layer(w, h);
      foreground := new Layer(w, h);
      undoStack, redoStack := [], [];
      status := H.Status(false, false);
      isDrawing, isZooming := false, false;
      new;
      AllZeroIsClear(background.data[..], w, h);
      AllZeroIsClear(foreground.data[..], w, h);
      Load(initialData);
      ghost var loaded := Layers();
      DrawCheckerboard(checkerboard);
      assert Layers() == loaded;
    }

    /** The initial-load effect: the layers are loaded or cleared, then both
        stacks are emptied and the status reported. */
    method Load(initialData: Option<InitialData>)
      requires Valid() && InitialDataOk(initialData, width, height)
      modifies this, background.data, foreground.data
      ensures Valid() && undoStack == [] && redoStack == [] && status == H.Status(false, false)
      ensures isDrawing == old(isDrawing) && isZooming == old(isZooming)
      ensures initialData.None? ==>
        forall p | InGrid(width, height, p) :: background.Cell(p) == Transparent && foreground.Cell(p) == Transparent
      ensures initialData.Some? ==>
        && background.data[..] == (if initialData.value.background.Some? then initialData.value.background.value else old(background.data[..]))
        && foreground.data[..] == (if initialData.value.foreground.Some? then initialData.value.foreground.value else old(foreground.data[..]))
    {
      LoadLayers(background, foreground, initialData);
      undoStack := [];
      redoStack := [];
      status := H.StatusOf(H.Stacks(undoStack, redoStack));
    }

    /** saveStateToUndo: the history step Save on the current session. */
    method SaveStateToUndo()
      requires Valid()
      modifies this
      ensures Valid() && Session() == H.Save(old(Session()))
      ensures Layers() == old(Layers())
      ensures unchanged(background, foreground, background.data, foreground.data)
      ensures isDrawing == old(isDrawing) && isZooming == old(isZooming)
    {
      var state := H.Snapshot(background.data[..], foreground.data[..]);
      ghost var undo := undoStack;
      assert SnapshotOk(state);
      PushKeepsSnapshotsOk(undo, state);
      undoStack := undoStack + [state];
      if |undoStack| > H.MaxHistory {
        undoStack := undoStack[1..];
      }
      assert undoStack == H.PushBounded(undo, state);
      redoStack := [];
      status := H.StatusOf(H.Stacks(undoStack, redoStack));
    }

    /** Recording a snapshot of well-formed layers keeps every snapshot on the stack restorable. */
    lemma PushKeepsSnapshotsOk(undo: seq<H.Snapshot>, state: H.Snapshot)
      requires forall s | s in undo :: SnapshotOk(s)
      requires SnapshotOk(state)
      ensures forall s | s in H.PushBounded(undo, state) :: SnapshotOk(s)
    {
      var pushed := undo + [state];
      assert forall s | s in pushed :: s in undo || s == state;
      assert forall s | s in pushed[1..] :: s in pushed;
    }

    /** save: both layers' bitmaps, a snapshot the history can restore. */
    method Save() returns (s: H.Snapshot)
      requires Valid()
      ensures s == Layers() && SnapshotOk(s)
    {
      s := H.Snapshot(background.data[..], foreground.data[..]);
    }

    /** applyState with a recorded snapshot: both layers are redrawn from it. */
    method ApplyState(state: H.Snapshot)
      requires CanvasesOk() && SnapshotOk(state)
      modifies background.data, foreground.data
      ensures CanvasesOk() && Layers() == state
    {
      background.PutPixels(state.background);
      foreground.PutPixels(state.foreground);
    }

    /** undo: the history step Undo; `notified` tells whether applyState ran
        and called onCanvasChange. */
    method Undo() returns (notified: bool)
      requires Valid()
      modifies this, background.data, foreground.data
      ensures Valid() && Session() == H.Undo(old(Session()))
      ensures notified <==> old(undoStack) != []
      ensures isDrawing == old(isDrawing) && isZooming == old(isZooming)
    {
      if |undoStack| == 0 {
        return false;
      }
      var currentState := H.Snapshot(background.data[..], foreground.data[..]);
      redoStack := redoStack + [currentState];
      var previousState := undoStack[|undoStack| - 1];
      undoStack := undoStack[..|undoStack| - 1];
      ApplyState(previousState);
      notified := true;
      status := H.StatusOf(H.Stacks(undoStack, redoStack));
    }

    /** redo: the history step Redo, the mirror image of Undo. */
    method Redo() returns (notified: bool)
      requires Valid()
      modifies this, background.data, foreground.data
      ensures Valid() && Session() == H.Redo(old(Session()))
      ensures notified <==> old(redoStack) != []
      ensures isDrawing == old(isDrawing) && isZooming == old(isZooming)
    {
      if |redoStack| == 0 {
        return false;
      }
      var currentState := H.Snapshot(background.data[..], foreground.data[..]);
      undoStack := undoStack + [currentState];
      var nextState := redoStack[|redoStack| - 1];
      redoStack := redoStack[..|redoStack| - 1];
      ApplyState(nextState);
      notified := true;
      status := H.StatusOf(H.Stacks(undoStack, redoStack));
    }

    /** clear: one snapshot is recorded, then both layers are wiped. */
    method Clear()
      requires Valid()
      modifies this, background.data, foreground.data
      ensures Valid() && Stacks() == H.Save(old(Session())).stacks
      ensures isDrawing == old(isDrawing) && isZooming == old(isZooming)
      ensures forall p | InGrid(width, height, p) :: background.Cell(p) == Transparent && foreground.Cell(p) == Transparent
    {
      SaveStateToUndo();
      background.ClearAll();
      ghost var cleared := background.data[..];
      foreground.ClearAll();
      assert background.data[..] == cleared && background.Valid();
      assert checkerboard.Valid();
    }

    /** handleAction on this canvas's layers, with the zoom flag left at its
        default (false), as every handler here calls it. */
    method Act(activeTool: Tool, activeLayer: LayerName, selectedColor: string, x: int, y: int, forceDraw: bool)
      returns (notified: bool)
      requires Valid()
      modifies background, background.data, foreground, foreground.data
      ensures Valid()
      ensures ActionEffect(old(Active(activeLayer).data[..]), old(Active(activeLayer).fillStyle),
                           Active(activeLayer).data[..], Active(activeLayer).fillStyle,
                           width, height, activeTool, selectedColor, x, y, forceDraw, false, notified)
      ensures Inactive(activeLayer).data[..] == old(Inactive(activeLayer).data[..])
      ensures Inactive(activeLayer).fillStyle == old(Inactive(activeLayer).fillStyle)
      ensures unchanged(Inactive(activeLayer), Inactive(activeLayer).data)
    {
      assert LayersOk(background, foreground, width, height);
      notified := HandleAction(background, foreground, width, height, activeTool, activeLayer, selectedColor, x, y, forceDraw, false);
      assert LayersOk(background, foreground, width, height);
      assert checkerboard.Valid();
    }

    /** A pointer press at cell (x, y): every tool but fill starts a stroke,
        the layers are recorded for undo, then the tool is applied once. */
    method MouseDown(activeTool: Tool, activeLayer: LayerName, selectedColor: string, x: int, y: int)
      returns (notified: bool)
      requires Valid()
      modifies this, background, background.data, foreground, foreground.data
      ensures Valid()
      ensures isDrawing == (old(isDrawing) || activeTool != Fill) && isZooming == old(isZooming)
      ensures Stacks() == H.Save(old(Session())).stacks
      ensures ActionEffect(old(Active(activeLayer).data[..]), old(Active(activeLayer).fillStyle),
                           Active(activeLayer).data[..], Active(activeLayer).fillStyle,
                           width, height, activeTool, selectedColor, x, y, false, false, notified)
      ensures Inactive(activeLayer).data[..] == old(Inactive(activeLayer).data[..])
      ensures Inactive(activeLayer).fillStyle == old(Inactive(activeLayer).fillStyle)
    {
      ghost var before, style := Active(activeLayer).data[..], Active(activeLayer).fillStyle;
      if activeTool != Fill {
        isDrawing := true;
      }
      SaveStateToUndo();
      assert Active(activeLayer).data[..] == before;
      notified := Act(activeTool, activeLayer, selectedColor, x, y, false);
    }

    /** A pointer move: while a stroke is on, the tool is applied as a drag
        (forceDraw), which a fill ignores; the history is not touched. */
    method MouseMove(activeTool: Tool, activeLayer: LayerName, selectedColor: string, x: int, y: int)
      returns (notified: bool)
      requires Valid()
      modifies background, background.data, foreground, foreground.data
      ensures Valid()
      ensures old(isDrawing) ==>
        ActionEffect(old(Active(activeLayer).data[..]), old(Active(activeLayer).fillStyle),
                     Active(activeLayer).data[..], Active(activeLayer).fillStyle,
                     width, height, activeTool, selectedColor, x, y, true, false, notified)
      ensures Inactive(activeLayer).data[..] == old(Inactive(activeLayer).data[..])
      ensures Inactive(activeLayer).fillStyle == old(Inactive(activeLayer).fillStyle)
      ensures !old(isDrawing) ==>
        && !notified && Layers() == old(Layers())
        && background.fillStyle == old(background.fillStyle) && foreground.fillStyle == old(foreground.fillStyle)
    {
      notified := false;
      if isDrawing {
        notified := Act(activeTool, activeLayer, selectedColor, x, y, true);
      }
    }

    /** Mouse up or leave ends the stroke. */
    method MouseUp()
      requires Valid()
      modifies this
      ensures Valid() && !isDrawing && isZooming == old(isZooming)
      ensures undoStack == old(undoStack) && redoStack == old(redoStack)
    {
      isDrawing := false;
    }

    /** A touch start with `touchCount` touches, the first at cell (x, y): two
        touches begin a pinch gesture; otherwise it acts as a press. */
    method TouchStart(touchCount: nat, activeTool: Tool, activeLayer: LayerName, selectedColor: string, x: int, y: int)
      returns (notified: bool)
      requires Valid() && touchCount >= 1
      modifies this, background, background.data, foreground, foreground.data
      ensures Valid()
      ensures touchCount == 2 ==>
        && isZooming && !notified && isDrawing == old(isDrawing)
        && Session() == old(Session())
        && background.fillStyle == old(background.fillStyle) && foreground.fillStyle == old(foreground.fillStyle)
      ensures touchCount != 2 ==>
        && isDrawing == (old(isDrawing) || activeTool != Fill) && isZooming == old(isZooming)
        && Stacks() == H.Save(old(Session())).stacks
        && Inactive(activeLayer).data[..] == old(Inactive(activeLayer).data[..])
        && Inactive(activeLayer).fillStyle == old(Inactive(activeLayer).fillStyle)
        && ActionEffect(old(Active(activeLayer).data[..]), old(Active(activeLayer).fillStyle),
                        Active(activeLayer).data[..], Active(activeLayer).fillStyle,
                        width, height, activeTool, selectedColor, x, y, false, false, notified)
    {
      if touchCount == 2 {
        isZooming := true;
        notified := false;
      } else {
        notified := MouseDown(activeTool, activeLayer, selectedColor, x, y);
      }
    }

    /** A touch move: a pinch in progress consumes it; otherwise it acts as
        a pointer move. */
    method TouchMove(touchCount: nat, activeTool: Tool, activeLayer: LayerName, selectedColor: string, x: int, y: int)
      returns (notified: bool)
      requires Valid() && touchCount >= 1
      modifies background, background.data, foreground, foreground.data
      ensures Valid()
      ensures !(touchCount == 2 && isZooming) && old(isDrawing) ==>
        ActionEffect(old(Active(activeLayer).data[..]), old(Active(activeLayer).fillStyle),
                     Active(activeLayer).data[..], Active(activeLayer).fillStyle,
                     width, height, activeTool, selectedColor, x, y, true, false, notified)
      ensures Inactive(activeLayer).data[..] == old(Inactive(activeLayer).data[..])
      ensures Inactive(activeLayer).fillStyle == old(Inactive(activeLayer).fillStyle)
      ensures (touchCount == 2 && isZooming) || !old(isDrawing) ==>
        && !notified && Layers() == old(Layers())
        && background.fillStyle == old(background.fillStyle) && foreground.fillStyle == old(foreground.fillStyle)
    {
      var gesture := touchCount == 2 && isZooming;
      notified := false;
      if !gesture && isDrawing {
        notified := Act(activeTool, activeLayer, selectedColor, x, y, true);
      }
    }

    /** A touch end leaving `remaining` touches: fewer than two ends the
        pinch; the stroke always ends. */
    method TouchEnd(remaining: nat)
      requires Valid()
      modifies this
      ensures Valid() && !isDrawing
      ensures isZooming == (old(isZooming) && remaining >= 2)
      ensures undoStack == old(undoStack) && redoStack == old(redoStack)
    {
      if remaining < 2 {
        isZooming := false;
      }
      isDrawing := false;
    }

    /** getThumbnail: both layers flattened at their natural size. */
    method GetThumbnail() returns (img: seq<seq<Rgba>>)
      requires Valid()
      ensures C.IsRaster(img, width, height)
      ensures img == C.Thumbnail(background.data[..], foreground.data[..], width, height)
    {
      img := C.Thumbnail(background.data[..], foreground.data[..], width, height);
    }

    /** exportImage(scale): both layers flattened and scaled without smoothing. */
    method ExportImage(scale: nat) returns (img: seq<seq<Rgba>>)
      requires Valid()
      ensures C.IsRaster(img, width * scale, height * scale)
      ensures img == C.ExportImage(background.data[..], foreground.data[..], width, height, scale)
    {
      img := C.ExportImage(background.data[..], foreground.data[..], width, height, scale);
    }
  }
}
