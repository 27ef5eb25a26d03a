/** The single-pixel canvas component (components/Canvas.jsx), the one the
    editor mounts: the same three stacked canvases, no history, and a
    drawPixel that erases with the erase tool and paints with any other. */
module SimpleCanvas {
  import opened Js
  import opened Pixels
  import opened Raster
  import opened FloodFill
  import C = Compose
  import H = History

  /** What drawPixel does to the active canvas: nothing outside the grid;
      the erase tool clears cell (x, y); every other tool paints it with the
      selected colour. */
  ghost predicate PixelEffect(before: seq<Byte>, beforeStyle: Rgba, after: seq<Byte>, afterStyle: Rgba,
                              width: nat, height: nat, activeTool: Tool, selectedColor: string, x: int, y: int)
    requires |before| == ByteLength(width, height)
  {
    var p := Point(x, y);
    if !InGrid(width, height, p) then
      after == before && afterStyle == beforeStyle
    else if activeTool == Erase then
      after == SetCell(before, width, height, p, Transparent) && afterStyle == beforeStyle
    else
      afterStyle == StyleAfter(beforeStyle, selectedColor) && after == SetCell(before, width, height, p, afterStyle)
  }

  /** drawPixel is handleAction's erase for the erase tool and handleAction's
      draw for every other tool, fill included. */
  lemma PixelEffectIsDrawOrErase(before: seq<Byte>, beforeStyle: Rgba, after: seq<Byte>, afterStyle: Rgba,
                                 width: nat, height: nat, activeTool: Tool, selectedColor: string, x: int, y: int)
    requires |before| == ByteLength(width, height)
    ensures PixelEffect(before, beforeStyle, after, afterStyle, width, height, activeTool, selectedColor, x, y)
        <==> ActionEffect(before, beforeStyle, after, afterStyle, width, height,
                          if activeTool == Erase then Erase else Draw, selectedColor, x, y, false, false,
                          InGrid(width, height, Point(x, y)))
  {
  }

  class Canvas {
    const width: nat
    const height: nat
    const checkerboard: Layer
    const background: Layer
    const foreground: Layer
    /** The stroke flag isDrawing.current. */
    var isDrawing: bool

    ghost predicate Valid()
      reads this, checkerboard, background, foreground, checkerboard.data, background.data, foreground.data
    {
      && checkerboard != background && checkerboard != foreground && background != foreground
      && checkerboard.data != background.data && checkerboard.data != foreground.data && background.data != foreground.data
      && checkerboard.Valid() && background.Valid() && foreground.Valid()
      && checkerboard.width == background.width == foreground.width == width
      && checkerboard.height == background.height == foreground.height == height
    }

    /** The layer that activeLayer names, and the other one. */
    function Active(activeLayer: LayerName): (c: Layer)
      ensures c == background || c == foreground
    {
      if activeLayer == Background then background else foreground
    }

    function Inactive(activeLayer: LayerName): (c: Layer)
      ensures c == background || c == foreground
      ensures c == InactiveCanvas(activeLayer, background, foreground)
    {
      if activeLayer == Background then foreground else background
    }

    /** Mounting: the initial-load effect, then the checkerboard effect. */
    constructor (w: nat, h: nat, initialData: Option<InitialData>)
      requires InitialDataOk(initialData, w, h)
      ensures Valid() && width == w && height == h && !isDrawing
      ensures forall p | InGrid(w, h, p) :: checkerboard.Cell(p) == CheckerColor(p.x, p.y)
      ensures initialData.Some? && initialData.value.background.Some? ==> background.data[..] == initialData.value.background.value
      ensures initialData.Some? && initialData.value.foreground.Some? ==> foreground.data[..] == initialData.value.foreground.value
      ensures forall p | InGrid(w, h, p) ::
        && (initialData.None? || initialData.value.background.None? ==> background.Cell(p) == Transparent)
        && (initialData.None? || initialData.value.foreground.None? ==> foreground.Cell(p) == Transparent)
    {
      width, height := w, h;
      checkerboard := new Layer(w, h);
      background := new Layer(w, h);
      foreground := new Layer(w, h);
      isDrawing := false;
      new;
      AllZeroIsClear(background.data[..], w, h);
      AllZeroIsClear(foreground.data[..], w, h);
      LoadLayers(background, foreground, initialData);
      PaintCheckerboard();
    }

    /** The checkerboard effect: the backdrop canvas is cleared and painted
        light where x + y is even and dark elsewhere. */
    method PaintCheckerboard()
      requires Valid()
      modifies checkerboard, checkerboard.data
      ensures Valid()
      ensures forall p | InGrid(width, height, p) :: checkerboard.Cell(p) == CheckerColor(p.x, p.y)
    {
      DrawCheckerboard(checkerboard);
    }

    /** drawPixel at grid cell (x, y) on the active layer; the other layer is
        not touched. */
    method DrawPixel(activeTool: Tool, activeLayer: LayerName, selectedColor: string, x: int, y: int)
      requires Valid()
      modifies background, background.data, foreground, foreground.data
      ensures Valid()
      ensures PixelEffect(old(Active(activeLayer).data[..]), old(Active(activeLayer).fillStyle),
                          Active(activeLayer).data[..], Active(activeLayer).fillStyle,
                          width, height, activeTool, selectedColor, x, y)
      ensures Inactive(activeLayer).data[..] == old(Inactive(activeLayer).data[..])
      ensures Inactive(activeLayer).fillStyle == old(Inactive(activeLayer).fillStyle)
    {
      var canvas := if activeLayer == Background then background else foreground;
      if 0 <= x < width && 0 <= y < height {
        if activeTool == Erase {
          canvas.ClearCell(x, y);
        } else {
          canvas.SetFillStyle(selectedColor);
          canvas.FillCell(x, y);
        }
      }
    }

    /** Mouse down or touch start: a stroke begins and the cell is painted once. */
    method PointerDown(activeTool: Tool, activeLayer: LayerName, selectedColor: string, x: int, y: int)
      requires Valid()
      modifies this, background, background.data, foreground, foreground.data
      ensures Valid() && isDrawing
      ensures PixelEffect(old(Active(activeLayer).data[..]), old(Active(activeLayer).fillStyle),
                          Active(activeLayer).data[..], Active(activeLayer).fillStyle,
                          width, height, activeTool, selectedColor, x, y)
      ensures Inactive(activeLayer).data[..] == old(Inactive(activeLayer).data[..])
      ensures Inactive(activeLayer).fillStyle == old(Inactive(activeLayer).fillStyle)
    {
      isDrawing := true;
      DrawPixel(activeTool, activeLayer, selectedColor, x, y);
    }

    /** Mouse move or touch move: paints only while a stroke is on. */
    method PointerMove(activeTool: Tool, activeLayer: LayerName, selectedColor: string, x: int, y: int)
      requires Valid()
      modifies background, background.data, foreground, foreground.data
      ensures Valid()
      ensures old(isDrawing) ==>
        PixelEffect(old(Active(activeLayer).data[..]), old(Active(activeLayer).fillStyle),
                    Active(activeLayer).data[..], Active(activeLayer).fillStyle,
                    width, height, activeTool, selectedColor, x, y)
      ensures !old(isDrawing) ==>
        && background.data[..] == old(background.data[..]) && foreground.data[..] == old(foreground.data[..])
        && background.fillStyle == old(background.fillStyle) && foreground.fillStyle == old(foreground.fillStyle)
      ensures Inactive(activeLayer).data[..] == old(Inactive(activeLayer).data[..])
      ensures Inactive(activeLayer).fillStyle == old(Inactive(activeLayer).fillStyle)
    {
      if !isDrawing {
        return;
      }
      DrawPixel(activeTool, activeLayer, selectedColor, x, y);
    }

    /** Mouse up, mouse leave or touch end: the stroke ends. */
    method PointerUp()
      requires Valid()
      modifies this
      ensures Valid() && !isDrawing
    {
      isDrawing := false;
    }

    /** save: both layers' bitmaps, each of the canvas's size with only
        opaque or clear cells. */
    method Save() returns (s: H.Snapshot)
      requires Valid()
      ensures s.background == background.data[..] && s.foreground == foreground.data[..]
      ensures LayerImageOk(s.background, width, height) && LayerImageOk(s.foreground, width, height)
    {
      s := H.Snapshot(background.data[..], foreground.data[..]);
    }

    /** getThumbnail: both layers flattened at their natural size. */
    method GetThumbnail() returns (img: seq<seq<Rgba>>)
      requires Valid()
      ensures C.IsRaster(img, width, height)
      ensures img == C.Thumbnail(background.data[..], foreground.data[..], width, height)
    {
      img := C.Thumbnail(background.data[..], foreground.data[..], width, height);
    }

    /** exportImage(scale): both layers flattened and scaled without smoothing. */
    method ExportImage(scale: nat) returns (img: seq<seq<Rgba>>)
      requires Valid()
      ensures C.IsRaster(img, width * scale, height * scale)
      ensures img == C.ExportImage(background.data[..], foreground.data[..], width, height, scale)
    {
      img := C.ExportImage(background.data[..], foreground.data[..], width, height, scale);
    }
  }
}
