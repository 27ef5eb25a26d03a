/** A layer canvas and the parts of its 2D context the editor uses:
    fillStyle, 1x1 fillRect, clearRect, getImageData/putImageData and
    drawing a decoded bitmap; plus drawCheckerboard (canvasUtils.js). */
module Raster {
  import opened Js
  import opened Pixels

  /** The canvas's reading of a fillStyle string, for the opaque hex forms
      '#rgb' and '#rrggbb'; None for anything else. */
  function ParseCssColor(css: string): (c: Option<Rgba>)
    ensures c.Some? ==> c.value.a == 255
    ensures IsHexColor(css) ==> c == Some(FillRgba(css))
  {
    if IsHexColor(css) then
      HexColorPairs(css);
      FillRgbaOfHexColor(css);
      Some(Rgba(HexValue(css[1..3]), HexValue(css[3..5]), HexValue(css[5..7]), 255))
    else if |css| == 4 && css[0] == '#' && AllHex(css[1..]) then
      Some(ShortHexColor(css[1], css[2], css[3]))
    else None
  }

  /** '#rgb' stands for '#rrggbb'. */
  function ShortHexColor(r: char, g: char, b: char): (c: Rgba)
    requires IsHexDigit(r) && IsHexDigit(g) && IsHexDigit(b)
    ensures c.a == 255
  {
    Rgba(17 * HexDigitValue(r), 17 * HexDigitValue(g), 17 * HexDigitValue(b), 255)
  }

  /** For '#RRGGBB' the bytes a fill writes are the three digit pairs, opaque. */
  lemma FillRgbaOfHexColor(css: string)
    requires IsHexColor(css)
    ensures HexValue(css[1..3]) < 256 && HexValue(css[3..5]) < 256 && HexValue(css[5..7]) < 256
    ensures FillRgba(css) == Rgba(HexValue(css[1..3]), HexValue(css[3..5]), HexValue(css[5..7]), 255)
  {
    HexColorPairs(css);
    var c := HexToRgba(css);
    assert ToUint8Clamp(c.r) == c.r.v && ToUint8Clamp(c.g) == c.g.v && ToUint8Clamp(c.b) == c.b.v;
  }

  /** The two backdrop colours as the canvas reads them. */
  lemma CheckerStyles()
    ensures ParseCssColor("#ffffff") == Some(CheckerLight)
    ensures ParseCssColor("#efefef") == Some(CheckerDark)
  {
    assert IsHexColor("#ffffff") && "#ffffff"[1..3] == "#ffffff"[3..5] == "#ffffff"[5..7] == "ff";
    assert HexValue("ff") == 255 by {
      assert "ff"[..1] == "f";
      assert HexValue("f") == 15 by { assert "f"[..0] == ""; }
    }
    assert IsHexColor("#efefef") && "#efefef"[1..3] == "#efefef"[3..5] == "#efefef"[5..7] == "ef";
    assert HexValue("ef") == 239 by {
      assert "ef"[..1] == "e";
      assert HexValue("e") == 14 by { assert "e"[..0] == ""; }
    }
  }

  /** The fillStyle after assigning `css`: an unparsable string is ignored. */
  function StyleAfter(style: Rgba, css: string): (r: Rgba)
    ensures style.a == 255 ==> r.a == 255
    ensures IsHexColor(css) ==> r == FillRgba(css)
  {
    match ParseCssColor(css)
    case Some(c) => c
    case None => style
  }

  /** One layer canvas: its bitmap (the RGBA bytes getImageData exposes) and
      the fill style of its 2D context. */
  class Layer {
    const width: nat
    const height: nat
    const data: array<Byte>
    var fillStyle: Rgba

    /** The bitmap has the canvas's size, every cell is opaque or clear, and
        the fill style is opaque: the only states the editor produces. */
    ghost predicate Valid()
      reads this, data
    {
      && data.Length == ByteLength(width, height)
      && fillStyle.a == 255
      && OpaqueOrClear(data[..], width, height)
    }

    /** A fresh canvas: fully transparent, fill style opaque black. */
    constructor (w: nat, h: nat)
      ensures Valid() && width == w && height == h && fresh(data)
      ensures forall i | 0 <= i < data.Length :: data[i] == 0
      ensures fillStyle == Rgba(0, 0, 0, 255)
    {
      width, height := w, h;
      data := new Byte[ByteLength(w, h)](_ => 0);
      fillStyle := Rgba(0, 0, 0, 255);
      new;
      AllZeroIsClear(data[..], w, h);
    }

    function Cell(p: Point): Rgba
      requires Valid() && InGrid(width, height, p)
      reads this, data
    {
      At(data[..], width, height, p)
    }

    /** ctx.fillStyle = css */
    method SetFillStyle(css: string)
      requires Valid()
      modifies this
      ensures Valid() && fillStyle == StyleAfter(old(fillStyle), css)
    {
      match ParseCssColor(css)
      case Some(c) => fillStyle := c;
      case None =>
    }

    /** ctx.fillRect(x, y, 1, 1) with the current, opaque fill style; clipped
        to the canvas. */
    method FillCell(x: int, y: int)
      requires Valid()
      modifies data
      ensures Valid()
      ensures data[..] == if InGrid(width, height, Point(x, y))
        then SetCell(old(data[..]), width, height, Point(x, y), fillStyle) else old(data[..])
    {
      if InGrid(width, height, Point(x, y)) {
        SetCellOpaqueOrClear(data[..], width, height, Point(x, y), fillStyle);
        WriteCell(data, width, height, Point(x, y), fillStyle);
      }
    }

    /** ctx.clearRect(x, y, 1, 1), clipped to the canvas. */
    method ClearCell(x: int, y: int)
      requires Valid()
      modifies data
      ensures Valid()
      ensures data[..] == if InGrid(width, height, Point(x, y))
        then SetCell(old(data[..]), width, height, Point(x, y), Transparent) else old(data[..])
    {
      if InGrid(width, height, Point(x, y)) {
        SetCellOpaqueOrClear(data[..], width, height, Point(x, y), Transparent);
        WriteCell(data, width, height, Point(x, y), Transparent);
      }
    }

    /** ctx.clearRect(0, 0, width, height) */
    method ClearAll()
      requires Valid()
      modifies data
      ensures Valid()
      ensures forall p | InGrid(width, height, p) :: Cell(p) == Transparent
    {
      forall i | 0 <= i < data.Length {
        data[i] := 0;
      }
      AllZeroIsClear(data[..], width, height);
    }

    /** ctx.getImageData(0, 0, width, height): a copy of the bitmap. */
    method GetImageData() returns (img: array<Byte>)
      requires Valid()
      ensures fresh(img) && img[..] == data[..]
    {
      img := new Byte[data.Length](i requires 0 <= i < data.Length reads data => data[i]);
    }

    /** ctx.putImageData(img, 0, 0), or clearRect followed by drawImage of a
        decoded bitmap of the same size: the bitmap becomes `pixels`. */
    method PutPixels(pixels: seq<Byte>)
      requires Valid() && |pixels| == data.Length && OpaqueOrClear(pixels, width, height)
      modifies data
      ensures Valid() && data[..] == pixels
    {
      forall i | 0 <= i < data.Length {
        data[i] := pixels[i];
      }
      assert data[..] == pixels;
    }
  }

  /** A bitmap of zero bytes is transparent everywhere. */
  lemma AllZeroIsClear(data: seq<Byte>, width: nat, height: nat)
    requires |data| == ByteLength(width, height) && forall i | 0 <= i < |data| :: data[i] == 0
    ensures forall p | InGrid(width, height, p) :: At(data, width, height, p) == Transparent
    ensures OpaqueOrClear(data, width, height)
  {
    forall p | InGrid(width, height, p) ensures At(data, width, height, p) == Transparent && CellOk(data, width, height, p) {
      var _ := Offset(width, height, p);
    }
  }

  /** Writes the four bytes of cell p, as floodFill does. */
  method WriteCell(img: array<Byte>, width: nat, height: nat, p: Point, c: Rgba)
    requires img.Length == ByteLength(width, height) && InGrid(width, height, p)
    modifies img
    ensures img[..] == SetCell(old(img[..]), width, height, p, c)
  {
    var i := (p.y * width + p.x) * 4;
    var _ := Offset(width, height, p);
    img[i] := c.r;
    img[i + 1] := c.g;
    img[i + 2] := c.b;
    img[i + 3] := c.a;
  }

  /** Every cell before (x, y) in row-major order shows the backdrop colour. */
  ghost predicate CheckeredUpTo(data: seq<Byte>, width: nat, height: nat, x: int, y: int)
    requires |data| == ByteLength(width, height)
  {
    forall p | InGrid(width, height, p) && (p.y < y || (p.y == y && p.x < x)) ::
      At(data, width, height, p) == CheckerColor(p.x, p.y)
  }

  lemma CheckerStep(data: seq<Byte>, width: nat, height: nat, x: int, y: int)
    requires |data| == ByteLength(width, height) && InGrid(width, height, Point(x, y))
    requires CheckeredUpTo(data, width, height, x, y)
    ensures CheckeredUpTo(SetCell(data, width, height, Point(x, y), CheckerColor(x, y)), width, height, x + 1, y)
  {
    forall p | InGrid(width, height, p) {
      SetCellAt(data, width, height, Point(x, y), CheckerColor(x, y), p);
    }
  }

  /** drawCheckerboard: a missing canvas is left alone; otherwise the canvas is
      cleared and every cell painted light or dark by the parity of x + y. */
  method DrawCheckerboard(canvas: Layer?)
    requires canvas != null ==> canvas.Valid()
    modifies if canvas == null then {} else {canvas, canvas.data}
    ensures canvas != null ==> canvas.Valid()
    ensures canvas != null ==> forall p | InGrid(canvas.width, canvas.height, p) :: canvas.Cell(p) == CheckerColor(p.x, p.y)
  {
    if canvas == null {
      return;
    }
    canvas.ClearAll();
    CheckerStyles();
    var width, height := canvas.width, canvas.height;
    for y := 0 to height
      invariant canvas.Valid()
      invariant CheckeredUpTo(canvas.data[..], width, height, 0, y)
    {
      for x := 0 to width
        invariant canvas.Valid()
        invariant CheckeredUpTo(canvas.data[..], width, height, x, y)
      {
        canvas.SetFillStyle(if (x + y) % 2 == 0 then "#ffffff" else "#efefef");
        assert canvas.fillStyle == CheckerColor(x, y);
        CheckerStep(canvas.data[..], width, height, x, y);
        canvas.FillCell(x, y);
      }
    }
  }

  /** The saved project a canvas opens with; either layer may be missing. */
  datatype InitialData = InitialData(background: Option<seq<Byte>>, foreground: Option<seq<Byte>>)

  /** A saved layer fits a width x height canvas the editor drew. */
  ghost predicate LayerImageOk(pixels: seq<Byte>, width: nat, height: nat) {
    |pixels| == ByteLength(width, height) && OpaqueOrClear(pixels, width, height)
  }

  ghost predicate InitialDataOk(d: Option<InitialData>, width: nat, height: nat) {
    d.Some? ==>
      && (d.value.background.Some? ==> LayerImageOk(d.value.background.value, width, height))
      && (d.value.foreground.Some? ==> LayerImageOk(d.value.foreground.value, width, height))
  }

  /** A stored layer replaces the canvas's bitmap; a missing one leaves it. */
  method LoadImage(canvas: Layer, image: Option<seq<Byte>>)
    requires canvas.Valid() && (image.Some? ==> LayerImageOk(image.value, canvas.width, canvas.height))
    modifies canvas.data
    ensures canvas.Valid()
    ensures canvas.data[..] == if image.Some? then image.value else old(canvas.data[..])
  {
    if image.Some? {
      canvas.PutPixels(image.value);
    }
  }

  /** The initial-load effect both canvas components share: with saved data
      each stored layer is drawn into its canvas; without, both canvases are
      cleared. */
  method LoadLayers(background: Layer, foreground: Layer, initialData: Option<InitialData>)
    requires background.Valid() && foreground.Valid() && background.data != foreground.data
    requires foreground.width == background.width && foreground.height == background.height
    requires InitialDataOk(initialData, background.width, background.height)
    modifies background.data, foreground.data
    ensures background.Valid() && foreground.Valid()
    ensures initialData.None? ==>
      forall p | InGrid(background.width, background.height, p) :: background.Cell(p) == Transparent && foreground.Cell(p) == Transparent
    ensures initialData.Some? ==>
      && background.data[..] == (if initialData.value.background.Some? then initialData.value.background.value else old(background.data[..]))
      && foreground.data[..] == (if initialData.value.foreground.Some? then initialData.value.foreground.value else old(foreground.data[..]))
  {
    match initialData
    case Some(d) =>
      LoadImage(background, d.background);
      LoadImage(foreground, d.foreground);
    case None =>
      background.ClearAll();
      foreground.ClearAll();
  }
}
