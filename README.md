# pixel-pint drawing engine in Dafny

A model of the pixel-editing core of pixel-pint, a browser pixel-art editor:

- the flood fill and tool dispatch of the drawing hook (`useCanvasDrawing.js`);
- the colour and indexing helpers and the checkerboard backdrop (`canvasUtils.js`);
- the layered canvas with its bounded undo/redo history, pointer handlers and flattening for thumbnail and export (`canvas/Canvas.jsx`);
- the single-pixel canvas the editor mounts (`components/Canvas.jsx`);
- the Lospec `.hex` palette parser (`palettes.js`);
- the luminance sort and the desaturated-first grouping of the hue sort (`colorSort.js`).

A layer canvas is the class `Raster.Layer`. Its bitmap is an `array<Byte>` of `4 * width * height` RGBA bytes, as `getImageData` exposes it, and its fill style is a field.

The two canvas components are classes that own three layers: checkerboard, background and foreground. The layered one also owns the undo and redo stacks (`seq` fields), the reported history status and the `isDrawing`/`isZooming` flags. Every handler is a method whose `ensures` give the new state.

The flood fill is an imperative worklist loop over an array. It is proved against `FloodFill.Filled`: exactly the 4-connected component of the seed's colour is recoloured. The undo history is also specified by pure step functions (`History.Save`, `Undo`, `Redo`). The class methods are proved to perform exactly those steps.

JavaScript semantics are written out where they matter:

- `parseInt(s, 16)` can return NaN (`Js.Num`);
- storing into a `Uint8ClampedArray` clamps and sends NaN to 0;
- `>>` and `&` act on the 32-bit pattern of `ToInt32`;
- `String.prototype.trim` uses the ECMAScript whitespace set;
- `slice` clamps its bounds.

Modules, one per file:

- `js.dfy`: Js
- `pixels.dfy`: Pixels
- `raster.dfy`: Raster
- `floodfill.dfy`: FloodFill
- `history.dfy`: History
- `compose.dfy`: Compose
- `layeredcanvas.dfy`: LayeredCanvas
- `simplecanvas.dfy`: SimpleCanvas
- `palettes.dfy`: Palettes
- `colorsort.dfy`: ColorSort

## Model

| member | source | states |
|---|---|---|
| Js.Trim | src/utils/palettes.js:21 | the result is no longer than the input and neither starts nor ends with whitespace |
| Js.TrimMargins | src/utils/palettes.js:21 | trim removes only whitespace: the input is a whitespace run, the result, and another whitespace run |
| Js.ParseIntHexDigits | src/components/canvas/canvasUtils.js:2-4 | parseInt(s, 16) of a non-empty run of hex digits is exactly its value |
| Js.Slice | src/components/canvas/canvasUtils.js:2-4 | slice never grows the string and is the plain substring when the bounds are in range |
| Js.ToUint8Clamp | src/components/canvas/useCanvasDrawing.js:21-24 | storing a number into ImageData keeps every integer in 0..255 unchanged |
| Js.Int32Bits | src/utils/colorSort.js:50-53 | the bit pattern the shift and mask operators see is below 2^32 |
| Pixels.HexToRgba | src/components/canvas/canvasUtils.js:1-6 | alpha is always 255; for '#RRGGBB' each channel is the value of its two-digit slice and lies in 0..255 |
| Pixels.FillRgba | src/components/canvas/useCanvasDrawing.js:21-24 | the bytes a fill writes are opaque, and for '#RRGGBB' they are exactly hexToRgba's channels |
| Pixels.ColorsMatch | src/components/canvas/canvasUtils.js:18-20 | colorsMatch holds iff the four channels are equal numbers (a NaN channel never matches) |
| Pixels.ColorsMatchBytes | src/components/canvas/canvasUtils.js:18-20 | on colours read from ImageData colorsMatch is equality, so it is reflexive, symmetric and transitive; a NaN colour does not match itself |
| Pixels.Offset | src/components/canvas/canvasUtils.js:9 | the first byte of cell (x, y) is (y*width + x)*4, and the four bytes lie inside the buffer |
| Pixels.OffsetDisjoint | src/components/canvas/useCanvasDrawing.js:20-24 | distinct cells own disjoint groups of four bytes |
| Pixels.GetPixel | src/components/canvas/canvasUtils.js:8-15 | the colour of cell (x, y) is the four bytes starting at (y*width + x)*4 |
| Pixels.GetPixelInBounds | src/components/canvas/canvasUtils.js:8-15 | getPixel reads inside a buffer of 4*width*height bytes whenever 0 <= x < width and 0 <= y < height |
| Pixels.SetCellAt | src/components/canvas/useCanvasDrawing.js:20-24 | after writing cell p, reading p gives the new colour and every other cell is unchanged |
| Pixels.SetCellOpaqueOrClear | src/components/canvas/useCanvasDrawing.js:52-61 | writing an opaque or transparent colour keeps every cell opaque or clear |
| Pixels.CheckerColor | src/components/canvas/canvasUtils.js:43 | the backdrop colour of a cell is opaque |
| Pixels.CheckerAdjacentDiffer | src/components/canvas/canvasUtils.js:43 | horizontally or vertically adjacent backdrop cells always get different colours |
| Raster.ParseCssColor | src/components/canvas/useCanvasDrawing.js:58 | an accepted fillStyle is opaque, and '#RRGGBB' is read as the bytes a fill with it writes |
| Raster.FillRgbaOfHexColor | src/components/canvas/useCanvasDrawing.js:21-24 | for '#RRGGBB' the fill bytes are the three digit pairs, each below 256, with alpha 255 |
| Raster.CheckerStyles | src/components/canvas/canvasUtils.js:38-39 | '#ffffff' and '#efefef' are read as the light and dark backdrop colours |
| Raster.StyleAfter | src/components/canvas/useCanvasDrawing.js:58 | assigning fillStyle keeps it opaque, and a '#RRGGBB' string sets it to that colour |
| Raster.Layer.constructor | src/components/canvas/Canvas.jsx:209-211 | a fresh layer canvas is all zero bytes (transparent) with an opaque black fill style |
| Raster.Layer.SetFillStyle | src/components/canvas/useCanvasDrawing.js:58 | the fill style becomes the parsed colour, or stays when the string is not a colour |
| Raster.Layer.FillCell | src/components/canvas/useCanvasDrawing.js:59 | fillRect(x, y, 1, 1) writes the fill style into cell (x, y) when it is on the canvas and nothing otherwise |
| Raster.Layer.ClearCell | src/components/canvas/useCanvasDrawing.js:55 | clearRect(x, y, 1, 1) makes cell (x, y) transparent when it is on the canvas and nothing otherwise |
| Raster.Layer.ClearAll | src/components/canvas/canvasUtils.js:36 | clearRect over the canvas makes every cell transparent |
| Raster.Layer.GetImageData | src/components/canvas/useCanvasDrawing.js:8 | getImageData returns a fresh copy of the bitmap |
| Raster.Layer.PutPixels | src/components/canvas/useCanvasDrawing.js:32 | putImageData replaces the bitmap by the given bytes |
| Raster.WriteCell | src/components/canvas/useCanvasDrawing.js:20-24 | writing the four bytes at (y*width + x)*4 sets exactly cell (x, y) |
| Raster.DrawCheckerboard | src/components/canvas/canvasUtils.js:33-47 | a null canvas is left alone; otherwise every cell of the grid ends light where x + y is even and dark elsewhere |
| Raster.LoadImage | src/components/canvas/Canvas.jsx:138-146 | a stored layer replaces the bitmap; a missing one leaves it as it was |
| Raster.LoadLayers | src/components/canvas/Canvas.jsx:148-155 | with saved data each stored layer is loaded and a missing one kept; without saved data both layers become fully transparent |
| FloodFill.Neighbours | src/components/canvas/useCanvasDrawing.js:26-29 | every pushed cell is on the grid and adjacent to the painted cell, and every on-grid neighbour is pushed |
| FloodFill.ClosedSetHoldsRegion | src/components/canvas/useCanvasDrawing.js:14-31 | a set that holds the seed and is closed under target-coloured neighbours contains the whole region |
| FloodFill.SkipStep | src/components/canvas/useCanvasDrawing.js:16-19 | popping a cell that no longer shows the target colour keeps the loop invariant |
| FloodFill.PaintStep | src/components/canvas/useCanvasDrawing.js:19-29 | a popped target-coloured cell is a fresh cell of the region; painting it and pushing its neighbours keeps the loop invariant |
| FloodFill.FillDone | src/components/canvas/useCanvasDrawing.js:15 | when the worklist is empty exactly the seed's 4-connected region has been recoloured |
| FloodFill.FillRegion | src/components/canvas/useCanvasDrawing.js:14-31 | the worklist loop started from the seed terminates with exactly the seed's 4-connected region recoloured and every other cell unchanged |
| FloodFill.FloodFill | src/components/canvas/useCanvasDrawing.js:7-34 | the fill terminates; it reports a change iff the seed's colour differs from the fill bytes; the image is then the input with exactly the seed's region recoloured; when no change is reported not a byte is written |
| FloodFill.LoopStep | src/components/canvas/useCanvasDrawing.js:16-30 | one pass of the loop keeps the image size and every queued cell on the grid |
| FloodFill.EntersLoopAgrees | src/components/canvas/useCanvasDrawing.js:9-12 | for '#RRGGBB' colours the early exit as written agrees with the comparison against the stored fill bytes |
| FloodFill.ShortBlack | src/components/canvas/canvasUtils.js:1-6 | hexToRgba('#000') has a NaN blue channel, and storing it writes opaque black |
| FloodFill.AsWrittenFillNeverEnds | src/components/canvas/useCanvasDrawing.js:9-31 | filling a black region with '#000' passes the early exit as written, and the worklist is still non-empty after any number of passes |
| FloodFill.TwoCellCycle | src/components/canvas/useCanvasDrawing.js:14-31 | when two loop states with non-empty worklists step into each other, every run of the loop from either stays at one of them, so the worklist never empties |
| FloodFill.FillCanvas | src/components/canvas/useCanvasDrawing.js:7-33 | the bitmap stays a valid layer; the change is reported iff the seed's colour differs from the fill bytes, and the bitmap becomes the filled image |
| FloodFill.ApplyTool | src/components/canvas/useCanvasDrawing.js:50-61 | fill (not on a drag) recolours the seed's region and notifies iff it changed something; erase clears the cell; draw paints it with the selected colour; both notify; any other tool, or fill on a drag, does nothing |
| FloodFill.ActOn | src/components/canvas/useCanvasDrawing.js:49-61 | outside the grid nothing changes and nothing is notified; inside it, the tool's effect on the canvas |
| FloodFill.HandleAction | src/components/canvas/useCanvasDrawing.js:36-63 | nothing changes and nothing is notified while zooming, without a canvas or outside the grid; otherwise the tool's effect on the active layer; the other layer, its bitmap and fill style, is untouched |
| History.PushBounded | src/components/canvas/Canvas.jsx:43-46 | pushing keeps the 50 latest snapshots, the new one on top |
| History.PushAllKeepsLatest | src/components/canvas/Canvas.jsx:38-49 | after any sequence of saves the undo stack is the 50 latest snapshots |
| History.Save | src/components/canvas/Canvas.jsx:38-49 | the current layers go on top of the undo stack, the oldest is evicted past 50, the redo stack is emptied, and the bound on both stacks is preserved |
| History.Undo | src/components/canvas/Canvas.jsx:109-121 | an empty undo stack changes nothing; otherwise the top of undo is restored and the current layers go on redo; the bound is preserved |
| History.Redo | src/components/canvas/Canvas.jsx:122-134 | the mirror image of undo |
| History.UndoThenRedo | src/components/canvas/Canvas.jsx:109-134 | undo followed by redo restores the layers and both stacks |
| History.RedoThenUndo | src/components/canvas/Canvas.jsx:109-134 | redo followed by undo restores the layers and both stacks |
| History.StatusOf | src/components/canvas/Canvas.jsx:51-58 | canUndo iff the undo stack is non-empty, canRedo iff the redo stack is non-empty |
| Compose.Over | src/components/canvas/Canvas.jsx:89-90 | an opaque top cell covers the bottom one; a clear top cell lets it show |
| Compose.Flatten | src/components/canvas/Canvas.jsx:84-92 | the flattened picture is width x height |
| Compose.FlattenShows | src/components/canvas/Canvas.jsx:89-90 | each pixel is the foreground where it has paint and the background elsewhere |
| Compose.Thumbnail | src/components/canvas/Canvas.jsx:84-92 | the thumbnail is width x height |
| Compose.ExportImage | src/components/canvas/Canvas.jsx:93-102 | the export is (width*scale) x (height*scale) |
| Compose.ExportBlocks | src/components/canvas/Canvas.jsx:93-102 | every cell becomes a uniform scale x scale block of the export |
| Compose.ThumbnailIsUnscaledExport | src/components/canvas/Canvas.jsx:84-102 | the thumbnail equals the export at scale 1 |
| LayeredCanvas.Canvas.constructor | src/components/canvas/Canvas.jsx:137-164 | after mounting the history is empty, the backdrop is the checkerboard, stored layers are loaded and missing ones are clear |
| LayeredCanvas.Canvas.Load | src/components/canvas/Canvas.jsx:137-160 | the layers are loaded or cleared, both stacks are emptied and the status is reported as nothing to undo or redo |
| LayeredCanvas.Canvas.SaveStateToUndo | src/components/canvas/Canvas.jsx:38-49 | the session becomes History.Save of the old one; both layers (bitmaps and fill styles) and the flags are unchanged |
| LayeredCanvas.Canvas.Save | src/components/canvas/Canvas.jsx:80-83 | save returns both layers, a snapshot the history can restore |
| LayeredCanvas.Canvas.ApplyState | src/components/canvas/Canvas.jsx:60-77 | both layers become exactly the snapshot's |
| LayeredCanvas.Canvas.Undo | src/components/canvas/Canvas.jsx:109-121 | the session becomes History.Undo of the old one; onCanvasChange fires iff the undo stack was non-empty |
| LayeredCanvas.Canvas.Redo | src/components/canvas/Canvas.jsx:122-134 | the session becomes History.Redo of the old one; onCanvasChange fires iff the redo stack was non-empty |
| LayeredCanvas.Canvas.Clear | src/components/canvas/Canvas.jsx:103-108 | one snapshot is recorded as by History.Save, then both layers are fully transparent; the stroke and pinch flags are kept |
| LayeredCanvas.Canvas.MouseDown | src/components/canvas/Canvas.jsx:166-170 | a stroke starts unless the tool is fill; one snapshot is recorded; then handleAction's effect on the active layer; the other layer's bitmap and fill style are untouched |
| LayeredCanvas.Canvas.MouseMove | src/components/canvas/Canvas.jsx:172-174 | during a stroke, handleAction's effect as a drag; otherwise no bitmap or fill style changes; the inactive layer is never touched; the history is not touched |
| LayeredCanvas.Canvas.MouseUp | src/components/canvas/Canvas.jsx:176 | the stroke ends; the history is unchanged |
| LayeredCanvas.Canvas.TouchStart | src/components/canvas/Canvas.jsx:178-184 | two touches start a pinch and change nothing else, fill styles included; otherwise it acts as a mouse press, the inactive layer's bitmap and fill style untouched |
| LayeredCanvas.Canvas.TouchMove | src/components/canvas/Canvas.jsx:186-190 | a pinch in progress consumes the move and changes no bitmap or fill style; otherwise it acts as a mouse move; the inactive layer is never touched |
| LayeredCanvas.Canvas.TouchEnd | src/components/canvas/Canvas.jsx:192-195 | the stroke ends, and the pinch ends when fewer than two touches remain |
| LayeredCanvas.Canvas.GetThumbnail | src/components/canvas/Canvas.jsx:84-92 | the thumbnail is the flattened layers, width x height |
| LayeredCanvas.Canvas.ExportImage | src/components/canvas/Canvas.jsx:93-102 | the export is the flattened layers scaled to (width*scale) x (height*scale) |
| SimpleCanvas.PixelEffectIsDrawOrErase | src/components/Canvas.jsx:104-111 | drawPixel is handleAction's erase for the erase tool and its draw for every other tool, fill included |
| SimpleCanvas.Canvas.constructor | src/components/Canvas.jsx:57-94 | after mounting the backdrop is the checkerboard, stored layers are loaded and missing ones are clear |
| SimpleCanvas.Canvas.PaintCheckerboard | src/components/Canvas.jsx:78-94 | every backdrop cell is light where x + y is even and dark elsewhere |
| SimpleCanvas.Canvas.DrawPixel | src/components/Canvas.jsx:96-113 | nothing outside the grid; erase clears the one cell; every other tool paints it with the selected colour; the other layer's bitmap and fill style are untouched |
| SimpleCanvas.Canvas.PointerDown | src/components/Canvas.jsx:115-118 | a stroke starts and the cell is painted once; the other layer's bitmap and fill style are untouched |
| SimpleCanvas.Canvas.PointerMove | src/components/Canvas.jsx:120-123 | the cell is painted only during a stroke; otherwise nothing changes; the other layer's bitmap and fill style are untouched |
| SimpleCanvas.Canvas.PointerUp | src/components/Canvas.jsx:125-127 | the stroke ends |
| SimpleCanvas.Canvas.Save | src/components/Canvas.jsx:12-17 | save returns both layers, each of the canvas's size with only opaque or clear cells |
| SimpleCanvas.Canvas.GetThumbnail | src/components/Canvas.jsx:18-28 | the thumbnail is the flattened layers, width x height |
| SimpleCanvas.Canvas.ExportImage | src/components/Canvas.jsx:29-42 | the export is the flattened layers scaled to (width*scale) x (height*scale) |
| Palettes.Split | src/utils/palettes.js:20 | split gives at least one piece |
| Palettes.SplitNone | src/utils/palettes.js:20 | a text without the separator is a single piece, the text itself |
| Palettes.SplitPieces | src/utils/palettes.js:20 | no piece of a split contains the separator |
| Palettes.JoinSplit | src/utils/palettes.js:20 | joining the pieces of a split gives the text back |
| Palettes.SplitJoin | src/utils/palettes.js:20 | splitting a join of separator-free pieces gives the pieces back |
| Palettes.SplitAppend | src/utils/palettes.js:20 | splitting a + '\n' + b gives the lines of a followed by the lines of b |
| Palettes.Entry | src/utils/palettes.js:23 | a kept line becomes an entry that starts with '#' and is the line itself or '#' followed by it |
| Palettes.ParseLines | src/utils/palettes.js:21-23 | no more entries than lines; every entry is non-empty, starts with '#' and ends in a non-whitespace character |
| Palettes.ParseLinesAppend | src/utils/palettes.js:21-23 | the entries of two runs of lines are the entries of the first followed by those of the second |
| Palettes.ParseHexFile | src/utils/palettes.js:18-24 | at most one entry per line; every entry is non-empty, starts with '#' (so never with ';'), and has no surrounding whitespace |
| Palettes.ParseOneLine | src/utils/palettes.js:21-23 | a blank or ';' line gives no entry; a line starting with '#' is kept as trimmed; any other line gives '#' followed by the trimmed line |
| Palettes.ParseHexFileConcat | src/utils/palettes.js:18-24 | entries keep the order of their lines: parsing a + '\n' + b gives the entries of a followed by those of b |
| ColorSort.Channels | src/utils/colorSort.js:50-53 | each extracted channel lies in 0..255 |
| ColorSort.Unpack | src/utils/colorSort.js:51-53 | the shifted and masked channels lie in 0..255 |
| ColorSort.Luminance | src/utils/colorSort.js:49-57 | the luminance lies between 0 and 255 |
| ColorSort.UnpackChannels | src/utils/colorSort.js:51-53 | packing three channels as 0xRRGGBB and shifting and masking gives them back |
| ColorSort.PackedValue | src/utils/colorSort.js:50 | parseInt of the six digits of '#RRGGBB' is R*65536 + G*256 + B, below 2^32 |
| ColorSort.ChannelsOfHexColor | src/utils/colorSort.js:49-53 | for '#RRGGBB' getLuminance's channels are bits 16-23, 8-15 and 0-7, the same as hexToRgba's channels |
| ColorSort.SortBy | src/utils/colorSort.js:74 | the sorted list is ascending by key, a permutation of the input, and as long as the input |
| ColorSort.Evens | src/utils/colorSort.js:81-87 | left gets one entry of every two, rounding up: (n + 1) / 2 of n |
| ColorSort.Odds | src/utils/colorSort.js:81-87 | right gets one entry of every two, rounding down: n / 2 of n |
| ColorSort.EvensOddsAt | src/utils/colorSort.js:81-87 | entry k of left is entry 2k of the sorted list and entry k of right is entry 2k + 1 |
| ColorSort.EvensOddsSnoc | src/utils/colorSort.js:81-87 | dealing one more entry appends it to left when its position is even and to right when it is odd, leaving the other row alone |
| ColorSort.Interleave | src/utils/colorSort.js:89-92 | the interleaving has as many entries as both rows together |
| ColorSort.InterleaveKeepsEntries | src/utils/colorSort.js:89-92 | the interleaving holds every entry of both rows, each as often as the rows do |
| ColorSort.InterleaveEvensOdds | src/utils/colorSort.js:77-92 | splitting by position parity and re-interleaving gives back the sorted list exactly |
| ColorSort.SplitRows | src/utils/colorSort.js:81-87 | the forEach deals the even positions to left and the odd ones to right |
| ColorSort.InterleaveRows | src/utils/colorSort.js:89-92 | the for loop produces the interleaving of left and right |
| ColorSort.SortColorsByLuminance | src/utils/colorSort.js:65-95 | an empty input comes back unchanged; the result is the sorted list, a permutation of the input, non-decreasing in luminance |
| ColorSort.Desaturated | src/utils/colorSort.js:118-124 | every colour in the desaturated group has saturation below 30 |
| ColorSort.Saturated | src/utils/colorSort.js:118-124 | every colour in the saturated group has saturation of at least 30 |
| ColorSort.PartitionIsPermutation | src/utils/colorSort.js:118-124 | every colour lands in exactly one of the two groups |
| ColorSort.Partition | src/utils/colorSort.js:118-124 | the forEach builds the two groups, each in input order |
| ColorSort.GroupsInOrder | src/utils/colorSort.js:141-147 | in the concatenated result a colour is desaturated exactly when it sits in the first part |
| ColorSort.SortColorsByHue | src/utils/colorSort.js:104-149 | an empty input comes back unchanged; the result is a permutation of the input; every desaturated colour precedes every saturated one; the desaturated block is non-decreasing in lightness |

## Left out

- Pointer coordinates: the mapping `floor((clientX - rect.left) * width / rect.width)` is float arithmetic on DOM sizes. Handlers take the grid cell (x, y) as integers. The bounds gate on that cell is modelled exactly.
- Pinch zoom in `useCanvasGestures.js`: the scale and offset geometry (`getDistance`, `getMidpoint`, `Math.sqrt`, clamping to the container) is float geometry and is left out. Only the flags are modelled: a gesture starts on exactly two touches, it consumes moves while `isZooming`, and it ends when fewer than two touches remain.
- handleAction's `isZooming` parameter: no handler passes it, so the canvas classes call `HandleAction` with `false`. `FloodFill.HandleAction` itself models the guard.
- Missing canvas elements: `HandleAction` and `DrawCheckerboard` take nullable canvases. The two canvas classes assume all three canvases are mounted.
- `onCanvasChange` and `onHistoryChange` are assumed present. Calling the first is a `notified` result. The status passed to the second is the `status` field.
- Snapshots and restores: `toDataURL` is taken as an exact copy of the bitmap, and decoding a stored image as synchronous and exact. A stored layer must have the canvas's size and only opaque or clear cells.
- Image decoding and the `null` data URLs of missing canvases are left out.
- Compositing: every cell the editor writes is opaque or fully transparent (`Raster.Layer.Valid`). Flattening is modelled for that case only; alpha blending is left out.
- `Raster.ParseCssColor`: only the opaque hex forms '#rgb' and '#rrggbb' are parsed. Named colours, rgb() and 4- or 8-digit hex are treated like an invalid string, which leaves the fill style unchanged. The palettes the editor offers are hex colours.
- `ColorSort.Luminance`: computed in exact arithmetic, not in float. Two colours with equal exact luminance may differ by rounding in JavaScript, so their relative order in the source can differ from the model's.
- `ColorSort.SortBy`: the model is a stable insertion sort. Stability is not stated in any contract.
- parseInt precision: `Js.ParseIntHex` is exact, while JavaScript loses precision above 2^53. This matters only for hex strings longer than 13 digits.
- `ColorSort.SortColorsByHue`: `hexToHSL` is float arithmetic and is taken as a function parameter. The saturated group's comparator (hue, then saturation, then lightness, with tolerance 1) is not a transitive order and is left out. The model keeps the saturated group in input order, so only the partition and the ordering of the desaturated group are claimed.
- Strings are sequences of Unicode scalar values, while JavaScript's `slice` and indexing count UTF-16 code units. `Js.Slice` as used by `Pixels.HexToRgba` (slices 1..3, 3..5 and 5..7) and by `ColorSort.Channels` therefore picks different characters from the source when a colour string holds a character outside the Basic Multilingual Plane, which an imported palette file can supply. For strings within that plane the two agree.
- FloodFill.ApplyTool: the fill uses the corrected early exit, comparing the seed with the bytes the fill writes; so do `FloodFill.HandleAction`, `FloodFill.ActOn` and every canvas handler that calls them. For a colour that is not '#RRGGBB' and whose stored bytes equal the seed's colour, the model does nothing. The source as written instead loops forever on a region of two or more cells, and on a one-cell region rewrites the cell with the same bytes and calls onCanvasChange (useCanvasDrawing.js:32-33). For every '#RRGGBB' colour the two exits agree (`FloodFill.EntersLoopAgrees`).
- `fetchLospecPalette`, `getPopularPaletteNames`, storage and the UI components are network, storage or presentation code.

## Findings

| source | as written | input that shows it | evidently intended | confidence | as-written member | corrected member |
|---|---|---|---|---|---|---|
| src/components/canvas/useCanvasDrawing.js:9-12 | The early exit compares the seed's bytes with hexToRgba's raw numbers. For a short colour such as '#000' the blue channel is NaN, so the exit never fires. Storing NaN writes 0, so each pass rewrites black over black, and two adjacent cells push each other back forever. | fill with '#000' at (0, 0) of a 2 x 1 image whose two cells are opaque black | compare the seed with the bytes the fill writes, so no fill starts when nothing would change | not executed | FloodFill.AsWrittenFillNeverEnds | FloodFill.FloodFill |
